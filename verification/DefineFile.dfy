/** A PHP file's managed defines brought up to date: replaced where they are, added where they are missing. */
module DefineFile {
  import opened DefineCalls
  import opened DefinePatches
  import opened DefineUpdate
  import opened Sequences
  import opened Wrappers

  /** The tokens of a file, and the white space and comments after the last. */
  datatype Source = Source(lexemes: seq<Lexeme>, tail: string)

  function SourceText(s: Source): string {
    Text(s.lexemes) + s.tail
  }

  /** The first closing tag, or the end. */
  function CloseIndex(ls: seq<Lexeme>): (k: nat)
    ensures k <= |ls| && (k < |ls| ==> ls[k].kind.CloseTag?)
    ensures forall i :: 0 <= i < k ==> !ls[i].kind.CloseTag?
  {
    if ls == [] || ls[0].kind.CloseTag? then 0 else 1 + CloseIndex(ls[1..])
  }

  /** Where missing defines are added: before the first closing tag, or at the end. */
  function AppendAt(s: Source): nat {
    var k := CloseIndex(s.lexemes);
    if k < |s.lexemes| then |Text(s.lexemes[..k])| + |s.lexemes[k].lead| else |SourceText(s)|
  }

  function Unfound(order: seq<Key>, found: set<Key>): seq<Key> {
    if order == [] then []
    else (if order[0] in found then [] else [order[0]]) + Unfound(order[1..], found)
  }

  /** The PHP statement that defines a key. */
  function Statement(rules: Rules, key: Key): string
    requires key in rules.expressions
  {
    "define" + "(" + rules.quoted(key) + "," + (" " + Text(rules.expressions[key])) + ")" + ";"
  }

  function Addition(rules: Rules, keys: seq<Key>): string
    requires forall key :: key in keys ==> key in rules.expressions
  {
    if keys == [] then "" else "\n" + Statement(rules, keys[0]) + Addition(rules, keys[1..])
  }

  function Inserted(ps: seq<Patch>, p: Patch): seq<Patch> {
    if ps == [] || p.start <= ps[0].start then [p] + ps else [ps[0]] + Inserted(ps[1..], p)
  }

  lemma {:induction false} UnfoundIs(order: seq<Key>, found: set<Key>)
    ensures forall key :: key in Unfound(order, found) <==> key in order && key !in found
  {
    if order != [] {
      UnfoundIs(order[1..], found);
    }
  }

  /** What the update of a file comes to. order: the managed keys as they are listed. */
  function Outcome(rules: Rules, order: seq<Key>, s: Source, requireExisting: bool): Result<string, Refusal>
    requires forall key :: key in order ==> key in rules.expressions
  {
    match Scan(rules, s.lexemes, 0, {})
    case Err(why) => Err(why)
    case Ok(f) =>
      UnfoundIs(order, f.found);
      var missing := Unfound(order, f.found);
      if missing == [] then Ok(Spliced(SourceText(s), f.patches))
      else if requireExisting then Err(Missing(missing[0]))
      else Ok(Spliced(SourceText(s), Inserted(f.patches, Patch(AppendAt(s), 0, Addition(rules, missing) + "\n"))))
  }

  lemma {:induction false} UnfoundFirst(order: seq<Key>, found: set<Key>)
    ensures Unfound(order, found) != [] ==>
              exists i :: 0 <= i < |order| && order[i] == Unfound(order, found)[0] && order[i] !in found
                          && forall j :: 0 <= j < i ==> order[j] in found
  {
    if order == [] {
    } else if order[0] !in found {
      assert order[0] == Unfound(order, found)[0];
    } else {
      UnfoundFirst(order[1..], found);
      if Unfound(order, found) != [] {
        var i :| 0 <= i < |order[1..]| && order[1..][i] == Unfound(order, found)[0] && order[1..][i] !in found
                 && forall j :: 0 <= j < i ==> order[1..][j] in found;
        assert order[i + 1] == order[1..][i];
        assert forall j :: 0 < j < i + 1 ==> order[j] == order[1..][j - 1];
      }
    }
  }

  /** A file that can be scanned is refused exactly when its defines have to be there and one of the listed keys is
      missing; the first such key is named. */
  lemma RefusesFirstMissing(rules: Rules, order: seq<Key>, s: Source, requireExisting: bool)
    requires (forall key :: key in order ==> key in rules.expressions) && Scan(rules, s.lexemes, 0, {}).Ok?
    ensures var found, o := Scan(rules, s.lexemes, 0, {}).value.found, Outcome(rules, order, s, requireExisting);
            && (o.Err? <==> requireExisting && exists key :: key in order && key !in found)
            && (o.Err? ==> exists i :: 0 <= i < |order| && o.error == Missing(order[i]) && order[i] !in found
                                       && forall j :: 0 <= j < i ==> order[j] in found)
  {
    var found := Scan(rules, s.lexemes, 0, {}).value.found;
    UnfoundIs(order, found);
    UnfoundFirst(order, found);
    var missing := Unfound(order, found);
    assert missing != [] ==> missing[0] in missing;
    hide Scan, Unfound, Spliced, SourceText, Inserted, Addition;
  }

  // ---- The update, step by step ----

  /** Where the argument that starts at a token stops, as seen from a later token. */
  ghost function StopFrom(ls: seq<Lexeme>, j: nat, depth: int): nat
    requires j <= |ls|
  {
    match Stop(ls[j..], depth)
    case None => |ls|
    case Some(at) => j + at
  }

  lemma StopStep(ls: seq<Lexeme>, j: nat, depth: int)
    requires j < |ls|
    ensures StopFrom(ls, j, depth) ==
            if depth == 0 && IsStop(ls[j].text) then j else StopFrom(ls, j + 1, Nested(ls[j].text, depth))
  {
    assert ls[j..][1..] == ls[j + 1..];
  }

  lemma EndsFrom(ls: seq<Lexeme>, from: nat, k: nat)
    requires from <= k < |ls|
    ensures Ends(ls, from, k, 0) == Ends(ls[from..], 0, k - from, 0)
  {
    assert ls[from..][0..k - from] == ls[from..k];
    hide Opened, Closed;
  }

  /** The first token that ends an argument, or the number of tokens. */
  ghost predicate EndsFirst(ls: seq<Lexeme>, from: nat, j: nat) {
    from <= j <= |ls| && (j < |ls| ==> Ends(ls, from, j, 0)) && forall k :: from <= k < j ==> !Ends(ls, from, k, 0)
  }

  lemma StopEnds(ls: seq<Lexeme>, from: nat)
    requires from <= |ls|
    ensures EndsFirst(ls, from, StopFrom(ls, from, 0))
  {
    StopIsFirst(ls[from..], 0);
    forall k | from <= k < |ls|
      ensures Ends(ls, from, k, 0) == Ends(ls[from..], 0, k - from, 0)
    {
      EndsFrom(ls, from, k);
    }
    hide Ends, Stop;
  }

  /** The token a managed define's argument stops at: the first comma or closing parenthesis with no bracket left open
      before it. The number of tokens when there is none. */
  method FindStop(ls: seq<Lexeme>, from: nat) returns (j: nat)
    requires from <= |ls|
    ensures j == StopFrom(ls, from, 0) && EndsFirst(ls, from, j)
  {
    var depth := 0;
    j := from;
    StopEnds(ls, from);
    assert StopFrom(ls, |ls|, 0) == |ls|;
    ghost var at := StopFrom(ls, from, 0);
    while j < |ls|
      invariant from <= j <= |ls| && at == StopFrom(ls, j, depth)
    {
      hide *;
      StopStep(ls, j, depth);
      if depth == 0 && IsStop(ls[j].text) {
        return;
      }
      depth := Nested(ls[j].text, depth);
      j := j + 1;
    }
  }

  lemma TextStep(ls: seq<Lexeme>, i: nat)
    requires i < |ls|
    ensures |Text(ls[..i + 1])| == |Text(ls[..i])| + |Whole(ls[i])|
  {
    TextConcat(ls[..i], [ls[i]]);
    assert ls[..i] + [ls[i]] == ls[..i + 1];
    TextOne(ls[i]);
  }

  lemma TextUpTo(ls: seq<Lexeme>, i: nat, j: nat)
    requires i < j <= |ls|
    ensures |Text(ls[..i])| + |ls[i].lead| <= |Text(ls[..j])|
  {
    TextStep(ls, i);
    TextConcat(ls[..i + 1], ls[i + 1..j]);
    assert ls[..i + 1] + ls[i + 1..j] == ls[..j];
  }

  lemma ScanStep(rules: Rules, ls: seq<Lexeme>, i: nat, at: nat, found: set<Key>)
    requires i < |ls|
    ensures var here, next := ls[i..], at + |Whole(ls[i])|;
            Scan(rules, here, at, found) ==
            if !Managed(rules, here) then Scan(rules, ls[i + 1..], next, found)
            else if KeyOf(rules, here) in found then Err(Duplicate(KeyOf(rules, here)))
            else if CallAt(rules, here).None? then Err(Unparsable(KeyOf(rules, here)))
            else Ahead([PatchFor(rules, here, at)], Scan(rules, ls[i + 1..], next, found + {KeyOf(rules, here)}))
  {
    assert ls[i..][1..] == ls[i + 1..];
  }

  lemma AheadTwice(a: seq<Patch>, b: seq<Patch>, r: Result<Findings, Refusal>)
    ensures Ahead(a, Ahead(b, r)) == Ahead(a + b, r)
  {
    if r.Ok? {
      assert a + (b + r.value.patches) == a + b + r.value.patches;
    }
  }

  /** The scan from a token on, with the patches found before it. */
  ghost function ScanFrom(rules: Rules, ls: seq<Lexeme>, i: nat, at: nat, f: Findings): Result<Findings, Refusal>
    requires i <= |ls|
  {
    Ahead(f.patches, Scan(rules, ls[i..], at, f.found))
  }

  lemma ScanGoesOn(rules: Rules, ls: seq<Lexeme>, i: nat, at: nat, f: Findings)
    requires i < |ls|
    ensures var here, next := ls[i..], at + |Whole(ls[i])|;
            ScanFrom(rules, ls, i, at, f) ==
            if !Managed(rules, here) then ScanFrom(rules, ls, i + 1, next, f)
            else if KeyOf(rules, here) in f.found then Err(Duplicate(KeyOf(rules, here)))
            else if CallAt(rules, here).None? then Err(Unparsable(KeyOf(rules, here)))
            else
              ScanFrom(rules, ls, i + 1, next, Findings(f.patches + [PatchFor(rules, here, at)], f.found + {KeyOf(rules, here)}))
  {
    var here, ps, found := ls[i..], f.patches, f.found;
    hide Ahead, Scan, Whole, Managed, KeyOf, CallAt, PatchFor, Stop;
    ScanStep(rules, ls, i, at, found);
    if Managed(rules, here) {
      var key := KeyOf(rules, here);
      AheadError(ps, Duplicate(key));
      AheadError(ps, Unparsable(key));
      if CallAt(rules, here).Some? {
        AheadTwice(ps, [PatchFor(rules, here, at)], Scan(rules, ls[i + 1..], at + |Whole(ls[i])|, found + {key}));
      }
    }
  }

  /** The patch of the managed define at a token, when its argument has an end. */
  method PatchAt(rules: Rules, ls: seq<Lexeme>, i: nat, at: nat) returns (p: Option<Patch>)
    requires i < |ls| && Managed(rules, ls[i..])
    ensures p == if CallAt(rules, ls[i..]).None? then None else Some(PatchFor(rules, ls[i..], at))
  {
    assert ls[i..][4..] == ls[i + 4..];
    var j := FindStop(ls, i + 4);
    if j == |ls| {
      return None;
    }
    var start := at + |Text(ls[i..i + 4])|;
    assert ls[i..][..4] == ls[i..i + 4] && ls[i..][4..j - i] == ls[i + 4..j];
    return Some(Patch(start, |Text(ls[i + 4..j])| + |ls[j].lead|, " " + Text(rules.expressions[KeyOf(rules, ls[i..])])));
  }

  method ScanSource(rules: Rules, s: Source) returns (r: Result<Findings, Refusal>, appendAt: nat)
    ensures r == Scan(rules, s.lexemes, 0, {}) && (r.Ok? ==> appendAt == AppendAt(s))
  {
    var ls := s.lexemes;
    var patches: seq<Patch>, found, at := [], {}, 0;
    appendAt := |SourceText(s)|;
    assert ls[..0] == [];
    ScanStarts(rules, ls);
    AppendEnds(s);
    hide Scan, ScanFrom, Text, Whole, SourceText, AppendAt, AppendBefore, Least, Managed, KeyOf, CallAt, PatchFor, Stop;
    for i := 0 to |ls|
      invariant at == |Text(ls[..i])|
      invariant Scan(rules, ls, 0, {}) == ScanFrom(rules, ls, i, at, Findings(patches, found))
      invariant appendAt == AppendBefore(s, i)
    {
      ScanGoesOn(rules, ls, i, at, Findings(patches, found));
      TextStep(ls, i);
      AppendNext(s, i);
      if ls[i].kind.CloseTag? {
        appendAt := Least(appendAt, at + |ls[i].lead|);
      }
      if Managed(rules, ls[i..]) {
        var key := KeyOf(rules, ls[i..]);
        if key in found {
          return Err(Duplicate(key)), appendAt;
        }
        var p := PatchAt(rules, ls, i, at);
        if p.None? {
          return Err(Unparsable(key)), appendAt;
        }
        patches, found := patches + [p.value], found + {key};
      }
      at := at + |Whole(ls[i])|;
    }
    ScanEnd(rules, ls, at, Findings(patches, found));
    return Ok(Findings(patches, found)), appendAt;
  }

  lemma ScanStarts(rules: Rules, ls: seq<Lexeme>)
    ensures ScanFrom(rules, ls, 0, 0, Findings([], {})) == Scan(rules, ls, 0, {})
  {
    hide Scan, Ahead;
    assert ls[0..] == ls;
    AheadNothing(Scan(rules, ls, 0, {}));
  }

  lemma AheadNothing(r: Result<Findings, Refusal>)
    ensures Ahead([], r) == r
  {
    assert r.Ok? ==> [] + r.value.patches == r.value.patches;
  }

  lemma AheadError(ps: seq<Patch>, why: Refusal)
    ensures Ahead(ps, Err(why)) == Err(why)
  {
  }

  lemma ScanEnd(rules: Rules, ls: seq<Lexeme>, at: nat, f: Findings)
    ensures ScanFrom(rules, ls, |ls|, at, f) == Ok(f)
  {
    assert f.patches + [] == f.patches;
  }

  lemma AppendStep(s: Source, i: nat)
    requires i < |s.lexemes|
    ensures var k, at := CloseIndex(s.lexemes), |Text(s.lexemes[..i])| + |s.lexemes[i].lead|;
            && (i < k ==> !s.lexemes[i].kind.CloseTag?) && (i == k ==> s.lexemes[i].kind.CloseTag? && at == AppendAt(s) <= |SourceText(s)|)
            && (i > k ==> AppendAt(s) <= at)
  {
    var k := CloseIndex(s.lexemes);
    TextUpTo(s.lexemes, i, |s.lexemes|);
    assert s.lexemes[..|s.lexemes|] == s.lexemes;
    if i > k {
      TextUpTo(s.lexemes, k, i);
    }
  }

  /** Where missing defines are added, as far as the first tokens tell. */
  ghost function AppendBefore(s: Source, i: nat): nat {
    if CloseIndex(s.lexemes) < i then AppendAt(s) else |SourceText(s)|
  }

  lemma AppendNext(s: Source, i: nat)
    requires i < |s.lexemes|
    ensures AppendBefore(s, i + 1) ==
            if s.lexemes[i].kind.CloseTag? then Least(AppendBefore(s, i), |Text(s.lexemes[..i])| + |s.lexemes[i].lead|)
            else AppendBefore(s, i)
  {
    hide AppendAt, Text, SourceText;
    AppendStep(s, i);
  }

  lemma AppendEnds(s: Source)
    ensures AppendBefore(s, 0) == |SourceText(s)| && AppendBefore(s, |s.lexemes|) == AppendAt(s)
  {
    hide Text, SourceText;
  }

  method PatchText(text: string, ps: seq<Patch>) returns (patched: string)
    ensures patched == Spliced(text, ps)
  {
    patched := text;
    var i := |ps|;
    assert ps[..|ps|] == ps;
    while i > 0
      invariant 0 <= i <= |ps| && Spliced(text, ps) == Spliced(patched, ps[..i])
    {
      i := i - 1;
      assert ps[..i + 1][..i] == ps[..i];
      patched := Splice(patched, ps[i]);
    }
  }

  method PatchDefineExpressions(rules: Rules, order: seq<Key>, s: Source, requireExisting: bool)
      returns (r: Result<string, Refusal>)
    requires forall key :: key in order ==> key in rules.expressions
    ensures r == Outcome(rules, order, s, requireExisting)
  {
    var scan, appendAt := ScanSource(rules, s);
    if scan.Err? {
      return Err(scan.error);
    }
    var patches, missing := scan.value.patches, Unfound(order, scan.value.found);
    UnfoundIs(order, scan.value.found);
    if missing != [] {
      if requireExisting {
        return Err(Missing(missing[0]));
      }
      patches := Inserted(patches, Patch(appendAt, 0, Addition(rules, missing) + "\n"));
    }
    var text := PatchText(SourceText(s), patches);
    return Ok(text);
  }

  // ---- What the updated file holds ----

  /** A file cut where missing defines are added: the tokens before, the white space before the cut, the tokens after,
      the white space at the end. */
  datatype Parts = Parts(before: seq<Lexeme>, gap: string, after: seq<Lexeme>, end: string)

  function PartsOf(s: Source): Parts {
    var k := CloseIndex(s.lexemes);
    if k == |s.lexemes| then Parts(s.lexemes, s.tail, [], "")
    else Parts(s.lexemes[..k], s.lexemes[k].lead, [Bare(s.lexemes[k])] + s.lexemes[k + 1..], s.tail)
  }

  const OPEN := Lexeme("", Plain, "(")
  const COMMA := Lexeme("", Plain, ",")
  const CLOSE := Lexeme("", Plain, ")")
  const DONE := Lexeme("", Plain, ";")

  function Definition(rules: Rules, key: Key, lead: string): seq<Lexeme>
    requires key in rules.expressions && rules.expressions[key] != []
  {
    Joined([Lexeme(lead, Identifier, "define"), OPEN, Lexeme("", Quoted, rules.quoted(key)), COMMA],
           Argument(rules, key), CLOSE, [DONE])
  }

  function Definitions(rules: Rules, keys: seq<Key>, gap: string): seq<Lexeme>
    requires RulesOk(rules) && forall key :: key in keys ==> key in rules.expressions
  {
    if keys == [] then []
    else Definition(rules, keys[0], gap + "\n") + Definitions(rules, keys[1..], "")
  }

  function Updated(rules: Rules, missing: seq<Key>, s: Source): Source
    requires RulesOk(rules) && forall key :: key in missing ==> key in rules.expressions
  {
    if missing == [] then Source(Patched(rules, s.lexemes), s.tail)
    else
      var p := PartsOf(s);
      var start := Patched(rules, p.before) + Definitions(rules, missing, p.gap);
      if p.after == [] then Source(start, "\n")
      else Source(start + [p.after[0].(lead := "\n")] + Patched(rules, p.after[1..]), p.end)
  }
}
