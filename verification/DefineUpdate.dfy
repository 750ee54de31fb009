/** The update of the managed defines: the scan of the whole source, its patches, and what the patched source holds. */
module DefineUpdate {
  import opened DefineCalls
  import opened DefinePatches
  import opened Sequences
  import opened Wrappers

  datatype Refusal = Duplicate(key: Key) | Unparsable(key: Key) | Missing(key: Key)

  datatype Findings = Findings(patches: seq<Patch>, found: set<Key>)

  function PatchFor(rules: Rules, ls: seq<Lexeme>, at: nat): Patch
    requires CallAt(rules, ls).Some?
  {
    var call := CallAt(rules, ls).value;
    Patch(at + |Text(ls[..4])|, |Text(ls[4..call.stop])| + |ls[call.stop].lead|, " " + Text(rules.expressions[call.key]))
  }

  /** Every token is looked at, also within the arguments found before. */
  function Scan(rules: Rules, ls: seq<Lexeme>, at: nat, found: set<Key>): Result<Findings, Refusal> {
    if ls == [] then Ok(Findings([], found))
    else
      var next := at + |Whole(ls[0])|;
      if !Managed(rules, ls) then Scan(rules, ls[1..], next, found)
      else if KeyOf(rules, ls) in found then Err(Duplicate(KeyOf(rules, ls)))
      else if CallAt(rules, ls).None? then Err(Unparsable(KeyOf(rules, ls)))
      else Ahead([PatchFor(rules, ls, at)], Scan(rules, ls[1..], next, found + {KeyOf(rules, ls)}))
  }

  function Ahead(ps: seq<Patch>, r: Result<Findings, Refusal>): Result<Findings, Refusal> {
    match r
    case Err(why) => Err(why)
    case Ok(f) => Ok(f.(patches := ps + f.patches))
  }

  /** The key of the managed define at a token, if there is one. */
  function KeyAt(rules: Rules, ls: seq<Lexeme>, i: nat): Option<Key> {
    if i < |ls| && Managed(rules, ls[i..]) then Some(KeyOf(rules, ls[i..])) else None
  }

  predicate EndsAt(rules: Rules, ls: seq<Lexeme>, i: nat) {
    i < |ls| && CallAt(rules, ls[i..]).Some?
  }

  /** Every managed define has an end, a key not found before, and no other define of that key beside it. */
  predicate AllSound(rules: Rules, ls: seq<Lexeme>, found: set<Key>) {
    && (forall i :: 0 <= i < |ls| && KeyAt(rules, ls, i).Some? ==> EndsAt(rules, ls, i) && KeyAt(rules, ls, i).value !in found)
    && (forall i, j :: 0 <= i < j < |ls| && KeyAt(rules, ls, i).Some? ==> KeyAt(rules, ls, i) != KeyAt(rules, ls, j))
  }

  lemma AtStart(rules: Rules, ls: seq<Lexeme>)
    requires ls != []
    ensures KeyAt(rules, ls, 0) == if Managed(rules, ls) then Some(KeyOf(rules, ls)) else None
    ensures EndsAt(rules, ls, 0) == CallAt(rules, ls).Some?
  {
    assert ls[0..] == ls;
  }

  lemma AtNext(rules: Rules, ls: seq<Lexeme>, i: nat)
    requires ls != []
    ensures KeyAt(rules, ls, i + 1) == KeyAt(rules, ls[1..], i) && EndsAt(rules, ls, i + 1) == EndsAt(rules, ls[1..], i)
  {
    if i + 1 < |ls| {
      assert ls[i + 1..] == ls[1..][i..];
    }
  }

  lemma SoundNext(rules: Rules, ls: seq<Lexeme>, found: set<Key>)
    requires ls != []
    ensures var key := KeyAt(rules, ls, 0);
            AllSound(rules, ls, found) <==>
            if key.None? then AllSound(rules, ls[1..], found)
            else EndsAt(rules, ls, 0) && key.value !in found && AllSound(rules, ls[1..], found + {key.value})
  {
    var rest, key := ls[1..], KeyAt(rules, ls, 0);
    forall i: nat
      ensures KeyAt(rules, ls, i + 1) == KeyAt(rules, rest, i) && EndsAt(rules, ls, i + 1) == EndsAt(rules, rest, i)
    {
      AtNext(rules, ls, i);
    }
    hide KeyAt, EndsAt;
    var after := if key.None? then found else found + {key.value};
    if AllSound(rules, ls, found) {
      forall i | 0 <= i < |rest| && KeyAt(rules, rest, i).Some?
        ensures EndsAt(rules, rest, i) && KeyAt(rules, rest, i).value !in after
      {
        assert KeyAt(rules, ls, i + 1) == KeyAt(rules, rest, i);
      }
      forall i, j | 0 <= i < j < |rest| && KeyAt(rules, rest, i).Some?
        ensures KeyAt(rules, rest, i) != KeyAt(rules, rest, j)
      {
        assert KeyAt(rules, ls, i + 1) == KeyAt(rules, rest, i) && KeyAt(rules, ls, j + 1) == KeyAt(rules, rest, j);
      }
    }
    if AllSound(rules, rest, after) && (key.Some? ==> EndsAt(rules, ls, 0) && key.value !in found) {
      forall i | 0 <= i < |ls| && KeyAt(rules, ls, i).Some?
        ensures EndsAt(rules, ls, i) && KeyAt(rules, ls, i).value !in found
      {
        if i > 0 {
          assert KeyAt(rules, ls, i) == KeyAt(rules, rest, i - 1);
        }
      }
      forall i, j | 0 <= i < j < |ls| && KeyAt(rules, ls, i).Some?
        ensures KeyAt(rules, ls, i) != KeyAt(rules, ls, j)
      {
        assert KeyAt(rules, ls, j) == KeyAt(rules, rest, j - 1);
        if i > 0 {
          assert KeyAt(rules, ls, i) == KeyAt(rules, rest, i - 1);
        }
      }
    }
  }

  lemma ScanOkNext(rules: Rules, ls: seq<Lexeme>, at: nat, found: set<Key>)
    requires ls != []
    ensures var rest, next := ls[1..], at + |Whole(ls[0])|;
            Scan(rules, ls, at, found).Ok? <==>
            if !Managed(rules, ls) then Scan(rules, rest, next, found).Ok?
            else KeyOf(rules, ls) !in found && CallAt(rules, ls).Some? && Scan(rules, rest, next, found + {KeyOf(rules, ls)}).Ok?
  {
    hide Managed, KeyOf, CallAt, PatchFor, Whole;
  }

  lemma NothingToScan(rules: Rules, at: nat, found: set<Key>)
    ensures Scan(rules, [], at, found).Ok? && AllSound(rules, [], found)
  {
  }

  /** The scan succeeds exactly when every managed define has an end and no key is defined twice. */
  lemma {:induction false} ScanSucceeds(rules: Rules, ls: seq<Lexeme>, at: nat, found: set<Key>)
    ensures Scan(rules, ls, at, found).Ok? <==> AllSound(rules, ls, found)
  {
    hide *;
    if ls == [] {
      NothingToScan(rules, at, found);
    } else {
      ScanSucceeds(rules, ls[1..], at + |Whole(ls[0])|, if Managed(rules, ls) then found + {KeyOf(rules, ls)} else found);
      ScanOkNext(rules, ls, at, found);
      SoundNext(rules, ls, found);
      AtStart(rules, ls);
    }
  }

  // ---- The scan of a source whose managed defines are separate ----

  lemma ScanSkipsOne(rules: Rules, ls: seq<Lexeme>, n: nat, at: nat, found: set<Key>)
    requires 0 < n <= |ls| && !Managed(rules, ls)
    ensures Scan(rules, ls, at, found) == Scan(rules, ls[1..], at + |Whole(ls[0])|, found)
    ensures |Text(ls[..n])| == |Whole(ls[0])| + |Text(ls[1..][..n - 1])|
  {
    assert ls[..n][1..] == ls[1..][..n - 1];
    hide Managed, Whole;
  }

  lemma {:induction false} ScanSkips(rules: Rules, ls: seq<Lexeme>, n: nat, at: nat, found: set<Key>)
    requires n <= |ls| && forall i :: 0 <= i < n ==> !Managed(rules, ls[i..])
    ensures Scan(rules, ls, at, found) == Scan(rules, ls[n..], at + |Text(ls[..n])|, found)
    decreases n
  {
    if n == 0 {
      assert ls[0..] == ls && ls[..0] == [];
    } else {
      hide *;
      assert ls[0..] == ls;
      forall i | 0 <= i < n - 1
        ensures ls[1..][i..] == ls[i + 1..]
      {
      }
      ScanSkipsOne(rules, ls, n, at, found);
      ScanSkips(rules, ls[1..], n - 1, at + |Whole(ls[0])|, found);
      assert ls[1..][n - 1..] == ls[n..];
    }
  }

  function Segments(rules: Rules, ls: seq<Lexeme>): seq<Segment>
    decreases |ls|
  {
    if ls == [] then []
    else
      match CallAt(rules, ls)
      case None => [Keep(Whole(ls[0]))] + Segments(rules, ls[1..])
      case Some(call) => CallSegments(rules, ls) + Segments(rules, ls[call.stop + 1..])
  }

  lemma TextOne(l: Lexeme)
    ensures Text([l]) == l.lead + l.text
  {
    assert [l][1..] == [];
  }

  lemma CallPieces(ls: seq<Lexeme>, n: nat)
    requires 4 <= n < |ls|
    ensures ls[..n + 1] + ls[n + 1..] == ls
    ensures ls[..n] + [ls[n]] == ls[..n + 1]
    ensures ls[..4] + ls[4..n] == ls[..n]
  {
  }

  lemma CallText(ls: seq<Lexeme>, n: nat)
    requires 4 <= n < |ls|
    ensures Text(ls[..n + 1]) == Text(ls[..4]) + (Text(ls[4..n]) + ls[n].lead) + ls[n].text
    ensures Text(ls) == Text(ls[..n + 1]) + Text(ls[n + 1..])
  {
    hide Text, Whole;
    CallPieces(ls, n);
    TextConcat(ls[..n + 1], ls[n + 1..]);
    TextConcat(ls[..4], ls[4..n]);
    TextConcat(ls[..n], [ls[n]]);
    TextOne(ls[n]);
    Associative(Text(ls[..4]) + Text(ls[4..n]), ls[n].lead, ls[n].text);
    Associative(Text(ls[..4]), Text(ls[4..n]), ls[n].lead);
  }

  lemma OneMore(a: Segment, rest: seq<Segment>, at: nat)
    ensures Old([a] + rest) == Before(a) + Old(rest) && New([a] + rest) == Behind(a) + New(rest)
    ensures Patches([a] + rest, at) ==
            (if a.Keep? then [] else [Patch(at, |a.cut|, a.insert)]) + Patches(rest, at + |Before(a)|)
  {
    assert ([a] + rest)[1..] == rest;
  }

  /** A call's segments before those of what follows it. */
  lemma ThreeOld(a: Segment, b: Segment, c: Segment, rest: seq<Segment>)
    requires a.Keep? && b.Change? && c.Keep?
    ensures Old([a, b, c] + rest) == a.text + b.cut + c.text + Old(rest)
  {
    hide Old, New, Patches;
    ThreeAre(a, b, c, rest);
    OneMore(a, [b, c] + rest, 0);
    OneMore(b, [c] + rest, 0);
    OneMore(c, rest, 0);
    FourTexts(a.text, b.cut, c.text, Old(rest));
  }

  lemma ThreeNew(a: Segment, b: Segment, c: Segment, rest: seq<Segment>)
    requires a.Keep? && b.Change? && c.Keep?
    ensures New([a, b, c] + rest) == a.text + b.insert + c.text + New(rest)
  {
    hide Old, New, Patches;
    ThreeAre(a, b, c, rest);
    OneMore(a, [b, c] + rest, 0);
    OneMore(b, [c] + rest, 0);
    OneMore(c, rest, 0);
    FourTexts(a.text, b.insert, c.text, New(rest));
  }

  lemma ThreePatches(a: Segment, b: Segment, c: Segment, rest: seq<Segment>, at: nat)
    requires a.Keep? && b.Change? && c.Keep?
    ensures Patches([a, b, c] + rest, at) ==
            [Patch(at + |a.text|, |b.cut|, b.insert)] + Patches(rest, at + |a.text| + |b.cut| + |c.text|)
  {
    hide Old, New, Patches;
    ThreeAre(a, b, c, rest);
    OneMore(a, [b, c] + rest, at);
    OneMore(b, [c] + rest, at + |a.text|);
    OneMore(c, rest, at + |a.text| + |b.cut|);
  }

  lemma ThreeAre(a: Segment, b: Segment, c: Segment, rest: seq<Segment>)
    ensures [a, b, c] + rest == [a] + ([b, c] + rest) && [b, c] + rest == [b] + ([c] + rest)
  {
  }

  lemma FourTexts(a: string, b: string, c: string, d: string)
    ensures a + (b + (c + d)) == a + b + c + d
  {
  }

  /** A call's three segments: up to its first comma, its argument, the token that stops it. */
  function CallSegments(rules: Rules, ls: seq<Lexeme>): seq<Segment>
    requires CallAt(rules, ls).Some?
  {
    var call := CallAt(rules, ls).value;
    [Keep(Text(ls[..4])), Change(Text(ls[4..call.stop]) + ls[call.stop].lead, " " + Text(rules.expressions[call.key])),
     Keep(ls[call.stop].text)]
  }

  lemma CallOld(rules: Rules, ls: seq<Lexeme>, rest: seq<Segment>)
    requires CallAt(rules, ls).Some?
    ensures Old(CallSegments(rules, ls) + rest) == Text(ls[..CallAt(rules, ls).value.stop + 1]) + Old(rest)
  {
    var stop, segments := CallAt(rules, ls).value.stop, CallSegments(rules, ls);
    CallText(ls, stop);
    ThreeOld(segments[0], segments[1], segments[2], rest);
    hide Text, CallAt, Old;
  }

  lemma CallNew(rules: Rules, ls: seq<Lexeme>, rest: seq<Segment>)
    requires CallAt(rules, ls).Some?
    ensures var call := CallAt(rules, ls).value;
            New(CallSegments(rules, ls) + rest) ==
            Text(ls[..4]) + (" " + Text(rules.expressions[call.key])) + ls[call.stop].text + New(rest)
  {
    var segments := CallSegments(rules, ls);
    ThreeNew(segments[0], segments[1], segments[2], rest);
    hide Text, CallAt, New;
  }

  lemma CallPatches(rules: Rules, ls: seq<Lexeme>, rest: seq<Segment>, at: nat)
    requires CallAt(rules, ls).Some?
    ensures Patches(CallSegments(rules, ls) + rest, at) ==
            [PatchFor(rules, ls, at)] + Patches(rest, at + |Text(ls[..CallAt(rules, ls).value.stop + 1])|)
  {
    var stop, segments := CallAt(rules, ls).value.stop, CallSegments(rules, ls);
    CallText(ls, stop);
    ThreePatches(segments[0], segments[1], segments[2], rest, at);
    hide Text, CallAt, Patches;
  }

  lemma SegmentsAhead(rules: Rules, ls: seq<Lexeme>)
    requires ls != [] && CallAt(rules, ls).None?
    ensures Segments(rules, ls) == [Keep(Whole(ls[0]))] + Segments(rules, ls[1..])
    ensures Text(ls) == Whole(ls[0]) + Text(ls[1..])
    ensures Before(Keep(Whole(ls[0]))) == Behind(Keep(Whole(ls[0]))) == Whole(ls[0])
  {
    hide CallAt, Whole;
  }

  lemma SegmentsOfCall(rules: Rules, ls: seq<Lexeme>)
    requires CallAt(rules, ls).Some?
    ensures 4 <= CallAt(rules, ls).value.stop < |ls|
    ensures Segments(rules, ls) == CallSegments(rules, ls) + Segments(rules, ls[CallAt(rules, ls).value.stop + 1..])
  {
    hide CallSegments, Stop;
  }

  lemma NoSegments(rules: Rules, at: nat)
    ensures Segments(rules, []) == [] && Old([]) == New([]) == Text([]) == "" && Patches([], at) == []
  {
  }

  /** A source's segments before patching are its text. */
  lemma {:induction false} OldIsText(rules: Rules, ls: seq<Lexeme>)
    ensures Old(Segments(rules, ls)) == Text(ls)
    decreases |ls|
  {
    hide *;
    if ls == [] {
      NoSegments(rules, 0);
    } else if CallAt(rules, ls).None? {
      OldIsText(rules, ls[1..]);
      SegmentsAhead(rules, ls);
      OneMore(Keep(Whole(ls[0])), Segments(rules, ls[1..]), 0);
    } else {
      SegmentsOfCall(rules, ls);
      var stop := CallAt(rules, ls).value.stop;
      OldIsText(rules, ls[stop + 1..]);
      CallText(ls, stop);
      CallOld(rules, ls, Segments(rules, ls[stop + 1..]));
    }
  }

  lemma JoinedText(head: seq<Lexeme>, value: seq<Lexeme>, stop: Lexeme, rest: seq<Lexeme>)
    ensures Text(Joined(head, value, stop, rest)) == Text(head) + Text(value) + (stop.lead + stop.text) + Text(rest)
  {
    TextConcat(head + value + [stop], rest);
    TextConcat(head + value, [stop]);
    TextConcat(head, value);
    TextOne(stop);
    hide Text;
  }

  /** The segments after patching are the text of the patched source. */
  lemma {:induction false} NewIsPatched(rules: Rules, ls: seq<Lexeme>)
    requires RulesOk(rules)
    ensures New(Segments(rules, ls)) == Text(Patched(rules, ls))
    decreases |ls|
  {
    hide *;
    if ls == [] {
      NoSegments(rules, 0);
      PatchedNone(rules, {});
    } else if CallAt(rules, ls).None? {
      NewIsPatched(rules, ls[1..]);
      SegmentsAhead(rules, ls);
      OneMore(Keep(Whole(ls[0])), Segments(rules, ls[1..]), 0);
      PatchedAhead(rules, ls);
      TextAhead(ls[0], Patched(rules, ls[1..]));
    } else {
      SegmentsOfCall(rules, ls);
      PatchedOfCall(rules, ls);
      var call := CallAt(rules, ls).value;
      var rest := ls[call.stop + 1..];
      NewIsPatched(rules, rest);
      CallNew(rules, ls, Segments(rules, rest));
      ExpressionGiven(rules, call.key);
      ArgumentText(rules, call.key);
      JoinedText(ls[..4], Argument(rules, call.key), Bare(ls[call.stop]), Patched(rules, rest));
      BareText(ls[call.stop]);
    }
  }

  lemma PatchedAhead(rules: Rules, ls: seq<Lexeme>)
    requires RulesOk(rules) && ls != [] && CallAt(rules, ls).None?
    ensures Patched(rules, ls) == [ls[0]] + Patched(rules, ls[1..])
  {
    hide CallAt, RulesOk;
  }

  lemma BareText(l: Lexeme)
    ensures Bare(l).lead + Bare(l).text == l.text
  {
  }

  lemma TextAhead(l: Lexeme, rest: seq<Lexeme>)
    ensures Text([l] + rest) == Whole(l) + Text(rest)
  {
    assert ([l] + rest)[1..] == rest;
  }

  lemma ExpressionGiven(rules: Rules, key: Key)
    requires RulesOk(rules) && key in rules.expressions
    ensures rules.expressions[key] != []
  {
    assert IsExpression(rules.expressions[key]);
  }

  lemma HeadIsNoDefine(rules: Rules, ls: seq<Lexeme>)
    requires CallAt(rules, ls).Some?
    ensures forall i :: 1 <= i <= 3 ==> !Managed(rules, ls[i..])
  {
  }

  lemma SeparateKey(rules: Rules, ls: seq<Lexeme>, found: set<Key>)
    requires Separate(rules, ls, found) && Managed(rules, ls)
    ensures CallAt(rules, ls).Some? && KeyOf(rules, ls) == CallAt(rules, ls).value.key && KeyOf(rules, ls) !in found
    ensures 4 <= CallAt(rules, ls).value.stop < |ls|
    ensures forall i :: 4 <= i <= CallAt(rules, ls).value.stop ==> !Managed(rules, ls[i..])
    ensures Separate(rules, ls[CallAt(rules, ls).value.stop + 1..], found + {KeyOf(rules, ls)})
  {
    assert ls != [];
    hide Managed, Stop;
  }

  /** Nothing is found between a call and what follows it. */
  lemma SkipCall(rules: Rules, ls: seq<Lexeme>, at: nat, found: set<Key>, more: set<Key>)
    requires Separate(rules, ls, found) && Managed(rules, ls)
    ensures CallAt(rules, ls).Some? && KeyOf(rules, ls) == CallAt(rules, ls).value.key && KeyOf(rules, ls) !in found
    ensures Separate(rules, ls[CallAt(rules, ls).value.stop + 1..], found + {KeyOf(rules, ls)})
    ensures var n := CallAt(rules, ls).value.stop + 1;
            Scan(rules, ls[1..], at + |Whole(ls[0])|, more) == Scan(rules, ls[n..], at + |Text(ls[..n])|, more)
  {
    hide *;
    SeparateKey(rules, ls, found);
    HeadIsNoDefine(rules, ls);
    var n := CallAt(rules, ls).value.stop + 1;
    forall i | 0 <= i < n - 1
      ensures !Managed(rules, ls[1..][i..])
    {
      assert ls[1..][i..] == ls[i + 1..];
    }
    ScanSkips(rules, ls[1..], n - 1, at + |Whole(ls[0])|, more);
    assert ls[1..][n - 1..] == ls[n..] && ls[..n] == [ls[0]] + ls[1..][..n - 1];
    TextAhead(ls[0], ls[1..][..n - 1]);
  }

  lemma ScanCall(rules: Rules, ls: seq<Lexeme>, at: nat, found: set<Key>)
    requires Separate(rules, ls, found) && Managed(rules, ls) && CallAt(rules, ls).Some?
    ensures var call := CallAt(rules, ls).value;
            var scan := Scan(rules, ls, at, found);
            var rest := Scan(rules, ls[call.stop + 1..], at + |Text(ls[..call.stop + 1])|, found + {call.key});
            rest.Ok? ==>
              scan.Ok? && scan.value.patches == [PatchFor(rules, ls, at)] + rest.value.patches && scan.value.found == rest.value.found
  {
    SkipCall(rules, ls, at, found, found + {CallAt(rules, ls).value.key});
    hide Managed, CallAt, KeyOf, Text, Whole, PatchFor, Separate;
  }

  lemma SegmentsPlain(rules: Rules, ls: seq<Lexeme>, at: nat, found: set<Key>)
    requires ls != [] && !Managed(rules, ls) && Separate(rules, ls, found)
    ensures Segments(rules, ls) == [Keep(Whole(ls[0]))] + Segments(rules, ls[1..])
    ensures Arguments(rules, ls) == Arguments(rules, ls[1..])
    ensures Scan(rules, ls, at, found) == Scan(rules, ls[1..], at + |Whole(ls[0])|, found)
    ensures Before(Keep(Whole(ls[0]))) == Whole(ls[0]) && Separate(rules, ls[1..], found)
  {
  }

  lemma SegmentsCall(rules: Rules, ls: seq<Lexeme>, found: set<Key>)
    requires Separate(rules, ls, found) && Managed(rules, ls)
    ensures CallAt(rules, ls).Some?
    ensures var call := CallAt(rules, ls).value;
            var rest := ls[call.stop + 1..];
            && Segments(rules, ls) == CallSegments(rules, ls) + Segments(rules, rest)
            && Arguments(rules, ls).Keys == Arguments(rules, rest).Keys + {call.key}
            && Separate(rules, rest, found + {call.key}) && ls != []
  {
    hide CallSegments;
  }

  predicate FindsAll(rules: Rules, ls: seq<Lexeme>, at: nat, found: set<Key>) {
    var scan := Scan(rules, ls, at, found);
    scan.Ok? && scan.value.patches == Patches(Segments(rules, ls), at) && scan.value.found == found + Arguments(rules, ls).Keys
  }

  lemma FindsPlain(rules: Rules, ls: seq<Lexeme>, at: nat, found: set<Key>)
    requires ls != [] && !Managed(rules, ls) && Separate(rules, ls, found)
    requires FindsAll(rules, ls[1..], at + |Whole(ls[0])|, found)
    ensures FindsAll(rules, ls, at, found)
  {
    SegmentsPlain(rules, ls, at, found);
    OneMore(Keep(Whole(ls[0])), Segments(rules, ls[1..]), at);
    hide Managed, Separate, Scan, Segments, Patches, Arguments, Whole;
  }

  lemma FindsCall(rules: Rules, ls: seq<Lexeme>, at: nat, found: set<Key>)
    requires Separate(rules, ls, found) && Managed(rules, ls) && CallAt(rules, ls).Some?
    requires var call := CallAt(rules, ls).value;
             FindsAll(rules, ls[call.stop + 1..], at + |Text(ls[..call.stop + 1])|, found + {call.key})
    ensures FindsAll(rules, ls, at, found)
  {
    SegmentsCall(rules, ls, found);
    ScanCall(rules, ls, at, found);
    CallPatches(rules, ls, Segments(rules, ls[CallAt(rules, ls).value.stop + 1..]), at);
    hide Managed, Separate, Scan, Segments, Patches, Arguments, CallAt, CallSegments, PatchFor, Text;
  }

  /** The scan of a source whose managed defines are separate finds the patches of its segments. */
  lemma {:induction false} ScanIs(rules: Rules, ls: seq<Lexeme>, at: nat, found: set<Key>)
    requires Separate(rules, ls, found)
    ensures FindsAll(rules, ls, at, found)
    decreases |ls|
  {
    hide *;
    if ls == [] {
      FindsNone(rules, at, found);
    } else if !Managed(rules, ls) {
      SegmentsPlain(rules, ls, at, found);
      ScanIs(rules, ls[1..], at + |Whole(ls[0])|, found);
      FindsPlain(rules, ls, at, found);
    } else {
      SegmentsCall(rules, ls, found);
      SegmentsOfCall(rules, ls);
      var call := CallAt(rules, ls).value;
      ScanIs(rules, ls[call.stop + 1..], at + |Text(ls[..call.stop + 1])|, found + {call.key});
      FindsCall(rules, ls, at, found);
    }
  }

  lemma FindsNone(rules: Rules, at: nat, found: set<Key>)
    ensures FindsAll(rules, [], at, found)
  {
    assert found + Arguments(rules, []).Keys == found;
  }

  lemma {:induction false} SegmentsConcat(rules: Rules, a: seq<Lexeme>, b: seq<Lexeme>, found: set<Key>)
    requires Separate(rules, a, found) && Detached(b)
    ensures Segments(rules, a + b) == Segments(rules, a) + Segments(rules, b)
    decreases |a|
  {
    if a == [] {
      assert a + b == b;
    } else if !Managed(rules, a) {
      assert (a + b)[1..] == a[1..] + b;
      CallPrefix(rules, a, b);
      SegmentsConcat(rules, a[1..], b, found);
      hide Managed, Whole;
    } else {
      CallConcat(rules, a, b);
      SegmentsCall(rules, a, found);
      var call := CallAt(rules, a).value;
      SegmentsConcat(rules, a[call.stop + 1..], b, found + {call.key});
      assert CallSegments(rules, a + b) == CallSegments(rules, a);
      hide Managed, CallAt, Separate, CallSegments;
    }
  }

  lemma PatchBounds(rules: Rules, ls: seq<Lexeme>, at: nat)
    requires CallAt(rules, ls).Some?
    ensures var n := CallAt(rules, ls).value.stop + 1;
            at <= PatchFor(rules, ls, at).start < at + |Text(ls[..n])| && |Text(ls)| == |Text(ls[..n])| + |Text(ls[n..])|
  {
    CallText(ls, CallAt(rules, ls).value.stop);
    StopIs(ls[4..], 0);
    hide Text, Stop;
  }

  predicate Within(patches: seq<Patch>, low: nat, high: nat) {
    forall p :: p in patches ==> low <= p.start < high
  }

  lemma WithinMore(a: seq<Patch>, b: seq<Patch>, low: nat, mid: nat, high: nat)
    requires Within(a, low, mid) && Within(b, mid, high) && low <= mid <= high
    ensures Within(a + b, low, high)
  {
  }

  lemma {:induction false} PatchesBetween(rules: Rules, ls: seq<Lexeme>, at: nat)
    ensures Within(Patches(Segments(rules, ls), at), at, at + |Text(ls)|)
    decreases |ls|
  {
    hide *;
    if ls == [] {
      NoSegments(rules, at);
      WithinNone(at, at);
    } else if CallAt(rules, ls).None? {
      var next := at + |Whole(ls[0])|;
      PatchesBetween(rules, ls[1..], next);
      SegmentsAhead(rules, ls);
      OneMore(Keep(Whole(ls[0])), Segments(rules, ls[1..]), at);
      WithinNone(at, next);
      WithinMore([], Patches(Segments(rules, ls[1..]), next), at, next, next + |Text(ls[1..])|);
      assert [] + Patches(Segments(rules, ls[1..]), next) == Patches(Segments(rules, ls[1..]), next);
    } else {
      SegmentsOfCall(rules, ls);
      var n := CallAt(rules, ls).value.stop + 1;
      var next := at + |Text(ls[..n])|;
      PatchBounds(rules, ls, at);
      PatchesBetween(rules, ls[n..], next);
      CallPatches(rules, ls, Segments(rules, ls[n..]), at);
      WithinOne(PatchFor(rules, ls, at), at, next);
      WithinMore([PatchFor(rules, ls, at)], Patches(Segments(rules, ls[n..]), next), at, next, next + |Text(ls[n..])|);
    }
  }

  lemma WithinOne(patch: Patch, low: nat, high: nat)
    requires low <= patch.start < high
    ensures Within([patch], low, high)
  {
  }

  /** Every patch starts within the text it is of. */
  lemma PatchesWithin(rules: Rules, ls: seq<Lexeme>, at: nat)
    ensures forall p :: p in Patches(Segments(rules, ls), at) ==> at <= p.start < at + |Text(ls)|
  {
    PatchesBetween(rules, ls, at);
    hide Patches, Segments, Text;
  }

  lemma WithinNone(low: nat, high: nat)
    ensures Within([], low, high)
  {
  }
}
