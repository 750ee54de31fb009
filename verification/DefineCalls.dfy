/** The define() calls a PHP source manages, on its lexemes: where they are, and the source with their values replaced. */
module DefineCalls {
  import opened Wrappers

  type Key = string

  datatype Kind = Identifier | Quoted | CloseTag | Plain

  /** A token, with the white space and comments before it. */
  datatype Lexeme = Lexeme(lead: string, kind: Kind, text: string)

  function Whole(l: Lexeme): string {
    l.lead + l.text
  }

  function Text(ls: seq<Lexeme>): string {
    if ls == [] then "" else Whole(ls[0]) + Text(ls[1..])
  }

  lemma {:induction false} TextConcat(a: seq<Lexeme>, b: seq<Lexeme>)
    ensures Text(a + b) == Text(a) + Text(b)
  {
    hide Whole;
    if a == [] {
      assert a + b == b;
    } else {
      TextConcat(a[1..], b);
      assert (a + b)[1..] == a[1..] + b;
      assert Whole(a[0]) + (Text(a[1..]) + Text(b)) == Whole(a[0]) + Text(a[1..]) + Text(b);
    }
  }

  /** The expression of each managed key, and how a key is read from and written as a quoted literal. */
  datatype Rules = Rules(expressions: map<Key, seq<Lexeme>>, unquote: string -> Key, quoted: Key -> string)

  function Lower(s: string): (lower: string)
    ensures |lower| == |s|
  {
    if s == "" then ""
    else [if 'A' <= s[0] <= 'Z' then (s[0] as int + 32) as char else s[0]] + Lower(s[1..])
  }

  predicate IsDefine(l: Lexeme) {
    l.kind.Identifier? && Lower(l.text) == "define"
  }

  predicate Managed(rules: Rules, ls: seq<Lexeme>) {
    && |ls| > 3 && IsDefine(ls[0]) && ls[1].text == "(" && ls[2].kind.Quoted? && ls[3].text == ","
    && rules.unquote(ls[2].text) in rules.expressions
  }

  function KeyOf(rules: Rules, ls: seq<Lexeme>): Key
    requires Managed(rules, ls)
  {
    rules.unquote(ls[2].text)
  }

  predicate IsStop(text: string) {
    text == ")" || text == ","
  }

  function Nested(text: string, depth: int): int {
    if text == "(" || text == "[" || text == "{" then depth + 1
    else if text == ")" || text == "]" || text == "}" then depth - 1
    else depth
  }

  /** Where an argument stops: at the first comma or closing parenthesis outside brackets. */
  function Stop(ls: seq<Lexeme>, depth: int): (at: Option<nat>)
    ensures at.Some? ==> at.value < |ls|
  {
    if ls == [] then None
    else if depth == 0 && IsStop(ls[0].text) then Some(0)
    else
      match Stop(ls[1..], Nested(ls[0].text, depth))
      case None => None
      case Some(at) => Some(at + 1)
  }

  function After(ls: seq<Lexeme>, depth: int): int {
    if ls == [] then depth else After(ls[1..], Nested(ls[0].text, depth))
  }

  /** No comma and no closing parenthesis outside brackets. */
  predicate Holds(ls: seq<Lexeme>, depth: int) {
    ls == [] || (!(depth == 0 && IsStop(ls[0].text)) && Holds(ls[1..], Nested(ls[0].text, depth)))
  }

  // ---- Where an argument stops, by counting brackets ----

  /** How many tokens are one of the given texts. */
  function Count(ls: seq<Lexeme>, texts: set<string>): nat {
    if ls == [] then 0 else (if ls[0].text in texts then 1 else 0) + Count(ls[1..], texts)
  }

  function Opened(ls: seq<Lexeme>): nat {
    Count(ls, {"(", "[", "{"})
  }

  function Closed(ls: seq<Lexeme>): nat {
    Count(ls, {")", "]", "}"})
  }

  /** A comma or closing parenthesis, with as many brackets of the three kinds closed as opened between a token and it. */
  predicate Ends(ls: seq<Lexeme>, from: nat, k: nat, depth: int)
    requires from <= k < |ls|
  {
    ls[k].text in {",", ")"} && depth + Opened(ls[from..k]) == Closed(ls[from..k])
  }

  lemma CountFirst(l: Lexeme, rest: seq<Lexeme>, depth: int)
    ensures depth + Opened([l] + rest) - Closed([l] + rest) == Nested(l.text, depth) + Opened(rest) - Closed(rest)
  {
    assert ([l] + rest)[1..] == rest;
  }

  lemma EndsLater(ls: seq<Lexeme>, k: nat, depth: int)
    requires 0 < k < |ls|
    ensures Ends(ls, 0, k, depth) == Ends(ls[1..], 0, k - 1, Nested(ls[0].text, depth))
  {
    assert ls[0..k] == [ls[0]] + ls[1..][0..k - 1];
    CountFirst(ls[0], ls[1..][0..k - 1], depth);
    hide Opened, Closed, Nested;
  }

  /** An argument stops at the first comma or closing parenthesis before which the brackets are closed, and only there. */
  lemma {:induction false} StopIsFirst(ls: seq<Lexeme>, depth: int)
    ensures match Stop(ls, depth)
            case None => forall k :: 0 <= k < |ls| ==> !Ends(ls, 0, k, depth)
            case Some(at) => Ends(ls, 0, at, depth) && forall k :: 0 <= k < at ==> !Ends(ls, 0, k, depth)
  {
    if ls == [] {
    } else {
      var rest, inner := ls[1..], Nested(ls[0].text, depth);
      StopIsFirst(rest, inner);
      assert ls[0..0] == [] && Ends(ls, 0, 0, depth) == (depth == 0 && IsStop(ls[0].text));
      forall k | 0 < k < |ls|
        ensures Ends(ls, 0, k, depth) == Ends(rest, 0, k - 1, inner)
      {
        EndsLater(ls, k, depth);
      }
      hide Ends, Nested, IsStop;
    }
  }

  /** Tokens hold an argument when none of them ends it, and are closed when as many brackets are closed as opened. */
  lemma {:induction false} HoldsIs(ls: seq<Lexeme>, depth: int)
    ensures Holds(ls, depth) <==> forall k :: 0 <= k < |ls| ==> !Ends(ls, 0, k, depth)
    ensures After(ls, depth) == depth + Opened(ls) - Closed(ls)
  {
    if ls == [] {
    } else {
      var rest, inner := ls[1..], Nested(ls[0].text, depth);
      HoldsIs(rest, inner);
      assert ls == [ls[0]] + rest;
      CountFirst(ls[0], rest, depth);
      assert ls[0..0] == [] && Ends(ls, 0, 0, depth) == (depth == 0 && IsStop(ls[0].text));
      forall k | 0 < k < |ls|
        ensures Ends(ls, 0, k, depth) == Ends(rest, 0, k - 1, inner)
      {
        EndsLater(ls, k, depth);
      }
      hide Ends, Nested, IsStop, Opened, Closed;
      assert forall k :: 0 <= k < |rest| ==> Ends(ls, 0, k + 1, depth) == Ends(rest, 0, k, inner);
    }
  }

  /** The name of a define, in any mix of small and capital letters. */
  lemma DefineInAnyCase(l: Lexeme)
    ensures IsDefine(l) <==>
            && l.kind.Identifier? && |l.text| == 6
            && forall i :: 0 <= i < 6 ==> l.text[i] == "define"[i] || l.text[i] == "DEFINE"[i]
  {
    LowerAt(l.text);
    assert forall i :: 0 <= i < 6 ==> "DEFINE"[i] as int + 32 == "define"[i] as int;
  }

  lemma {:induction false} LowerAt(s: string)
    ensures forall i :: 0 <= i < |s| ==> Lower(s)[i] == if 'A' <= s[i] <= 'Z' then (s[i] as int + 32) as char else s[i]
  {
    if s != "" {
      LowerAt(s[1..]);
    }
  }

  /** An expression a define can be given: brackets closed, no comma outside them, no define() of its own. */
  predicate IsExpression(e: seq<Lexeme>) {
    && e != [] && Holds(e, 0) && After(e, 0) == 0
    && forall l :: l in e ==> !IsDefine(l) && !l.kind.CloseTag?
  }

  predicate RulesOk(rules: Rules) {
    && (forall key :: key in rules.expressions ==> IsExpression(rules.expressions[key]))
    && (forall key :: key in rules.expressions ==> rules.unquote(rules.quoted(key)) == key)
  }

  lemma {:induction false} StopAfter(e: seq<Lexeme>, rest: seq<Lexeme>, depth: int)
    requires Holds(e, depth) && After(e, depth) == 0 && rest != [] && IsStop(rest[0].text)
    ensures Stop(e + rest, depth) == Some(|e|)
  {
    if e == [] {
      assert e + rest == rest;
    } else {
      StopAfter(e[1..], rest, Nested(e[0].text, depth));
      assert (e + rest)[1..] == e[1..] + rest;
    }
  }

  /** What the argument becomes: a space and the expression. */
  function Argument(rules: Rules, key: Key): seq<Lexeme>
    requires key in rules.expressions && rules.expressions[key] != []
  {
    var e := rules.expressions[key];
    [e[0].(lead := " " + e[0].lead)] + e[1..]
  }

  lemma {:induction false} SameBrackets(a: seq<Lexeme>, b: seq<Lexeme>, depth: int)
    requires |a| == |b| && forall i :: 0 <= i < |a| ==> a[i].text == b[i].text
    ensures Holds(a, depth) == Holds(b, depth) && After(a, depth) == After(b, depth)
  {
    if a != [] {
      SameBrackets(a[1..], b[1..], Nested(a[0].text, depth));
    }
  }

  lemma ArgumentIs(rules: Rules, key: Key)
    requires RulesOk(rules) && key in rules.expressions
    ensures IsExpression(Argument(rules, key))
  {
    SameBrackets(rules.expressions[key], Argument(rules, key), 0);
    hide Holds, After;
  }

  lemma ArgumentText(rules: Rules, key: Key)
    requires key in rules.expressions && rules.expressions[key] != []
    ensures Text(Argument(rules, key)) == " " + Text(rules.expressions[key])
  {
    var e, a := rules.expressions[key], Argument(rules, key);
    assert a[1..] == e[1..];
    assert " " + e[0].lead + e[0].text + Text(e[1..]) == " " + (e[0].lead + e[0].text + Text(e[1..]));
  }

  // ---- The source with the managed arguments replaced ----

  /** A managed define: its key, and the index of the token its argument stops at. */
  datatype Call = Call(key: Key, stop: nat)

  /** The managed define a source starts with. */
  function CallAt(rules: Rules, ls: seq<Lexeme>): (call: Option<Call>)
    ensures call.Some? ==> 4 <= call.value.stop < |ls| && call.value.key in rules.expressions
  {
    if !Managed(rules, ls) then None
    else
      match Stop(ls[4..], 0)
      case None => None
      case Some(at) => Some(Call(KeyOf(rules, ls), 4 + at))
  }

  function Bare(l: Lexeme): Lexeme {
    l.(lead := "")
  }

  /** A call put together: up to its first comma, its value, the token that stops it, and what follows. */
  function Joined(head: seq<Lexeme>, value: seq<Lexeme>, stop: Lexeme, rest: seq<Lexeme>): seq<Lexeme> {
    head + value + [stop] + rest
  }

  lemma JoinedParts(head: seq<Lexeme>, value: seq<Lexeme>, stop: Lexeme, rest: seq<Lexeme>)
    ensures var whole, n := Joined(head, value, stop, rest), |head| + |value|;
            && |whole| == n + 1 + |rest| && whole[..|head|] == head && whole[|head|..n] == value && whole[n] == stop
            && whole[n + 1..] == rest && whole[|head|..] == value + ([stop] + rest)
            && (forall i :: 0 <= i < |value| ==> whole[|head| + i] == value[i])
  {
  }

  function Patched(rules: Rules, ls: seq<Lexeme>): seq<Lexeme>
    requires RulesOk(rules)
    decreases |ls|
  {
    if ls == [] then []
    else
      match CallAt(rules, ls)
      case None => [ls[0]] + Patched(rules, ls[1..])
      case Some(call) =>
        Joined(ls[..4], Argument(rules, call.key), Bare(ls[call.stop]), Patched(rules, ls[call.stop + 1..]))
  }

  /** No managed define or closing tag inside a managed argument, none without an end, none twice. */
  predicate Separate(rules: Rules, ls: seq<Lexeme>, found: set<Key>)
    decreases |ls|
  {
    ls == [] ||
    if !Managed(rules, ls) then Separate(rules, ls[1..], found)
    else
      match CallAt(rules, ls)
      case None => false
      case Some(call) =>
        && call.key !in found
        && (forall i :: 4 <= i <= call.stop ==> !Managed(rules, ls[i..]) && !ls[i].kind.CloseTag?)
        && Separate(rules, ls[call.stop + 1..], found + {call.key})
  }

  /** The managed keys of a source and the argument of each. */
  function Arguments(rules: Rules, ls: seq<Lexeme>): map<Key, seq<Lexeme>>
    decreases |ls|
  {
    if ls == [] then map[]
    else
      match CallAt(rules, ls)
      case None => Arguments(rules, ls[1..])
      case Some(call) => Arguments(rules, ls[call.stop + 1..])[call.key := ls[4..call.stop]]
  }

  /** A source without its managed arguments. */
  function Frame(rules: Rules, ls: seq<Lexeme>): seq<Lexeme>
    decreases |ls|
  {
    if ls == [] then []
    else
      match CallAt(rules, ls)
      case None => [ls[0]] + Frame(rules, ls[1..])
      case Some(call) => Joined(ls[..4], [], Bare(ls[call.stop]), Frame(rules, ls[call.stop + 1..]))
  }

  /** What a source starts with, as far as a define could reach, is not patched. */
  lemma {:induction false} SameStart(rules: Rules, ls: seq<Lexeme>, n: nat)
    requires RulesOk(rules) && n <= 4
    ensures n <= |ls| <==> n <= |Patched(rules, ls)|
    ensures n <= |ls| ==> Patched(rules, ls)[..n] == ls[..n]
    decreases n
  {
    if CallAt(rules, ls).Some? {
      var call := CallAt(rules, ls).value;
      JoinedParts(ls[..4], Argument(rules, call.key), Bare(ls[call.stop]), Patched(rules, ls[call.stop + 1..]));
    }
    if ls != [] && n > 0 && CallAt(rules, ls).None? {
      SameStart(rules, ls[1..], n - 1);
      assert n <= |ls| ==> ls[..n] == [ls[0]] + ls[1..][..n - 1];
    }
  }

  lemma SameManaged(rules: Rules, ls: seq<Lexeme>)
    requires RulesOk(rules) && ls != []
    ensures Managed(rules, [ls[0]] + Patched(rules, ls[1..])) == Managed(rules, ls)
  {
    var rest, patched := ls[1..], Patched(rules, ls[1..]);
    SameStart(rules, rest, 3);
    if |rest| >= 3 {
      assert rest[..3][0] == patched[..3][0] && rest[..3][1] == patched[..3][1] && rest[..3][2] == patched[..3][2];
    }
  }

  /** The start of a patched call is that call, with its new argument. */
  lemma PatchedCall(rules: Rules, ls: seq<Lexeme>, rest: seq<Lexeme>)
    requires RulesOk(rules) && CallAt(rules, ls).Some?
    ensures var call := CallAt(rules, ls).value;
            var e := Argument(rules, call.key);
            CallAt(rules, Joined(ls[..4], e, Bare(ls[call.stop]), rest)) == Some(Call(call.key, 4 + |e|))
  {
    var call := CallAt(rules, ls).value;
    var e := Argument(rules, call.key);
    var after := Joined(ls[..4], e, Bare(ls[call.stop]), rest);
    JoinedParts(ls[..4], e, Bare(ls[call.stop]), rest);
    StopIs(ls[4..], 0);
    ArgumentIs(rules, call.key);
    StopAfter(e, [Bare(ls[call.stop])] + rest, 0);
  }

  lemma {:induction false} StopIs(ls: seq<Lexeme>, depth: int)
    ensures Stop(ls, depth).Some? ==> IsStop(ls[Stop(ls, depth).value].text)
  {
    if ls != [] && !(depth == 0 && IsStop(ls[0].text)) {
      StopIs(ls[1..], Nested(ls[0].text, depth));
    }
  }

  /** No token of a patched argument starts another managed define, and none closes the PHP code. */
  lemma PatchedInside(rules: Rules, ls: seq<Lexeme>, rest: seq<Lexeme>, i: nat)
    requires RulesOk(rules) && CallAt(rules, ls).Some? && !ls[CallAt(rules, ls).value.stop].kind.CloseTag?
    requires 4 <= i <= 4 + |Argument(rules, CallAt(rules, ls).value.key)|
    ensures var call := CallAt(rules, ls).value;
            var after := Joined(ls[..4], Argument(rules, call.key), Bare(ls[call.stop]), rest);
            !Managed(rules, after[i..]) && !after[i].kind.CloseTag?
  {
    var call := CallAt(rules, ls).value;
    var e := Argument(rules, call.key);
    var after := Joined(ls[..4], e, Bare(ls[call.stop]), rest);
    JoinedParts(ls[..4], e, Bare(ls[call.stop]), rest);
    ArgumentIs(rules, call.key);
    StopIs(ls[4..], 0);
    if i < 4 + |e| {
      assert after[i] == e[i - 4] && e[i - 4] in e;
    } else {
      assert after[i] == Bare(ls[call.stop]);
    }
  }

  lemma PatchedApart(rules: Rules, ls: seq<Lexeme>, rest: seq<Lexeme>, found: set<Key>)
    requires RulesOk(rules) && CallAt(rules, ls).Some?
    requires var call := CallAt(rules, ls).value;
             !ls[call.stop].kind.CloseTag? && call.key !in found && Separate(rules, rest, found + {call.key})
    ensures var call := CallAt(rules, ls).value;
            Separate(rules, Joined(ls[..4], Argument(rules, call.key), Bare(ls[call.stop]), rest), found)
  {
    var call := CallAt(rules, ls).value;
    var e := Argument(rules, call.key);
    var after := Joined(ls[..4], e, Bare(ls[call.stop]), rest);
    JoinedParts(ls[..4], e, Bare(ls[call.stop]), rest);
    PatchedCall(rules, ls, rest);
    forall i | 4 <= i <= 4 + |e|
      ensures !Managed(rules, after[i..]) && !after[i].kind.CloseTag?
    {
      PatchedInside(rules, ls, rest, i);
    }
    hide Joined, Argument, Stop, KeyOf, RulesOk;
  }

  // ---- One token or one call at a time ----

  lemma SeparateSays(rules: Rules, ls: seq<Lexeme>, found: set<Key>)
    requires Separate(rules, ls, found) && ls != []
    ensures CallAt(rules, ls).Some? <==> Managed(rules, ls)
    ensures CallAt(rules, ls).None? ==> Separate(rules, ls[1..], found)
    ensures CallAt(rules, ls).Some? ==>
              var call := CallAt(rules, ls).value;
              && call.key !in found && 4 <= call.stop < |ls| && !ls[call.stop].kind.CloseTag?
              && Separate(rules, ls[call.stop + 1..], found + {call.key})
  {
    hide Managed, Stop, KeyOf;
  }

  lemma PatchedNone(rules: Rules, found: set<Key>)
    requires RulesOk(rules)
    ensures Patched(rules, []) == [] && Separate(rules, [], found) && Arguments(rules, []) == map[]
  {
    hide RulesOk;
  }

  lemma PatchedPlain(rules: Rules, l: Lexeme, rest: seq<Lexeme>, found: set<Key>)
    requires RulesOk(rules) && !Managed(rules, [l] + rest)
    ensures Patched(rules, [l] + rest) == [l] + Patched(rules, rest) && Arguments(rules, [l] + rest) == Arguments(rules, rest)
    ensures Separate(rules, [l] + rest, found) <==> Separate(rules, rest, found)
  {
    assert ([l] + rest)[1..] == rest;
    hide RulesOk, Managed, Stop, KeyOf;
  }

  lemma PatchedOfCall(rules: Rules, ls: seq<Lexeme>)
    requires RulesOk(rules) && CallAt(rules, ls).Some?
    ensures var call := CallAt(rules, ls).value;
            var rest := ls[call.stop + 1..];
            && 4 <= call.stop < |ls| && call.key in rules.expressions
            && Patched(rules, ls) == Joined(ls[..4], Argument(rules, call.key), Bare(ls[call.stop]), Patched(rules, rest))
            && Arguments(rules, ls) == Arguments(rules, rest)[call.key := ls[4..call.stop]]
  {
    hide RulesOk, Joined, Argument, Stop;
  }

  /** A call with its expression put in is patched to itself, its rest patched. */
  lemma PatchedInPlace(rules: Rules, ls: seq<Lexeme>, rest: seq<Lexeme>)
    requires RulesOk(rules) && CallAt(rules, ls).Some?
    ensures var call := CallAt(rules, ls).value;
            var e := Argument(rules, call.key);
            var after := Joined(ls[..4], e, Bare(ls[call.stop]), rest);
            && Patched(rules, after) == Joined(ls[..4], e, Bare(ls[call.stop]), Patched(rules, rest))
            && Arguments(rules, after) == Arguments(rules, rest)[call.key := e]
  {
    PatchedOfCall(rules, ls);
    BareTwice(ls[CallAt(rules, ls).value.stop]);
    hide *;
    var call := CallAt(rules, ls).value;
    var e := Argument(rules, call.key);
    var after := Joined(ls[..4], e, Bare(ls[call.stop]), rest);
    JoinedParts(ls[..4], e, Bare(ls[call.stop]), rest);
    PatchedCall(rules, ls, rest);
    PatchedOfCall(rules, after);
    assert after[4..4 + |e|] == e;
  }

  lemma BareTwice(l: Lexeme)
    ensures Bare(Bare(l)) == Bare(l)
  {
  }

  /** Patching again changes nothing. */
  lemma {:induction false} PatchedTwice(rules: Rules, ls: seq<Lexeme>, found: set<Key>)
    requires RulesOk(rules) && Separate(rules, ls, found)
    ensures Patched(rules, Patched(rules, ls)) == Patched(rules, ls) && Separate(rules, Patched(rules, ls), found)
    decreases |ls|
  {
    hide *;
    if ls == [] {
      PatchedNone(rules, found);
    } else if !Managed(rules, ls) {
      SeparateSays(rules, ls, found);
      PatchedTwice(rules, ls[1..], found);
      SameManaged(rules, ls);
      assert ls == [ls[0]] + ls[1..];
      PatchedPlain(rules, ls[0], ls[1..], found);
      PatchedPlain(rules, ls[0], Patched(rules, ls[1..]), found);
    } else {
      SeparateSays(rules, ls, found);
      PatchedOfCall(rules, ls);
      var call := CallAt(rules, ls).value;
      var rest := ls[call.stop + 1..];
      PatchedTwice(rules, rest, found + {call.key});
      PatchedApart(rules, ls, Patched(rules, rest), found);
      PatchedInPlace(rules, ls, Patched(rules, rest));
    }
  }

  /** After patching, every managed define there was has its expression. */
  lemma {:induction false} PatchedArguments(rules: Rules, ls: seq<Lexeme>, found: set<Key>)
    requires RulesOk(rules) && Separate(rules, ls, found)
    ensures var after, before := Arguments(rules, Patched(rules, ls)), Arguments(rules, ls);
            after.Keys == before.Keys
            && forall key :: key in after ==> key in rules.expressions && after[key] == Argument(rules, key)
    decreases |ls|
  {
    hide *;
    if ls == [] {
      PatchedNone(rules, found);
    } else if !Managed(rules, ls) {
      SeparateSays(rules, ls, found);
      PatchedArguments(rules, ls[1..], found);
      SameManaged(rules, ls);
      assert ls == [ls[0]] + ls[1..];
      PatchedPlain(rules, ls[0], ls[1..], found);
      PatchedPlain(rules, ls[0], Patched(rules, ls[1..]), found);
    } else {
      SeparateSays(rules, ls, found);
      PatchedOfCall(rules, ls);
      var call := CallAt(rules, ls).value;
      var rest := ls[call.stop + 1..];
      PatchedArguments(rules, rest, found + {call.key});
      PatchedInPlace(rules, ls, Patched(rules, rest));
      assert Arguments(rules, Patched(rules, ls)).Keys == Arguments(rules, Patched(rules, rest)).Keys + {call.key};
    }
  }

  /** Patching leaves all but the managed arguments as it was. */
  lemma {:induction false} PatchedFrame(rules: Rules, ls: seq<Lexeme>, found: set<Key>)
    requires RulesOk(rules) && Separate(rules, ls, found)
    ensures Frame(rules, Patched(rules, ls)) == Frame(rules, ls)
    decreases |ls|
  {
    if ls == [] {
    } else if !Managed(rules, ls) {
      PatchedFrame(rules, ls[1..], found);
      SameManaged(rules, ls);
      hide Managed;
    } else {
      var call := CallAt(rules, ls).value;
      var rest := ls[call.stop + 1..];
      PatchedFrame(rules, rest, found + {call.key});
      JoinedParts(ls[..4], Argument(rules, call.key), Bare(ls[call.stop]), Patched(rules, rest));
      PatchedCall(rules, ls, Patched(rules, rest));
      hide Joined, Argument, Managed, Stop, KeyOf, Separate, CallAt;
    }
  }

  // ---- Sources put together ----

  /** A source no define before it can reach into: it starts with no parenthesis, comma or literal. */
  predicate Detached(ls: seq<Lexeme>) {
    ls != [] ==> ls[0].text != "(" && ls[0].text != "," && !ls[0].kind.Quoted?
  }

  lemma {:induction false} StopPrefix(a: seq<Lexeme>, b: seq<Lexeme>, depth: int)
    requires Stop(a, depth).Some?
    ensures Stop(a + b, depth) == Stop(a, depth)
  {
    if !(depth == 0 && IsStop(a[0].text)) {
      StopPrefix(a[1..], b, Nested(a[0].text, depth));
      assert (a + b)[1..] == a[1..] + b;
    }
  }

  lemma CallPrefix(rules: Rules, a: seq<Lexeme>, b: seq<Lexeme>)
    requires a != [] && Detached(b)
    ensures Managed(rules, a + b) == Managed(rules, a)
    ensures CallAt(rules, a).Some? ==> CallAt(rules, a + b) == CallAt(rules, a)
  {
    if |a| > 3 {
      assert (a + b)[0] == a[0] && (a + b)[1] == a[1] && (a + b)[2] == a[2] && (a + b)[3] == a[3];
      if CallAt(rules, a).Some? {
        StopPrefix(a[4..], b, 0);
        assert (a + b)[4..] == a[4..] + b;
      }
    }
  }

  lemma CallConcat(rules: Rules, a: seq<Lexeme>, b: seq<Lexeme>)
    requires CallAt(rules, a).Some? && Detached(b)
    ensures var n := CallAt(rules, a).value.stop;
            && CallAt(rules, a + b) == CallAt(rules, a) && Managed(rules, a + b)
            && (a + b)[..4] == a[..4] && (a + b)[4..n] == a[4..n] && (a + b)[n] == a[n] && (a + b)[n + 1..] == a[n + 1..] + b
            && forall i :: 4 <= i <= n ==> Managed(rules, (a + b)[i..]) == Managed(rules, a[i..]) && (a + b)[i] == a[i]
  {
    var n := CallAt(rules, a).value.stop;
    CallPrefix(rules, a, b);
    forall i | 4 <= i <= n
      ensures Managed(rules, (a + b)[i..]) == Managed(rules, a[i..])
    {
      assert (a + b)[i..] == a[i..] + b;
      CallPrefix(rules, a[i..], b);
    }
  }

  lemma PutConcat<K, V>(a: map<K, V>, b: map<K, V>, k: K, v: V)
    ensures (a + b)[k := v] == a + b[k := v]
  {
  }

  lemma AheadConcat(l: Lexeme, a: seq<Lexeme>, b: seq<Lexeme>)
    ensures [l] + (a + b) == [l] + a + b
  {
  }

  lemma JoinedConcat(head: seq<Lexeme>, value: seq<Lexeme>, stop: Lexeme, rest: seq<Lexeme>, more: seq<Lexeme>)
    ensures Joined(head, value, stop, rest + more) == Joined(head, value, stop, rest) + more
  {
  }

  lemma {:induction false} SeparateConcat(rules: Rules, a: seq<Lexeme>, b: seq<Lexeme>, found: set<Key>)
    requires Separate(rules, a, found) && Detached(b)
    ensures Separate(rules, a + b, found) <==> Separate(rules, b, found + Arguments(rules, a).Keys)
    decreases |a|
  {
    if a == [] {
      assert a + b == b && found + Arguments(rules, a).Keys == found;
    } else if !Managed(rules, a) {
      assert (a + b)[1..] == a[1..] + b;
      CallPrefix(rules, a, b);
      SeparateConcat(rules, a[1..], b, found);
      hide Managed;
    } else {
      var call := CallAt(rules, a).value;
      var rest := a[call.stop + 1..];
      CallConcat(rules, a, b);
      SeparateConcat(rules, rest, b, found + {call.key});
      assert found + {call.key} + Arguments(rules, rest).Keys == found + Arguments(rules, a).Keys;
      hide Managed, CallAt;
    }
  }

  lemma {:induction false} PatchedConcat(rules: Rules, a: seq<Lexeme>, b: seq<Lexeme>, found: set<Key>)
    requires RulesOk(rules) && Separate(rules, a, found) && Detached(b)
    ensures Patched(rules, a + b) == Patched(rules, a) + Patched(rules, b)
    decreases |a|
  {
    if a == [] {
      assert a + b == b;
    } else if !Managed(rules, a) {
      assert (a + b)[1..] == a[1..] + b;
      CallPrefix(rules, a, b);
      PatchedConcat(rules, a[1..], b, found);
      AheadConcat(a[0], Patched(rules, a[1..]), Patched(rules, b));
      hide Managed;
    } else {
      var call := CallAt(rules, a).value;
      var rest := a[call.stop + 1..];
      CallConcat(rules, a, b);
      PatchedConcat(rules, rest, b, found + {call.key});
      JoinedConcat(a[..4], Argument(rules, call.key), Bare(a[call.stop]), Patched(rules, rest), Patched(rules, b));
      hide Managed, CallAt, Separate, Argument, Joined, Bare;
    }
  }

  lemma ArgumentsOf(rules: Rules, ls: seq<Lexeme>)
    ensures ls == [] ==> Arguments(rules, ls) == map[]
    ensures ls != [] ==>
              Arguments(rules, ls) ==
              match CallAt(rules, ls)
              case None => Arguments(rules, ls[1..])
              case Some(call) => Arguments(rules, ls[call.stop + 1..])[call.key := ls[4..call.stop]]
    ensures !Managed(rules, ls) ==> CallAt(rules, ls).None?
  {
    hide Managed, KeyOf, Stop;
  }

  lemma {:induction false} ArgumentsConcat(rules: Rules, a: seq<Lexeme>, b: seq<Lexeme>, found: set<Key>)
    requires Separate(rules, a, found) && Detached(b)
    ensures Arguments(rules, a + b) == Arguments(rules, b) + Arguments(rules, a)
    decreases |a|
  {
    hide *;
    ArgumentsOf(rules, a);
    if a == [] {
      assert a + b == b;
    } else {
      ArgumentsOf(rules, a + b);
      SeparateSays(rules, a, found);
      CallPrefix(rules, a, b);
      if CallAt(rules, a).None? {
        assert (a + b)[1..] == a[1..] + b;
        ArgumentsConcat(rules, a[1..], b, found);
      } else {
        var call := CallAt(rules, a).value;
        CallConcat(rules, a, b);
        ArgumentsConcat(rules, a[call.stop + 1..], b, found + {call.key});
        PutConcat(Arguments(rules, b), Arguments(rules, a[call.stop + 1..]), call.key, a[4..call.stop]);
      }
    }
  }

  lemma {:induction false} FrameConcat(rules: Rules, a: seq<Lexeme>, b: seq<Lexeme>, found: set<Key>)
    requires Separate(rules, a, found) && Detached(b)
    ensures Frame(rules, a + b) == Frame(rules, a) + Frame(rules, b)
    decreases |a|
  {
    hide Joined, Bare;
    if a == [] {
      assert a + b == b;
    } else if !Managed(rules, a) {
      assert (a + b)[1..] == a[1..] + b;
      CallPrefix(rules, a, b);
      FrameConcat(rules, a[1..], b, found);
      AheadConcat(a[0], Frame(rules, a[1..]), Frame(rules, b));
      hide Managed;
    } else {
      var call := CallAt(rules, a).value;
      var rest := a[call.stop + 1..];
      CallConcat(rules, a, b);
      FrameConcat(rules, rest, b, found + {call.key});
      JoinedConcat(a[..4], [], Bare(a[call.stop]), Frame(rules, rest), Frame(rules, b));
      hide Managed, CallAt, Separate;
    }
  }

  lemma {:induction false} StopWithin(a: seq<Lexeme>, b: seq<Lexeme>, depth: int)
    requires Stop(a + b, depth).Some? && Stop(a + b, depth).value < |a|
    ensures Stop(a, depth) == Stop(a + b, depth)
  {
    if !(depth == 0 && IsStop(a[0].text)) {
      assert (a + b)[1..] == a[1..] + b;
      StopWithin(a[1..], b, Nested(a[0].text, depth));
    }
  }

  /** What it takes for a source that starts with a managed define to be separate. */
  lemma SeparateCall(rules: Rules, ls: seq<Lexeme>, found: set<Key>)
    requires Managed(rules, ls) && CallAt(rules, ls).Some?
    ensures var call := CallAt(rules, ls).value;
            Separate(rules, ls, found) <==>
            && call.key !in found
            && (forall i :: 4 <= i <= call.stop ==> !Managed(rules, ls[i..]) && !ls[i].kind.CloseTag?)
            && Separate(rules, ls[call.stop + 1..], found + {call.key})
  {
    hide Managed, CallAt;
  }

  lemma CallWithin(rules: Rules, a: seq<Lexeme>, b: seq<Lexeme>, found: set<Key>)
    requires a != [] && Separate(rules, a + b, found) && Managed(rules, a + b) && Detached(b) && (b != [] ==> b[0].kind.CloseTag?)
    ensures Managed(rules, a) && CallAt(rules, a).Some? && CallAt(rules, a) == CallAt(rules, a + b)
  {
    CallPrefix(rules, a, b);
    var stop := CallAt(rules, a + b).value.stop;
    assert b != [] ==> (a + b)[|a|] == b[0];
    assert stop < |a|;
    assert (a + b)[4..] == a[4..] + b;
    StopWithin(a[4..], b, 0);
    hide Stop;
  }

  /** No managed define reaches over a closing tag. */
  lemma {:induction false} SeparateBefore(rules: Rules, a: seq<Lexeme>, b: seq<Lexeme>, found: set<Key>)
    requires Separate(rules, a + b, found) && Detached(b) && (b != [] ==> b[0].kind.CloseTag?)
    ensures Separate(rules, a, found)
    decreases |a|
  {
    if a == [] {
    } else if !Managed(rules, a + b) {
      assert (a + b)[1..] == a[1..] + b;
      CallPrefix(rules, a, b);
      SeparateBefore(rules, a[1..], b, found);
      hide Managed;
    } else {
      CallWithin(rules, a, b, found);
      CallConcat(rules, a, b);
      SeparateCall(rules, a, found);
      SeparateCall(rules, a + b, found);
      hide Managed, CallAt, Separate, Detached;
      var call := CallAt(rules, a).value;
      SeparateBefore(rules, a[call.stop + 1..], b, found + {call.key});
    }
  }
}
