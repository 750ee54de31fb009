/** What the update of the managed defines leaves: every define with its expression, everything else as it was. */
module DefineResult {
  import opened DefineCalls
  import opened DefineFile
  import opened DefinePatches
  import opened DefineUpdate
  import opened Sequences
  import opened Wrappers

  // ---- The text of the updated file ----

  lemma CutText(a: seq<Lexeme>, l: Lexeme, b: seq<Lexeme>, tail: string)
    ensures Text(a + ([l] + b)) + tail == Text(a) + l.lead + Text([Bare(l)] + b) + tail
  {
    hide Text;
    TextConcat(a, [l] + b);
    TextAhead(l, b);
    TextAhead(Bare(l), b);
    Around(Text(a), l.lead, l.text, Text(b), tail);
  }

  lemma PartsText(s: Source)
    ensures var p := PartsOf(s);
            SourceText(s) == Text(p.before) + p.gap + Text(p.after) + p.end && AppendAt(s) == |Text(p.before)| + |p.gap|
  {
    var ls, k := s.lexemes, CloseIndex(s.lexemes);
    if k < |ls| {
      CutText(ls[..k], ls[k], ls[k + 1..], s.tail);
      hide Text, CloseIndex;
      assert ls == ls[..k] + ([ls[k]] + ls[k + 1..]);
    } else {
      Around(Text(ls), s.tail, "", "", "");
    }
  }

  lemma Around(a: string, b: string, c: string, d: string, e: string)
    ensures a + (b + c + d) + e == a + b + ("" + c + d) + e
    ensures e == "" && c == "" && d == "" ==> a + b == a + b + d + e
  {
  }

  lemma StatementText(lead: string, a: string, b: string, c: string, d: string, e: string, f: string, g: string)
    ensures lead + a + ("" + b + ("" + c + ("" + d))) + e + ("" + f) + ("" + g) == lead + (a + b + c + d + e + f + g)
  {
  }

  lemma HeadText(a: Lexeme, b: Lexeme, c: Lexeme, d: Lexeme)
    ensures Text([a, b, c, d]) == a.lead + a.text + (b.lead + b.text + (c.lead + c.text + (d.lead + d.text)))
  {
    assert [a, b, c, d] == [a] + ([b] + ([c] + [d]));
    TextAhead(a, [b] + ([c] + [d]));
    TextAhead(b, [c] + [d]);
    TextAhead(c, [d]);
    TextOne(d);
    hide Text;
  }

  lemma DefinitionText(rules: Rules, key: Key, lead: string)
    requires key in rules.expressions && rules.expressions[key] != []
    ensures Text(Definition(rules, key, lead)) == lead + Statement(rules, key)
  {
    var name, quoted := Lexeme(lead, Identifier, "define"), Lexeme("", Quoted, rules.quoted(key));
    JoinedText([name, OPEN, quoted, COMMA], Argument(rules, key), CLOSE, [DONE]);
    ArgumentText(rules, key);
    HeadText(name, OPEN, quoted, COMMA);
    TextOne(DONE);
    hide Text, Argument, Joined;
    StatementText(lead, "define", "(", rules.quoted(key), ",", " " + Text(rules.expressions[key]), ")", ";");
  }

  lemma {:induction false} DefinitionsText(rules: Rules, keys: seq<Key>, gap: string)
    requires RulesOk(rules) && (forall key :: key in keys ==> key in rules.expressions) && keys != []
    ensures Text(Definitions(rules, keys, gap)) == gap + Addition(rules, keys)
    decreases |keys|
  {
    var key, rest := keys[0], keys[1..];
    ExpressionGiven(rules, key);
    DefinitionText(rules, key, gap + "\n");
    TextConcat(Definition(rules, key, gap + "\n"), Definitions(rules, rest, ""));
    if rest != [] {
      DefinitionsText(rules, rest, "");
    }
    assert Text(Definitions(rules, rest, "")) == Addition(rules, rest);
    LineText(gap, "\n", Statement(rules, key), Addition(rules, rest));
    hide Text, Definition, RulesOk, Statement;
  }

  lemma LineText(a: string, b: string, c: string, d: string)
    ensures a + b + c + d == a + (b + c + d)
  {
  }

  // ---- The patches of a file ----

  lemma {:induction false} InsertedBetween(ps: seq<Patch>, p: Patch, qs: seq<Patch>)
    requires forall q :: q in ps ==> q.start < p.start
    requires forall q :: q in qs ==> p.start <= q.start
    ensures Inserted(ps + qs, p) == ps + [p] + qs
  {
    if ps == [] {
      assert ps + qs == qs;
    } else {
      assert (ps + qs)[1..] == ps[1..] + qs;
      InsertedBetween(ps[1..], p, qs);
    }
  }

  /** A file the update can handle: the managed keys are those listed, and their defines are separate. */
  ghost predicate FileOk(rules: Rules, order: seq<Key>, s: Source) {
    && RulesOk(rules) && (forall key :: key in order <==> key in rules.expressions)
    && Separate(rules, s.lexemes, {})
    && forall l :: l in s.lexemes && l.kind.CloseTag? ==> l.text != "(" && l.text != ","
  }

  function MissingOf(rules: Rules, order: seq<Key>, s: Source): seq<Key> {
    Unfound(order, Arguments(rules, s.lexemes).Keys)
  }

  /** The tokens from the cut on, as they are in the file. */
  function Rest(p: Parts): seq<Lexeme> {
    if p.after == [] then [] else [p.after[0].(lead := p.gap)] + p.after[1..]
  }

  lemma PartsAre(s: Source)
    requires forall l :: l in s.lexemes && l.kind.CloseTag? ==> l.text != "(" && l.text != ","
    ensures var p := PartsOf(s);
            && s.lexemes == p.before + Rest(p) && Detached(Rest(p))
            && (p.after != [] ==> p.after[0].kind.CloseTag? && p.after[0].lead == "" && Detached(p.after))
            && (p.after == [] ==> p.before == s.lexemes && p.gap == s.tail && p.end == "")
  {
    var ls, k := s.lexemes, CloseIndex(s.lexemes);
    if k < |ls| {
      assert ls[k] in ls;
      assert ls == ls[..k] + ([ls[k]] + ls[k + 1..]);
      assert PartsOf(s).after[1..] == ls[k + 1..];
    }
  }

  /** A closing tag's white space is nothing to the defines. */
  lemma TagFirst(rules: Rules, p: Parts, found: set<Key>)
    requires p.after != [] && p.after[0].kind.CloseTag?
    ensures !Managed(rules, p.after) && !Managed(rules, Rest(p))
    ensures Separate(rules, p.after, found) == Separate(rules, Rest(p), found) == Separate(rules, p.after[1..], found)
    ensures Arguments(rules, p.after) == Arguments(rules, Rest(p)) == Arguments(rules, p.after[1..])
    ensures Segments(rules, Rest(p)) == [Keep(p.gap + p.after[0].text)] + Segments(rules, p.after[1..])
    ensures Segments(rules, p.after) == [Keep(Whole(p.after[0]))] + Segments(rules, p.after[1..])
  {
    assert Rest(p)[1..] == p.after[1..];
  }

  lemma PartsSeparate(rules: Rules, order: seq<Key>, s: Source)
    requires FileOk(rules, order, s)
    ensures var p := PartsOf(s);
            && Separate(rules, p.before, {}) && Separate(rules, p.after, Arguments(rules, p.before).Keys)
            && Arguments(rules, s.lexemes) == Arguments(rules, p.after) + Arguments(rules, p.before)
  {
    var p := PartsOf(s);
    PartsAre(s);
    hide PartsOf, RulesOk, Separate, Arguments, Segments, Detached;
    SeparateBefore(rules, p.before, Rest(p), {});
    SeparateConcat(rules, p.before, Rest(p), {});
    ArgumentsConcat(rules, p.before, Rest(p), {});
    assert {} + Arguments(rules, p.before).Keys == Arguments(rules, p.before).Keys;
    if p.after != [] {
      TagFirst(rules, p, Arguments(rules, p.before).Keys);
    }
  }

  lemma PartsSegments(rules: Rules, order: seq<Key>, s: Source)
    requires FileOk(rules, order, s)
    ensures Segments(rules, s.lexemes) == Segments(rules, PartsOf(s).before) + Segments(rules, Rest(PartsOf(s)))
    ensures var after := PartsOf(s).after; after != [] ==> after[0].kind.CloseTag? && after[0].lead == ""
  {
    var p := PartsOf(s);
    PartsAre(s);
    hide PartsOf, RulesOk, Separate, Segments, Detached;
    SeparateBefore(rules, p.before, Rest(p), {});
    SegmentsConcat(rules, p.before, Rest(p), {});
  }

  function AppendedSegments(rules: Rules, p: Parts, added: string): seq<Segment> {
    Segments(rules, p.before) + ([Keep(p.gap)] + ([Change("", added)] + Segments(rules, p.after)))
  }

  lemma BeforeKeep(text: string)
    ensures Before(Keep(text)) == text
  {
  }

  lemma PatchesAfter(rules: Rules, p: Parts, at: nat)
    requires p.after != [] ==> p.after[0].kind.CloseTag? && p.after[0].lead == ""
    ensures Patches(Segments(rules, p.after), at + |p.gap|) == Patches(Segments(rules, Rest(p)), at)
  {
    if p.after != [] {
      TagFirst(rules, p, {});
      assert |Whole(p.after[0])| == |p.after[0].text|;
      hide *;
      OneMore(Keep(p.gap + p.after[0].text), Segments(rules, p.after[1..]), at);
      OneMore(Keep(Whole(p.after[0])), Segments(rules, p.after[1..]), at + |p.gap|);
      BeforeKeep(p.gap + p.after[0].text);
      BeforeKeep(Whole(p.after[0]));
    }
  }

  lemma AddedAmong(a: seq<Segment>, gap: string, added: string, b: seq<Segment>)
    ensures var m := |Old(a)| + |gap|;
            Patches(a + ([Keep(gap)] + ([Change("", added)] + b)), 0) == Patches(a, 0) + [Patch(m, 0, added)] + Patches(b, m)
  {
    hide Old, Patches;
    var n := |Old(a)|;
    PatchesConcat(a, [Keep(gap)] + ([Change("", added)] + b), 0);
    OneMore(Keep(gap), [Change("", added)] + b, n);
    OneMore(Change("", added), b, n + |gap|);
  }

  lemma AppendAtIs(s: Source)
    ensures AppendAt(s) == |Text(PartsOf(s).before)| + |PartsOf(s).gap|
  {
    PartsText(s);
  }

  /** The patches of a file's defines: those before the cut, and those after it. */
  lemma FilePatches(rules: Rules, order: seq<Key>, s: Source)
    requires FileOk(rules, order, s)
    ensures var p := PartsOf(s);
            Patches(Segments(rules, s.lexemes), 0) ==
            Patches(Segments(rules, p.before), 0) + Patches(Segments(rules, p.after), |Text(p.before)| + |p.gap|)
  {
    hide *;
    PartsSegments(rules, order, s);
    var p := PartsOf(s);
    OldIsText(rules, p.before);
    PatchesConcat(Segments(rules, p.before), Segments(rules, Rest(p)), 0);
    PatchesAfter(rules, p, |Text(p.before)|);
  }

  lemma InsertedAmong(rules: Rules, a: seq<Lexeme>, b: seq<Lexeme>, p: Patch)
    requires |Text(a)| <= p.start
    ensures var ps, qs := Patches(Segments(rules, a), 0), Patches(Segments(rules, b), p.start);
            Inserted(ps + qs, p) == ps + [p] + qs
  {
    hide *;
    PatchesWithin(rules, a, 0);
    PatchesWithin(rules, b, p.start);
    InsertedBetween(Patches(Segments(rules, a), 0), p, Patches(Segments(rules, b), p.start));
  }

  lemma SegmentPatches(rules: Rules, p: Parts, added: string)
    ensures var m := |Text(p.before)| + |p.gap|;
            Patches(AppendedSegments(rules, p, added), 0) ==
            Patches(Segments(rules, p.before), 0) + [Patch(m, 0, added)] + Patches(Segments(rules, p.after), m)
  {
    OldIsText(rules, p.before);
    AddedAmong(Segments(rules, p.before), p.gap, added, Segments(rules, p.after));
    hide Patches, Old, Text, Segments;
  }

  /** The patches of a file with an addition: those of its defines, and the addition among them. */
  lemma AppendedPatches(rules: Rules, order: seq<Key>, s: Source, added: string)
    requires FileOk(rules, order, s)
    ensures Patches(AppendedSegments(rules, PartsOf(s), added), 0) ==
            Inserted(Patches(Segments(rules, s.lexemes), 0), Patch(AppendAt(s), 0, added))
  {
    hide *;
    var p := PartsOf(s);
    AppendAtIs(s);
    FilePatches(rules, order, s);
    SegmentPatches(rules, p, added);
    InsertedAmong(rules, p.before, p.after, Patch(AppendAt(s), 0, added));
  }

  lemma AppendedTexts(rules: Rules, p: Parts, added: string)
    requires RulesOk(rules)
    ensures var segments := AppendedSegments(rules, p, added);
            && Old(segments) == Text(p.before) + p.gap + Text(p.after)
            && New(segments) == Text(Patched(rules, p.before)) + p.gap + added + Text(Patched(rules, p.after))
  {
    var a, b := Segments(rules, p.before), Segments(rules, p.after);
    var rest := [Change("", added)] + b;
    OldIsText(rules, p.before);
    OldIsText(rules, p.after);
    NewIsPatched(rules, p.before);
    NewIsPatched(rules, p.after);
    OldConcat(a, [Keep(p.gap)] + rest);
    NewConcat(a, [Keep(p.gap)] + rest);
    OneMore(Keep(p.gap), rest, 0);
    OneMore(Change("", added), b, 0);
    hide Old, New, Patches, Segments, Text, Patched, RulesOk;
    ThreeTexts(Text(p.before), p.gap, Text(p.after));
    LineText(Text(Patched(rules, p.before)), p.gap, added, Text(Patched(rules, p.after)));
    ThreeTexts(p.gap, added, Text(Patched(rules, p.after)));
  }

  lemma ThreeTexts(a: string, b: string, c: string)
    ensures a + (b + ("" + c)) == a + b + c && a + (b + c) == a + b + c
  {
  }

  /** The text of the updated file: its text with the additions, all replacements made. */
  lemma UpdatedText(rules: Rules, missing: seq<Key>, s: Source)
    requires RulesOk(rules) && (forall key :: key in missing ==> key in rules.expressions) && missing != []
    requires forall l :: l in s.lexemes && l.kind.CloseTag? ==> l.text != "(" && l.text != ","
    ensures var p := PartsOf(s);
            SourceText(Updated(rules, missing, s)) ==
            Text(Patched(rules, p.before)) + p.gap + (Addition(rules, missing) + "\n") + Text(Patched(rules, p.after)) + p.end
  {
    var p := PartsOf(s);
    PartsAre(s);
    DefinitionsText(rules, missing, p.gap);
    var a, d := Patched(rules, p.before), Definitions(rules, missing, p.gap);
    TextConcat(a, d);
    if p.after == [] {
      hide RulesOk, Definitions, PartsOf, Detached, Addition;
      EndTexts(Text(a), p.gap, Addition(rules, missing), "\n");
    } else {
      var tag, rest := p.after[0], p.after[1..];
      PatchedTag(rules, p.after);
      TextConcat(a + d + [tag.(lead := "\n")], Patched(rules, rest));
      TextConcat(a + d, [tag.(lead := "\n")]);
      TextOne(tag.(lead := "\n"));
      TextAhead(tag, Patched(rules, rest));
      hide RulesOk, Definitions, PartsOf, Detached, Addition, Text, Patched;
      TagTexts(Text(a), p.gap, Addition(rules, missing), "\n", tag.text, Text(Patched(rules, rest)), p.end);
    }
  }

  lemma PatchedTag(rules: Rules, ls: seq<Lexeme>)
    requires RulesOk(rules) && ls != [] && ls[0].kind.CloseTag?
    ensures Patched(rules, ls) == [ls[0]] + Patched(rules, ls[1..])
  {
  }

  lemma EndTexts(a: string, b: string, c: string, d: string)
    ensures a + (b + c) + d == a + b + (c + d) + "" + ""
  {
  }

  lemma TagTexts(a: string, b: string, c: string, d: string, e: string, f: string, g: string)
    ensures a + (b + c) + (d + e) + f + g == a + b + (c + d) + ("" + e + f) + g
  {
  }

  // ---- The result ----

  lemma OutcomeFound(rules: Rules, order: seq<Key>, s: Source, requireExisting: bool)
    requires RulesOk(rules) && (forall key :: key in order ==> key in rules.expressions)
    requires Separate(rules, s.lexemes, {}) && MissingOf(rules, order, s) == []
    ensures Outcome(rules, order, s, requireExisting) == Ok(SourceText(Source(Patched(rules, s.lexemes), s.tail)))
  {
    var ls := s.lexemes;
    ScanIs(rules, ls, 0, {});
    assert {} + Arguments(rules, ls).Keys == Arguments(rules, ls).Keys;
    OldIsText(rules, ls);
    NewIsPatched(rules, ls);
    SplicedAll(Segments(rules, ls), s.tail);
    hide Old, New, Patches, Segments, Text, Patched, Separate, Scan, Arguments, Spliced, RulesOk;
  }

  /** The update of a file whose managed defines are separate: the text of the updated file, or the first define missing
      where it must exist. */
  lemma OutcomeIs(rules: Rules, order: seq<Key>, s: Source, requireExisting: bool)
    requires FileOk(rules, order, s)
    ensures var missing := MissingOf(rules, order, s);
            (forall key :: key in missing ==> key in rules.expressions) &&
            Outcome(rules, order, s, requireExisting) ==
            if missing != [] && requireExisting then Err(Missing(missing[0]))
            else Ok(SourceText(Updated(rules, missing, s)))
  {
    var missing, ls := MissingOf(rules, order, s), s.lexemes;
    UnfoundIs(order, Arguments(rules, ls).Keys);
    if missing == [] {
      OutcomeFound(rules, order, s, requireExisting);
      hide Outcome, Patched, Separate, Arguments, RulesOk, Unfound;
    } else {
      ScanIs(rules, ls, 0, {});
      assert {} + Arguments(rules, ls).Keys == Arguments(rules, ls).Keys;
      AppendedOutcome(rules, order, s, missing);
      hide Old, New, Patches, Segments, Text, Patched, Separate, Scan, Arguments, Spliced, RulesOk, Updated, Inserted, AppendAt;
    }
  }

  lemma AppendedOutcome(rules: Rules, order: seq<Key>, s: Source, missing: seq<Key>)
    requires FileOk(rules, order, s) && missing != [] && forall key :: key in missing ==> key in rules.expressions
    ensures var patches := Inserted(Patches(Segments(rules, s.lexemes), 0), Patch(AppendAt(s), 0, Addition(rules, missing) + "\n"));
            Spliced(SourceText(s), patches) == SourceText(Updated(rules, missing, s))
  {
    var added := Addition(rules, missing) + "\n";
    assert RulesOk(rules);
    AppendedPatches(rules, order, s, added);
    PartsText(s);
    UpdatedText(rules, missing, s);
    hide *;
    var p := PartsOf(s);
    AppendedTexts(rules, p, added);
    SplicedAll(AppendedSegments(rules, p, added), p.end);
  }

  function DefineHead(rules: Rules, key: Key, lead: string): seq<Lexeme> {
    [Lexeme(lead, Identifier, "define"), OPEN, Lexeme("", Quoted, rules.quoted(key)), COMMA]
  }

  lemma DefinitionCall(rules: Rules, key: Key, lead: string)
    requires RulesOk(rules) && key in rules.expressions
    ensures rules.expressions[key] != []
    ensures var d, e := Definition(rules, key, lead), Argument(rules, key);
            && CallAt(rules, d) == Some(Call(key, 4 + |e|)) && Managed(rules, d) && Detached(d)
            && d == Joined(d[..4], e, Bare(d[4 + |e|]), [DONE]) && d[4..4 + |e|] == e && d[4 + |e|] == CLOSE && d[4 + |e| + 1..] == [DONE]
  {
    ExpressionGiven(rules, key);
    var head, e := DefineHead(rules, key, lead), Argument(rules, key);
    var d := Joined(head, e, CLOSE, [DONE]);
    JoinedParts(head, e, CLOSE, [DONE]);
    ArgumentIs(rules, key);
    StopAfter(e, [CLOSE] + [DONE], 0);
    hide Joined, Argument, Holds, After, Stop;
    assert Lower("define") == "define";
    assert d[..4][0] == head[0] && d[..4][1] == head[1] && d[..4][2] == head[2] && d[..4][3] == head[3];
  }

  lemma NothingIn(rules: Rules, l: Lexeme, found: set<Key>)
    requires RulesOk(rules)
    ensures Separate(rules, [l], found) && Patched(rules, [l]) == [l] && Arguments(rules, [l]) == map[]
  {
    assert [l][1..] == [];
  }

  /** Tokens an update leaves as they are: their managed defines are separate and have these values. */
  predicate Settled(rules: Rules, ls: seq<Lexeme>, found: set<Key>, values: map<Key, seq<Lexeme>>)
    requires RulesOk(rules)
  {
    Separate(rules, ls, found) && Patched(rules, ls) == ls && Arguments(rules, ls) == values
  }

  lemma SettledConcat(rules: Rules, a: seq<Lexeme>, b: seq<Lexeme>, found: set<Key>, x: map<Key, seq<Lexeme>>, y: map<Key, seq<Lexeme>>)
    requires RulesOk(rules) && Settled(rules, a, found, x) && Settled(rules, b, found + x.Keys, y) && Detached(b)
    ensures Settled(rules, a + b, found, y + x)
  {
    hide RulesOk, Separate, Patched, Arguments, Detached;
    SeparateConcat(rules, a, b, found);
    PatchedConcat(rules, a, b, found);
    ArgumentsConcat(rules, a, b, found);
  }

  function Assigned(rules: Rules, keys: seq<Key>): map<Key, seq<Lexeme>>
    requires RulesOk(rules) && forall key :: key in keys ==> key in rules.expressions
  {
    map key | key in keys :: Argument(rules, key)
  }

  lemma DefinitionIs(rules: Rules, key: Key, lead: string, found: set<Key>)
    requires RulesOk(rules) && key in rules.expressions && key !in found
    ensures rules.expressions[key] != []
    ensures Settled(rules, Definition(rules, key, lead), found, map[key := Argument(rules, key)])
  {
    DefinitionCall(rules, key, lead);
    NothingIn(rules, DONE, found + {key});
    var d := Definition(rules, key, lead);
    hide Definition, CallAt, Argument, Managed, Separate, RulesOk, Joined;
    PatchedApart(rules, d, [DONE], found);
  }

  lemma {:induction false} UnfoundDistinct(order: seq<Key>, found: set<Key>)
    requires Distinct(order)
    ensures Distinct(Unfound(order, found))
  {
    if order != [] {
      UnfoundDistinct(order[1..], found);
      UnfoundIs(order[1..], found);
      if order[0] !in found {
        assert Unfound(order, found)[1..] == Unfound(order[1..], found);
      } else {
        assert Unfound(order, found) == Unfound(order[1..], found);
      }
    }
  }

  lemma DefinitionsStep(rules: Rules, keys: seq<Key>, gap: string)
    requires RulesOk(rules) && (forall key :: key in keys ==> key in rules.expressions) && keys != []
    ensures rules.expressions[keys[0]] != [] && forall key :: key in keys[1..] ==> key in rules.expressions
    ensures Definitions(rules, keys, gap) == Definition(rules, keys[0], gap + "\n") + Definitions(rules, keys[1..], "")
    ensures Detached(Definitions(rules, keys, gap))
  {
    ExpressionGiven(rules, keys[0]);
    hide Argument;
  }

  lemma AssignedStep(rules: Rules, keys: seq<Key>)
    requires RulesOk(rules) && (forall key :: key in keys ==> key in rules.expressions) && keys != []
    ensures keys[0] in rules.expressions && rules.expressions[keys[0]] != []
    ensures Assigned(rules, keys) == Assigned(rules, keys[1..]) + map[keys[0] := Argument(rules, keys[0])]
  {
    ExpressionGiven(rules, keys[0]);
    hide Argument;
  }

  lemma {:induction false} DefinitionsAre(rules: Rules, keys: seq<Key>, gap: string, found: set<Key>)
    requires RulesOk(rules) && (forall key :: key in keys ==> key in rules.expressions && key !in found) && Distinct(keys)
    ensures Settled(rules, Definitions(rules, keys, gap), found, Assigned(rules, keys)) && Detached(Definitions(rules, keys, gap))
    decreases |keys|
  {
    if keys == [] {
    } else {
      var key, rest := keys[0], keys[1..];
      assert key !in rest && Distinct(rest);
      hide *;
      DefinitionsStep(rules, keys, gap);
      AssignedStep(rules, keys);
      DefinitionsAre(rules, rest, "", found + {key});
      DefinitionIs(rules, key, gap + "\n", found);
      assert found + map[key := Argument(rules, key)].Keys == found + {key};
      SettledConcat(rules, Definition(rules, key, gap + "\n"), Definitions(rules, rest, ""), found,
                    map[key := Argument(rules, key)], Assigned(rules, rest));
    }
  }

  /** With more keys found elsewhere, tokens without a define of one of them are settled as before. */
  lemma {:induction false} SeparateFurther(rules: Rules, ls: seq<Lexeme>, found: set<Key>, more: set<Key>)
    requires Separate(rules, ls, found) && Arguments(rules, ls).Keys !! more
    ensures Separate(rules, ls, found + more)
    decreases |ls|
  {
    if ls == [] {
    } else if !Managed(rules, ls) {
      SeparateFurther(rules, ls[1..], found, more);
      hide Managed;
    } else {
      var call := CallAt(rules, ls).value;
      SegmentsCall(rules, ls, found);
      SeparateFurther(rules, ls[call.stop + 1..], found + {call.key}, more);
      assert found + {call.key} + more == found + more + {call.key};
      hide Managed, CallAt;
    }
  }

  ghost predicate AllAssigned(rules: Rules, values: map<Key, seq<Lexeme>>)
    requires RulesOk(rules)
  {
    forall key :: key in values ==> key in rules.expressions && values[key] == Argument(rules, key)
  }

  lemma PatchedSettled(rules: Rules, ls: seq<Lexeme>, found: set<Key>)
    requires RulesOk(rules) && Separate(rules, ls, found)
    ensures var values := Arguments(rules, Patched(rules, ls));
            Settled(rules, Patched(rules, ls), found, values) && AllAssigned(rules, values) && values.Keys == Arguments(rules, ls).Keys
  {
    hide Separate, Patched, Arguments, Argument, RulesOk;
    PatchedTwice(rules, ls, found);
    PatchedArguments(rules, ls, found);
  }

  lemma SameValues(rules: Rules, values: map<Key, seq<Lexeme>>, order: seq<Key>)
    requires RulesOk(rules) && AllAssigned(rules, values)
    requires forall key :: key in order <==> key in values
    ensures (forall key :: key in order ==> key in rules.expressions) && values == Assigned(rules, order)
  {
    hide Argument, RulesOk;
  }

  lemma AssignedAll(rules: Rules, keys: seq<Key>)
    requires RulesOk(rules) && forall key :: key in keys ==> key in rules.expressions
    ensures AllAssigned(rules, Assigned(rules, keys)) && forall key :: key in Assigned(rules, keys) <==> key in keys
  {
    hide Argument;
  }

  /** The keys found and the missing ones are those listed. */
  lemma KeysFound(rules: Rules, order: seq<Key>, s: Source)
    requires FileOk(rules, order, s)
    ensures var found, missing := Arguments(rules, s.lexemes).Keys, MissingOf(rules, order, s);
            forall key :: key in order <==> key in found || key in missing
    ensures forall key :: key in MissingOf(rules, order, s) ==> key !in Arguments(rules, s.lexemes) && key in rules.expressions
  {
    UnfoundIs(order, Arguments(rules, s.lexemes).Keys);
    PatchedSettled(rules, s.lexemes, {});
    hide Arguments, Unfound, Separate, RulesOk, Settled, Patched;
  }

  /** The tag and what follows it, as they are in the updated file. */
  lemma TagSettled(rules: Rules, p: Parts, found: set<Key>)
    requires RulesOk(rules) && p.after != [] && p.after[0].kind.CloseTag? && Detached(p.after) && Separate(rules, p.after, found)
    ensures var b := [p.after[0].(lead := "\n")] + Patched(rules, p.after[1..]);
            && Settled(rules, b, found, Arguments(rules, b)) && AllAssigned(rules, Arguments(rules, b))
            && Arguments(rules, b).Keys == Arguments(rules, p.after).Keys && Detached(b)
  {
    PatchedSettled(rules, p.after[1..], found);
    var rest := Patched(rules, p.after[1..]);
    var b := [p.after[0].(lead := "\n")] + rest;
    assert b[1..] == rest && !Managed(rules, b);
    TagFirst(rules, p, found);
    hide Argument, RulesOk, Managed;
  }

  lemma SettledFurther(rules: Rules, ls: seq<Lexeme>, found: set<Key>, more: set<Key>)
    requires RulesOk(rules) && Settled(rules, ls, found, Arguments(rules, ls)) && Arguments(rules, ls).Keys !! more
    ensures Settled(rules, ls, found + more, Arguments(rules, ls))
  {
    SeparateFurther(rules, ls, found, more);
  }

  /** The updated tokens, put together from the patched tokens before the cut, the added defines, and what follows. */
  lemma AddedSettled(rules: Rules, p: Parts, missing: seq<Key>)
    requires RulesOk(rules) && (forall key :: key in missing ==> key in rules.expressions) && Distinct(missing)
    requires Separate(rules, p.before, {}) && Separate(rules, p.after, Arguments(rules, p.before).Keys)
    requires p.after != [] ==> p.after[0].kind.CloseTag? && Detached(p.after)
    requires forall key :: key in missing ==> key !in Arguments(rules, p.before) && key !in Arguments(rules, p.after)
    ensures var start := Patched(rules, p.before) + Definitions(rules, missing, p.gap);
            var ls := if p.after == [] then start else start + ([p.after[0].(lead := "\n")] + Patched(rules, p.after[1..]));
            var values := Arguments(rules, ls);
            && Settled(rules, ls, {}, values) && AllAssigned(rules, values)
            && (forall key :: key in values <==> key in Arguments(rules, p.before) || key in missing || key in Arguments(rules, p.after))
  {
    var a, d := Patched(rules, p.before), Definitions(rules, missing, p.gap);
    var x, y := Arguments(rules, a), Assigned(rules, missing);
    hide *;
    PatchedSettled(rules, p.before, {});
    assert {} + x.Keys == Arguments(rules, p.before).Keys;
    DefinitionsAre(rules, missing, p.gap, x.Keys);
    AssignedAll(rules, missing);
    SettledConcat(rules, a, d, {}, x, y);
    SettledIs(rules, a + d, {}, y + x);
    AllBoth(rules, y, x);
    if p.after != [] {
      var b := [p.after[0].(lead := "\n")] + Patched(rules, p.after[1..]);
      var z := Arguments(rules, b);
      TagSettled(rules, p, x.Keys);
      SettledFurther(rules, b, x.Keys, y.Keys);
      assert {} + (y + x).Keys == x.Keys + y.Keys;
      SettledConcat(rules, a + d, b, {}, y + x, z);
      SettledIs(rules, a + d + b, {}, z + (y + x));
      AllBoth(rules, z, y + x);
    }
  }

  lemma SettledIs(rules: Rules, ls: seq<Lexeme>, found: set<Key>, values: map<Key, seq<Lexeme>>)
    requires RulesOk(rules) && Settled(rules, ls, found, values)
    ensures Arguments(rules, ls) == values
  {
  }

  lemma AllBoth(rules: Rules, a: map<Key, seq<Lexeme>>, b: map<Key, seq<Lexeme>>)
    requires RulesOk(rules) && AllAssigned(rules, a) && AllAssigned(rules, b)
    ensures AllAssigned(rules, a + b)
  {
    hide Argument;
  }

  /** In the updated file every managed key is defined once, with its expression, and nothing is left to update. */
  lemma UpdatedDefines(rules: Rules, order: seq<Key>, s: Source)
    requires FileOk(rules, order, s) && Distinct(order)
    ensures forall key :: key in MissingOf(rules, order, s) ==> key in rules.expressions
    ensures Settled(rules, Updated(rules, MissingOf(rules, order, s), s).lexemes, {}, Assigned(rules, order))
  {
    hide *;
    FileOkSays(rules, order, s);
    KeysFound(rules, order, s);
    var missing := MissingOf(rules, order, s);
    if missing == [] {
      UpdatedNone(rules, s);
      PatchedSettled(rules, s.lexemes, {});
      SameValues(rules, Arguments(rules, Patched(rules, s.lexemes)), order);
    } else {
      var p := PartsOf(s);
      PartsAre(s);
      UpdatedTokens(rules, missing, s);
      PartsSeparate(rules, order, s);
      MissingDistinct(rules, order, s);
      AddedSettled(rules, p, missing);
      SameValues(rules, Arguments(rules, Updated(rules, missing, s).lexemes), order);
    }
  }

  lemma FileOkSays(rules: Rules, order: seq<Key>, s: Source)
    requires FileOk(rules, order, s)
    ensures RulesOk(rules) && Separate(rules, s.lexemes, {}) && forall key :: key in order ==> key in rules.expressions
    ensures forall l :: l in s.lexemes && l.kind.CloseTag? ==> l.text != "(" && l.text != ","
  {
    hide RulesOk, Separate;
  }

  lemma UpdatedNone(rules: Rules, s: Source)
    requires RulesOk(rules)
    ensures Updated(rules, [], s).lexemes == Patched(rules, s.lexemes)
  {
    hide Patched, RulesOk;
  }

  lemma MissingDistinct(rules: Rules, order: seq<Key>, s: Source)
    requires Distinct(order)
    ensures Distinct(MissingOf(rules, order, s))
  {
    hide Unfound, Arguments, Distinct;
    UnfoundDistinct(order, Arguments(rules, s.lexemes).Keys);
  }

  lemma UpdatedTokens(rules: Rules, missing: seq<Key>, s: Source)
    requires RulesOk(rules) && (forall key :: key in missing ==> key in rules.expressions) && missing != []
    ensures var p := PartsOf(s);
            var start := Patched(rules, p.before) + Definitions(rules, missing, p.gap);
            Updated(rules, missing, s).lexemes ==
            if p.after == [] then start else start + ([p.after[0].(lead := "\n")] + Patched(rules, p.after[1..]))
  {
    hide Patched, Definitions;
  }

  lemma {:induction false} NothingMissing(order: seq<Key>, found: set<Key>)
    requires forall key :: key in order ==> key in found
    ensures Unfound(order, found) == []
  {
    if order != [] {
      NothingMissing(order[1..], found);
    }
  }

  /** A second update of the same defines changes nothing, and finds nothing missing. */
  lemma UpdateAgain(rules: Rules, order: seq<Key>, s: Source, requireExisting: bool)
    requires FileOk(rules, order, s) && Distinct(order)
    ensures forall key :: key in MissingOf(rules, order, s) ==> key in rules.expressions
    ensures var u := Updated(rules, MissingOf(rules, order, s), s);
            Outcome(rules, order, u, requireExisting) == Ok(SourceText(u))
  {
    UpdatedDefines(rules, order, s);
    var u := Updated(rules, MissingOf(rules, order, s), s);
    SettledIs(rules, u.lexemes, {}, Assigned(rules, order));
    NothingMissing(order, Arguments(rules, u.lexemes).Keys);
    OutcomeFound(rules, order, u, requireExisting);
    hide Outcome, Updated, MissingOf, RulesOk, Separate, Arguments;
  }

  /** All but the managed arguments is as it was: with nothing missing, the whole frame and the text after the last token;
      with something missing, the frame with the added defines before the closing tag or at the end. */
  lemma UpdatedFrame(rules: Rules, order: seq<Key>, s: Source)
    requires FileOk(rules, order, s) && Distinct(order)
    ensures var missing, p := MissingOf(rules, order, s), PartsOf(s);
            && (forall key :: key in missing ==> key in rules.expressions)
            && Frame(rules, s.lexemes) == Frame(rules, p.before) + Frame(rules, Rest(p))
            && var u := Updated(rules, missing, s);
               && (missing == [] ==> Frame(rules, u.lexemes) == Frame(rules, s.lexemes) && u.tail == s.tail)
               && (missing != [] ==>
                     Frame(rules, u.lexemes) ==
                     Frame(rules, p.before) + Frame(rules, Definitions(rules, missing, p.gap))
                     + (if p.after == [] then [] else [p.after[0].(lead := "\n")] + Frame(rules, p.after[1..])))
  {
    var missing, p := MissingOf(rules, order, s), PartsOf(s);
    KeysFound(rules, order, s);
    PartsAre(s);
    FrameParts(rules, order, s);
    if missing == [] {
      PatchedFrame(rules, s.lexemes, {});
      hide Frame, Patched, Separate, PartsOf, Arguments, RulesOk, Unfound;
    } else {
      UnfoundDistinct(order, Arguments(rules, s.lexemes).Keys);
      UpdatedTokens(rules, missing, s);
      hide *;
      FrameAdded(rules, order, s, missing);
    }
  }

  lemma FrameParts(rules: Rules, order: seq<Key>, s: Source)
    requires FileOk(rules, order, s)
    ensures Frame(rules, s.lexemes) == Frame(rules, PartsOf(s).before) + Frame(rules, Rest(PartsOf(s)))
  {
    PartsAre(s);
    PartsSeparate(rules, order, s);
    hide PartsOf, Frame, Separate, Detached, Rest, RulesOk;
    FrameConcat(rules, PartsOf(s).before, Rest(PartsOf(s)), {});
  }

  lemma FrameAdded(rules: Rules, order: seq<Key>, s: Source, missing: seq<Key>)
    requires FileOk(rules, order, s) && missing == MissingOf(rules, order, s) && missing != [] && Distinct(missing)
    requires forall key :: key in missing ==> key in rules.expressions
    ensures var p := PartsOf(s);
            var start := Patched(rules, p.before) + Definitions(rules, missing, p.gap);
            Frame(rules, if p.after == [] then start else start + ([p.after[0].(lead := "\n")] + Patched(rules, p.after[1..]))) ==
            Frame(rules, p.before) + Frame(rules, Definitions(rules, missing, p.gap))
            + (if p.after == [] then [] else [p.after[0].(lead := "\n")] + Frame(rules, p.after[1..]))
  {
    var p := PartsOf(s);
    var a, d, x := Patched(rules, p.before), Definitions(rules, missing, p.gap), Arguments(rules, Patched(rules, p.before));
    KeysFound(rules, order, s);
    PartsAre(s);
    PartsSeparate(rules, order, s);
    PatchedSettled(rules, p.before, {});
    DefinitionsAre(rules, missing, p.gap, x.Keys);
    PatchedFrame(rules, p.before, {});
    assert Separate(rules, a, {}) && Separate(rules, d, x.Keys);
    hide *;
    FrameConcat(rules, a, d, {});
    if p.after != [] {
      var b := [p.after[0].(lead := "\n")] + Patched(rules, p.after[1..]);
      assert {} + x.Keys == x.Keys;
      SeparateConcat(rules, a, d, {});
      TagSettled(rules, p, Arguments(rules, p.before).Keys);
      TagFrame(rules, p, Arguments(rules, p.before).Keys);
      FrameConcat(rules, a + d, b, {});
    }
  }

  lemma TagFrame(rules: Rules, p: Parts, found: set<Key>)
    requires RulesOk(rules) && p.after != [] && p.after[0].kind.CloseTag? && Separate(rules, p.after, found)
    ensures Frame(rules, [p.after[0].(lead := "\n")] + Patched(rules, p.after[1..])) ==
            [p.after[0].(lead := "\n")] + Frame(rules, p.after[1..])
  {
    var rest := Patched(rules, p.after[1..]);
    TagFirst(rules, p, found);
    PatchedFrame(rules, p.after[1..], found);
    assert ([p.after[0].(lead := "\n")] + rest)[1..] == rest;
    hide Patched, Separate, RulesOk;
  }
}
