/** Managed defines patched in the source text: replacements at offsets, applied from the last to the first. */
module DefinePatches {
  import opened DefineCalls
  import opened Sequences
  import opened Wrappers

  datatype Patch = Patch(start: nat, length: nat, text: string)

  /** One replacement; what lies beyond the end of the text is taken to be empty. */
  function Splice(text: string, p: Patch): string {
    text[..Least(p.start, |text|)] + p.text + text[Least(p.start + p.length, |text|)..]
  }

  /** The replacements made one after another, the last first. */
  function Spliced(text: string, ps: seq<Patch>): string
    decreases |ps|
  {
    if ps == [] then text else Spliced(Splice(text, ps[|ps| - 1]), ps[..|ps| - 1])
  }

  // ---- All the replacements at once ----

  /** A text cut into what stays and what is replaced. */
  datatype Segment = Keep(text: string) | Change(cut: string, insert: string)

  function Old(segments: seq<Segment>): string {
    if segments == [] then ""
    else Before(segments[0]) + Old(segments[1..])
  }

  function New(segments: seq<Segment>): string {
    if segments == [] then ""
    else Behind(segments[0]) + New(segments[1..])
  }

  /** The changes as patches of the old text. */
  function Patches(segments: seq<Segment>, at: nat): seq<Patch> {
    if segments == [] then []
    else
      match segments[0]
      case Keep(text) => Patches(segments[1..], at + |text|)
      case Change(cut, insert) => [Patch(at, |cut|, insert)] + Patches(segments[1..], at + |cut|)
  }

  function Before(s: Segment): string {
    if s.Keep? then s.text else s.cut
  }

  function Behind(s: Segment): string {
    if s.Keep? then s.text else s.insert
  }

  lemma {:induction false} OldConcat(a: seq<Segment>, b: seq<Segment>)
    ensures Old(a + b) == Old(a) + Old(b)
  {
    if a == [] {
      assert a + b == b;
    } else {
      assert (a + b)[1..] == a[1..] + b && (a + b)[0] == a[0];
      OldConcat(a[1..], b);
      Associative(Before(a[0]), Old(a[1..]), Old(b));
      hide Before;
    }
  }

  lemma {:induction false} NewConcat(a: seq<Segment>, b: seq<Segment>)
    ensures New(a + b) == New(a) + New(b)
  {
    if a == [] {
      assert a + b == b;
    } else {
      assert (a + b)[1..] == a[1..] + b && (a + b)[0] == a[0];
      NewConcat(a[1..], b);
      Associative(Behind(a[0]), New(a[1..]), New(b));
      hide Behind;
    }
  }

  lemma {:induction false} PatchesConcat(a: seq<Segment>, b: seq<Segment>, at: nat)
    ensures Patches(a + b, at) == Patches(a, at) + Patches(b, at + |Old(a)|)
  {
    if a == [] {
      assert a + b == b;
    } else {
      assert (a + b)[1..] == a[1..] + b && (a + b)[0] == a[0];
      PatchesConcat(a[1..], b, at + |Before(a[0])|);
    }
  }

  lemma SpliceBetween(before: string, cut: string, after: string, text: string)
    ensures Splice(before + cut + after, Patch(|before|, |cut|, text)) == before + text + after
  {
  }

  lemma One(s: Segment, at: nat)
    ensures Old([s]) == Before(s) && New([s]) == Behind(s)
    ensures Patches([s], at) == if s.Keep? then [] else [Patch(at, |s.cut|, s.insert)]
  {
    assert [s][1..] == [];
  }

  lemma SplicedLast(text: string, ps: seq<Patch>, p: Patch)
    ensures Spliced(text, ps + [p]) == Spliced(Splice(text, p), ps)
  {
    assert (ps + [p])[..|ps|] == ps;
  }

  lemma ChangeLast(front: string, last: Segment, tail: string, ps: seq<Patch>)
    ensures Spliced(front + Before(last) + tail, ps + if last.Keep? then [] else [Patch(|front|, |last.cut|, last.insert)]) ==
            Spliced(front + (Behind(last) + tail), ps)
  {
    Associative(front, Behind(last), tail);
    if last.Change? {
      SpliceBetween(front, last.cut, tail, last.insert);
      SplicedLast(front + last.cut + tail, ps, Patch(|front|, |last.cut|, last.insert));
      hide Splice, Spliced;
    } else {
      assert ps + [] == ps;
    }
  }

  /** Replacing from the last patch to the first replaces each change in its place, and nothing else. */
  lemma {:induction false} SplicedAll(segments: seq<Segment>, tail: string)
    ensures Spliced(Old(segments) + tail, Patches(segments, 0)) == New(segments) + tail
    decreases |segments|
  {
    if segments != [] {
      var front, last := segments[..|segments| - 1], segments[|segments| - 1];
      assert segments == front + [last];
      OldConcat(front, [last]);
      NewConcat(front, [last]);
      PatchesConcat(front, [last], 0);
      One(last, |Old(front)|);
      SplicedAll(front, Behind(last) + tail);
      Associative(New(front), Behind(last), tail);
      ChangeLast(Old(front), last, tail, Patches(front, 0));
      hide *;
    }
  }
}
