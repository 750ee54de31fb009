/** A translation migration written over the legacy files of a shop, each text once. */
module TranslationApply {
  import opened LegacyFile
  import opened LegacyRoundTrip
  import opened LegacyText
  import opened PythonText
  import opened Wrappers

  // ---- A file that is read holds no mark in its keys and texts ----

  lemma {:induction false} StartsUnescaped(s: string, mark: string)
    requires BACKSLASH !in mark && QUOTE !in mark
    ensures StartsWith(Unescaped(s), mark) == StartsWith(s, mark)
    ensures StartsWith(s, mark) ==> Unescaped(s)[|mark|..] == Unescaped(s[|mark|..])
  {
    if mark != "" && s != "" && s[0] == mark[0] {
      StartsUnescaped(s[1..], mark[1..]);
      assert Unescaped(s)[1..] == Unescaped(s[1..]);
      assert StartsWith(s, mark) == StartsWith(s[1..], mark[1..]);
      assert StartsWith(Unescaped(s), mark) == StartsWith(Unescaped(s[1..]), mark[1..]);
      assert StartsWith(s, mark) ==> s[1..][|mark[1..]|..] == s[|mark|..];
    }
  }

  lemma {:induction false} CountUnescaped(s: string, mark: string)
    requires mark != "" && BACKSLASH !in mark && QUOTE !in mark
    ensures Count(Unescaped(s), mark) == Count(s, mark)
    decreases |s|
  {
    if s != "" {
      var u := Unescaped(s);
      StartsUnescaped(s, mark);
      if StartsWith(s, mark) {
        CountUnescaped(s[|mark|..], mark);
      } else if |s| > 1 && s[0] == BACKSLASH && (s[1] == BACKSLASH || s[1] == QUOTE) {
        CountUnescaped(s[2..], mark);
        assert u[1..] == Unescaped(s[2..]) && s[1..][1..] == s[2..] && s[1..][0] == s[1];
        assert !StartsWith(s[1..], mark);
      } else {
        CountUnescaped(s[1..], mark);
        assert u[1..] == Unescaped(s[1..]);
      }
    }
  }

  lemma {:induction false} CountSkip(s: string, name: string)
    requires IsName(name)
    ensures Count(Skip(s), Mark(name)) == Count(s, Mark(name))
  {
    if s != "" && IsSpace(s[0]) {
      MarkChars(name);
      CountSkip(s[1..], name);
      assert s == "" + ([s[0]] + s[1..]);
      CountCut("", s[0], s[1..], Mark(name));
      hide Mark;
    }
  }

  /** One of the characters between an entry's parts, and the white space before the next. */
  lemma CountAfter(s: string, c: char, name: string)
    requires IsName(name) && c !in Mark(name) && After(s, [c]).Some?
    ensures Count(s, Mark(name)) == Count(After(s, [c]).value, Mark(name))
  {
    assert s == "" + ([c] + s[1..]);
    CountCut("", c, s[1..], Mark(name));
  }

  lemma CountLiteral(s: string, name: string)
    requires IsName(name) && Literal(s).Some?
    ensures Count(s, Mark(name)) == Count(Literal(s).value.0, Mark(name)) + Count(Literal(s).value.1, Mark(name))
  {
    var end := BodyEnd(s[1..]).value;
    var body, rest := s[1..][..end], s[1..][end + 1..];
    MarkChars(name);
    assert s == "" + ([QUOTE] + (body + ([QUOTE] + rest)));
    CountCut("", QUOTE, body + ([QUOTE] + rest), Mark(name));
    CountCut(body, QUOTE, rest, Mark(name));
    CountUnescaped(body, Mark(name));
    hide Mark;
  }

  lemma CountEntry(s: string, name: string)
    requires IsName(name) && EntryAt(s, name).Some?
    ensures var (e, rest) := EntryAt(s, name).value;
            Count(s, Mark(name)) == 1 + Count(e.key, Mark(name)) + Count(e.text, Mark(name)) + Count(rest, Mark(name))
  {
    MarkChars(name);
    var a := After(s, Mark(name)).value;
    var key := Literal(Skip(a)).value;
    var b := AfterParts(Skip(key.1), ["]", "="]).value;
    var text := Literal(Skip(b)).value;
    assert Count(s, Mark(name)) == 1 + Count(a, Mark(name));
    CountSkip(a, name);
    CountLiteral(Skip(a), name);
    CountSkip(key.1, name);
    CountParts(Skip(key.1), name);
    CountSkip(b, name);
    CountLiteral(Skip(b), name);
    CountSkip(text.1, name);
    CountAfter(Skip(text.1), ';', name);
    hide Mark, Count, Skip, Literal;
  }

  lemma CountParts(s: string, name: string)
    requires IsName(name) && AfterParts(s, ["]", "="]).Some?
    ensures Count(s, Mark(name)) == Count(AfterParts(s, ["]", "="]).value, Mark(name))
  {
    MarkChars(name);
    var a := After(s, "]").value;
    CountAfter(s, ']', name);
    CountSkip(a, name);
    CountAfter(Skip(a), '=', name);
    hide Mark, Count, Skip;
  }

  lemma CountFirst(s: string, mark: string)
    requires mark != "" && s != ""
    ensures !StartsWith(s, mark) ==> Count(s, mark) == Count(s[1..], mark)
    ensures StartsWith(s, mark) && mark[0] !in mark[1..] ==> Count(s, mark) == 1 + Count(s[1..], mark)
  {
    if StartsWith(s, mark) && mark[0] !in mark[1..] {
      assert s[..|mark|] == mark && s[1..] == mark[1..] + s[|mark|..];
      CountBehind(mark[1..], s[|mark|..], mark);
    }
  }

  lemma {:induction false} CountBehind(p: string, rest: string, mark: string)
    requires mark != "" && mark[0] !in p
    ensures Count(p + rest, mark) == Count(rest, mark)
  {
    if p == "" {
      assert p + rest == rest;
    } else {
      CountBehind(p[1..], rest, mark);
      assert (p + rest)[1..] == p[1..] + rest && (p + rest)[0] == p[0];
      assert p[0] in p;
    }
  }

  /** A text has a mark for every entry read in it, and one for every mark in their keys and texts. */
  lemma {:induction false} CountRead(s: string, name: string)
    requires IsName(name)
    ensures Count(s, Mark(name)) >= |Read(s, name).entries| + Marks(Read(s, name).entries, name)
    decreases |s|
  {
    if s != "" {
      if EntryAt(s, name).Some? {
        var (e, rest) := EntryAt(s, name).value;
        CountRead(rest, name);
        CountEntry(s, name);
        assert ([e] + Read(rest, name).entries)[1..] == Read(rest, name).entries;
        hide Count, Mark, EntryAt;
      } else {
        MarkOnce(name);
        CountFirst(s, Mark(name));
        CountRead(s[1..], name);
        hide Count, Mark, EntryAt;
      }
    }
  }

  lemma MarkOnce(name: string)
    requires IsName(name)
    ensures Mark(name)[0] !in Mark(name)[1..]
  {
    assert Mark(name)[1..] == name + "[";
  }

  lemma {:induction false} PutHolds(es: Entries, key: string, text: string)
    ensures forall e :: e in Put(es, key, text) ==> e in es || e == Entry(key, text)
    ensures Entry(key, text) in Put(es, key, text)
    ensures forall e :: e in es && e.key != key ==> e in Put(es, key, text)
  {
    if es != [] && es[0].key != key {
      PutHolds(es[1..], key, text);
      assert forall e :: e in es <==> e == es[0] || e in es[1..];
    }
  }

  lemma {:induction false} CollectedHolds(es: seq<Entry>)
    ensures forall e :: e in Collected(es) ==> e in es
  {
    if es != [] {
      CollectedHolds(es[..|es| - 1]);
      PutHolds(Collected(es[..|es| - 1]), es[|es| - 1].key, es[|es| - 1].text);
    }
  }

  /** What is read from a file holds no mark. */
  lemma ParsedMarkFree(text: string, name: string)
    requires IsName(name) && Parsed(text, name).Some?
    ensures Marks(Parsed(text, name).value, name) == 0
  {
    var es := Read(text, name).entries;
    CountRead(text, name);
    CollectedHolds(es);
    MarksNone(es, name);
    MarksNone(Collected(es), name);
    hide Read, Marks, Count, Collected;
  }

  // ---- Applying a migration to one file ----

  /** The text a key has. */
  function Lookup(es: Entries, key: string): Option<string> {
    if es == [] then None else if es[0].key == key then Some(es[0].text) else Lookup(es[1..], key)
  }

  /** The texts of a migration written over a file's: those it has already are left where they are. */
  function Merged(current: Entries, entries: Entries): Entries {
    if entries == [] then current
    else
      var front, e := entries[..|entries| - 1], entries[|entries| - 1];
      if Lookup(current, e.key) == Some(e.text) then Merged(current, front) else Put(Merged(current, front), e.key, e.text)
  }

  function Written(current: Entries, entries: Entries): nat {
    if entries == [] then 0
    else
      Written(current, entries[..|entries| - 1]) +
      if Lookup(current, entries[|entries| - 1].key) == Some(entries[|entries| - 1].text) then 0 else 1
  }

  /** The texts of the file that the migration changes, with what it has instead. */
  function Overwritten(path: Path, current: Entries, entries: Entries): seq<(Path, Entry, string)> {
    if entries == [] then []
    else
      var e := entries[|entries| - 1];
      var before := Lookup(current, e.key);
      Overwritten(path, current, entries[..|entries| - 1]) +
      if before.Some? && before.value != e.text then [(path, e, before.value)] else []
  }

  /** They are reported exactly when the file had another text for the key. */
  lemma {:induction false} OverwrittenAre(path: Path, current: Entries, entries: Entries, e: Entry, before: string)
    ensures (path, e, before) in Overwritten(path, current, entries) <==>
            e in entries && Lookup(current, e.key) == Some(before) && before != e.text
  {
    if entries != [] {
      OverwrittenAre(path, current, entries[..|entries| - 1], e, before);
      assert e in entries <==> e == entries[|entries| - 1] || e in entries[..|entries| - 1];
    }
  }

  lemma {:induction false} LookupPut(es: Entries, key: string, text: string, other: string)
    ensures Lookup(Put(es, key, text), other) == if other == key then Some(text) else Lookup(es, other)
  {
    if es != [] && es[0].key != key {
      LookupPut(es[1..], key, text, other);
    }
  }

  lemma {:induction false} DistinctPut(es: Entries, key: string, text: string)
    requires NoKeyTwice(es)
    ensures NoKeyTwice(Put(es, key, text)) && forall k :: HasKey(Put(es, key, text), k) <==> k == key || HasKey(es, k)
  {
    PutHolds(es, key, text);
    if es != [] {
      if es[0].key == key {
        assert forall e :: e in es[1..] ==> e in es;
        assert forall e :: e in Put(es, key, text) <==> e == Entry(key, text) || e in es[1..];
      } else {
        DistinctPut(es[1..], key, text);
        assert !HasKey(Put(es[1..], key, text), es[0].key);
      }
    }
  }

  lemma {:induction false} HasLookup(es: Entries, key: string)
    ensures HasKey(es, key) <==> Lookup(es, key).Some?
  {
    if es != [] {
      HasLookup(es[1..], key);
      assert forall e :: e in es <==> e == es[0] || e in es[1..];
    }
  }

  /** After a migration its keys have its texts, every other key has the text it had. */
  lemma {:induction false} MergedIs(current: Entries, entries: Entries, key: string)
    requires NoKeyTwice(entries)
    ensures Lookup(Merged(current, entries), key) ==
            if Lookup(entries, key).Some? then Lookup(entries, key) else Lookup(current, key)
  {
    if entries != [] {
      var front, e := entries[..|entries| - 1], entries[|entries| - 1];
      NoKeyTwiceStart(entries);
      MergedIs(current, front, key);
      HasLookup(front, e.key);
      PutNew(front, e.key, e.text);
      assert entries == front + [e];
      LookupPut(front, e.key, e.text, key);
      LookupPut(Merged(current, front), e.key, e.text, key);
      hide HasKey, NoKeyTwice;
    }
  }

  lemma {:induction false} DistinctMerged(current: Entries, entries: Entries)
    requires NoKeyTwice(current)
    ensures NoKeyTwice(Merged(current, entries))
  {
    if entries != [] {
      DistinctMerged(current, entries[..|entries| - 1]);
      DistinctPut(Merged(current, entries[..|entries| - 1]), entries[|entries| - 1].key, entries[|entries| - 1].text);
    }
  }

  /** Nothing is written exactly when every text of the migration is there already. */
  lemma {:induction false} WrittenNone(current: Entries, entries: Entries)
    requires NoKeyTwice(entries)
    ensures Written(current, entries) == 0 <==> forall e :: e in entries ==> Lookup(current, e.key) == Some(e.text)
    ensures Written(current, entries) == 0 ==> Merged(current, entries) == current
  {
    if entries != [] {
      var front, e := entries[..|entries| - 1], entries[|entries| - 1];
      NoKeyTwiceStart(entries);
      WrittenNone(current, front);
      assert forall d :: d in entries <==> d == e || d in front;
      hide Lookup, NoKeyTwice, HasKey;
    }
  }

  // ---- The files of a shop ----

  type Path = string

  /** A file of a migration: its path, the array it holds, and the texts for it. */
  datatype Part = Part(path: Path, name: string, entries: Entries)

  /** What a file holds after its part of a migration; None for its text when there was no file. Err when the file holds
      more than entries. */
  function Applied(text: Option<string>, part: Part): Result<Option<string>, Path> {
    var current := if text.None? then Some([]) else Parsed(text.value, part.name);
    match current
    case None => Err(part.path)
    case Some(es) =>
      Ok(if Written(es, part.entries) == 0 then text else Some(FileText(Merged(es, part.entries), part.name)))
  }

  predicate PartOk(part: Part) {
    IsName(part.name) && NoKeyTwice(part.entries)
  }

  lemma {:induction false} CollectedDistinct(es: seq<Entry>)
    ensures NoKeyTwice(Collected(es))
  {
    if es != [] {
      CollectedDistinct(es[..|es| - 1]);
      DistinctPut(Collected(es[..|es| - 1]), es[|es| - 1].key, es[|es| - 1].text);
    }
  }

  /** The texts of a file after a migration. */
  lemma MergedMarks(es: Entries, part: Part)
    requires PartOk(part) && NoKeyTwice(es) && Marks(es, part.name) == 0
    ensures Marks(Merged(es, part.entries), part.name) == 0 <==>
            forall e :: e in part.entries && Lookup(es, e.key) != Some(e.text) ==> MarkFree(e, part.name)
  {
    var merged := Merged(es, part.entries);
    DistinctMerged(es, part.entries);
    MarksNone(es, part.name);
    MarksNone(merged, part.name);
    forall e: Entry
      ensures e in merged <==> Lookup(merged, e.key) == Some(e.text)
      ensures e in es <==> Lookup(es, e.key) == Some(e.text)
      ensures e in part.entries <==> Lookup(part.entries, e.key) == Some(e.text)
      ensures Lookup(merged, e.key) == if Lookup(part.entries, e.key).Some? then Lookup(part.entries, e.key) else Lookup(es, e.key)
    {
      LookupIs(merged, e);
      LookupIs(es, e);
      LookupIs(part.entries, e);
      MergedIs(es, part.entries, e.key);
    }
    hide Merged, Lookup, Marks, MarkFree, NoKeyTwice;
    if forall e :: e in part.entries && Lookup(es, e.key) != Some(e.text) ==> MarkFree(e, part.name) {
      forall e | e in merged
        ensures MarkFree(e, part.name)
      {
        assert e in part.entries || e in es;
      }
    } else {
      var e :| e in part.entries && Lookup(es, e.key) != Some(e.text) && !MarkFree(e, part.name);
      assert e in merged;
    }
  }

  lemma {:induction false} LookupIs(es: Entries, e: Entry)
    requires NoKeyTwice(es)
    ensures e in es <==> Lookup(es, e.key) == Some(e.text)
  {
    if es != [] {
      LookupIs(es[1..], e);
      assert e in es <==> e == es[0] || e in es[1..];
      if e in es[1..] {
        assert HasKey(es[1..], e.key);
      }
    }
  }

  function Current(text: Option<string>, name: string): Option<Entries> {
    if text.None? then Some([]) else Parsed(text.value, name)
  }

  lemma CurrentIs(text: Option<string>, name: string)
    requires IsName(name) && Current(text, name).Some?
    ensures NoKeyTwice(Current(text, name).value) && Marks(Current(text, name).value, name) == 0
  {
    if text.Some? {
      ParsedMarkFree(text.value, name);
      CollectedDistinct(Read(text.value, name).entries);
      hide Read, Marks, Collected;
    }
  }

  lemma NothingMore(es: Entries, entries: Entries)
    requires NoKeyTwice(es) && NoKeyTwice(entries)
    ensures Written(Merged(es, entries), entries) == 0
  {
    WrittenNone(Merged(es, entries), entries);
    forall e | e in entries
      ensures Lookup(Merged(es, entries), e.key) == Some(e.text)
    {
      MergedIs(es, entries, e.key);
      LookupIs(entries, e);
    }
    hide Merged, Written, Lookup;
  }

  /** Applying a migration again writes nothing, unless a text it has newly written looks like an entry: then the file is
      refused from then on. */
  lemma ApplyAgain(text: Option<string>, part: Part)
    requires PartOk(part) && Applied(text, part).Ok?
    ensures var after, es := Applied(text, part).value, Current(text, part.name).value;
            Applied(after, part) ==
            if forall e :: e in part.entries && Lookup(es, e.key) != Some(e.text) ==> MarkFree(e, part.name)
            then Ok(after) else Err(part.path)
  {
    var es := Current(text, part.name).value;
    var merged := Merged(es, part.entries);
    CurrentIs(text, part.name);
    DistinctMerged(es, part.entries);
    MergedMarks(es, part);
    RoundTrip(merged, part.name);
    NothingMore(es, part.entries);
    WrittenNone(es, part.entries);
    hide Merged, Written, Lookup, Marks, MarkFree, FileText, Parsed, NoKeyTwice, IsName;
  }

  class Shop {
    const dry: bool
    const present: set<Path>  // the files whose module or language is there
    var files: map<Path, string>
    var written: nat
    var equal: nat
    var over: seq<(Path, Entry, string)>  // the different texts written over
    var skipped: seq<Path>

    constructor (files: map<Path, string>, present: set<Path>, dry: bool)
      ensures this.files == files && this.present == present && this.dry == dry && written == 0 && over == [] && skipped == []
    {
      this.files, this.present, this.dry := files, present, dry;
      written, equal, over, skipped := 0, 0, [], [];
    }

    function Text(path: Path): Option<string>
      reads this
    {
      if path in files then Some(files[path]) else None
    }

    /** Whether the shop has the file, or the module or language it belongs to. */
    predicate Takes(path: Path)
      reads this
    {
      path in files || path in present
    }

    method Merge(path: Path, current: Entries, entries: Entries) returns (merged: Entries)
      modifies this`written, this`equal, this`over
      ensures merged == Merged(current, entries) && written == old(written) + Written(current, entries)
      ensures equal == old(equal) + |entries| - Written(current, entries)
      ensures over == old(over) + Overwritten(path, current, entries)
    {
      merged := current;
      for i := 0 to |entries|
        invariant merged == Merged(current, entries[..i]) && written == old(written) + Written(current, entries[..i])
        invariant equal == old(equal) + i - Written(current, entries[..i])
        invariant over == old(over) + Overwritten(path, current, entries[..i])
      {
        assert entries[..i + 1][..i] == entries[..i];
        var e := entries[i];
        var before := Lookup(current, e.key);
        if before == Some(e.text) {
          equal := equal + 1;
        } else {
          if before.Some? {
            over := over + [(path, e, before.value)];
          }
          merged := Put(merged, e.key, e.text);
          written := written + 1;
        }
      }
      assert entries[..|entries|] == entries;
    }

    /** One file of a migration: what the shop has not is skipped, a file that holds more than entries is refused, a dry
        run writes nothing. */
    method ApplyPart(part: Part) returns (r: Result<bool, Path>)
      requires PartOk(part)
      modifies this
      ensures !old(Takes(part.path)) ==> r == Ok(false) && files == old(files) && skipped == old(skipped) + [part.path]
      ensures old(Takes(part.path)) ==>
                match Applied(old(Text(part.path)), part)
                case Err(path) => r == Err(path) && files == old(files)
                case Ok(after) =>
                  && r == Ok(!dry && after != old(Text(part.path)))
                  && (r.value ==> after.Some? && files == old(files)[part.path := after.value])
                  && (!r.value ==> files == old(files))
                  && over == old(over) + Overwritten(part.path, Current(old(Text(part.path)), part.name).value, part.entries)
    {
      if !Takes(part.path) {
        skipped := skipped + [part.path];
        return Ok(false);
      }
      var text := Text(part.path);
      var current: Option<Entries> := Some([]);
      if text.Some? {
        current := ParseLegacy(text.value, part.name);
      }
      if current.None? {
        return Err(part.path);
      }
      CurrentIs(text, part.name);
      FileChanges(text, part);
      var merged := Merge(part.path, current.value, part.entries);
      var different := !SameTexts(merged, current.value);
      MergedDiffers(current.value, part.entries);
      if different && !dry {
        files := files[part.path := FileText(merged, part.name)];
      }
      return Ok(different && !dry);
    }
  }

  /** Two dictionaries with the same keys and texts, in whatever order. */
  predicate SameTexts(a: Entries, b: Entries) {
    (forall e :: e in a ==> e in b) && (forall e :: e in b ==> e in a)
  }

  /** The merged texts differ from the file's exactly when something is written. */
  lemma MergedDiffers(es: Entries, entries: Entries)
    requires NoKeyTwice(es) && NoKeyTwice(entries)
    ensures SameTexts(Merged(es, entries), es) <==> Written(es, entries) == 0
  {
    WrittenNone(es, entries);
    if Written(es, entries) != 0 {
      var e :| e in entries && Lookup(es, e.key) != Some(e.text);
      LookupIs(entries, e);
      MergedIs(es, entries, e.key);
      DistinctMerged(es, entries);
      LookupIs(Merged(es, entries), e);
      LookupIs(es, e);
    }
    hide Merged, Written, Lookup;
  }

  /** What is written to a file is never what it held. */
  lemma FileChanges(text: Option<string>, part: Part)
    requires PartOk(part) && Current(text, part.name).Some?
    ensures Written(Current(text, part.name).value, part.entries) != 0 ==> Applied(text, part).value != text
  {
    var es := Current(text, part.name).value;
    CurrentIs(text, part.name);
    var merged := Merged(es, part.entries);
    DistinctMerged(es, part.entries);
    RoundTrip(merged, part.name);
    MergedDiffers(es, part.entries);
    hide Merged, Written, FileText, Parsed;
  }
}
