/** The framed reply of a removal: found whole in whatever surrounds it, and never read when it is cut short. Bytes are
    written as characters. */
module ReplyFrame {
  import opened Sequences
  import opened Wrappers

  const FRAME_START := "--setup-remove-inside-begin--"
  const FRAME_END := "--setup-remove-inside-end--"
  const START := FRAME_START + "\n"
  const END := "\n" + FRAME_END + "\n"

  type Name = string

  /** The names not removed yet, and those kept on purpose. */
  datatype Reply = Reply(pending: seq<Name>, kept: seq<Name>)

  /** How a reply is written as JSON, and read. */
  datatype Codec = Codec(dumps: Reply -> string, loads: string -> Option<Reply>)

  ghost predicate CodecOk(codec: Codec) {
    forall r: Reply :: codec.loads(codec.dumps(r)) == Some(r)
  }

  // ---- Decimal lengths ----

  function Decimal(n: nat): (s: string)
    ensures s != "" && AllDigits(s)
  {
    var digit := ['0' + (n % 10) as char];
    if n < 10 then digit else Decimal(n / 10) + digit
  }

  predicate AllDigits(s: string) {
    forall i :: 0 <= i < |s| ==> '0' <= s[i] <= '9'
  }

  function Number(s: string): nat
    requires AllDigits(s)
  {
    if s == "" then 0 else 10 * Number(s[..|s| - 1]) + (s[|s| - 1] - '0') as nat
  }

  lemma {:induction false} NumberOfDecimal(n: nat)
    ensures Number(Decimal(n)) == n
  {
    if n >= 10 {
      NumberOfDecimal(n / 10);
      assert Decimal(n)[..|Decimal(n)| - 1] == Decimal(n / 10);
    } else {
      assert Decimal(n)[..0] == "";
    }
  }

  // ---- Writing and reading ----

  function Frame(codec: Codec, r: Reply): string {
    var body := codec.dumps(r);
    START + (Decimal(|body|) + ("\n" + (body + END)))
  }

  /** Where a text first occurs. */
  function Find(s: string, p: string): (at: Option<nat>)
    ensures at.Some? ==> at.value + |p| <= |s|
  {
    if p <= s then Some(0)
    else if s == "" then None
    else
      match Find(s[1..], p)
      case None => None
      case Some(at) => Some(at + 1)
  }

  /** A text up to its first line end, and what follows that; all of it and nothing when it has none. */
  function Partition(s: string): (string, string) {
    if s == "" then ("", "")
    else if s[0] == '\n' then ("", s[1..])
    else
      var (line, rest) := Partition(s[1..]);
      ([s[0]] + line, rest)
  }

  /** A slice, as far as the text goes. */
  function Slice(s: string, from: nat, to: nat): string
    requires from <= to
  {
    s[Least(from, |s|)..Least(to, |s|)]
  }

  /** The reply in an output; None without a whole block. */
  function Unframe(codec: Codec, output: string): Option<Reply> {
    match Find(output, START)
    case None => None
    case Some(at) =>
      var (length, rest) := Partition(output[at + |START|..]);
      if length == "" || !AllDigits(length) then None
      else
        var n := Number(length);
        if Slice(rest, n, n + |END|) != END then None else codec.loads(Slice(rest, 0, n))
  }

  // ---- Whole blocks ----

  lemma StartLine()
    ensures START != "" && START[|START| - 1] == '\n' && '\n' !in START[..|START| - 1]
  {
    assert START[..|START| - 1] == FRAME_START;
  }

  /** A start line is found where it is put, when none lies before. */
  lemma {:induction false} FindAfter(p: string, rest: string)
    requires Find(p, START).None?
    ensures Find(p + (START + rest), START) == Some(|p|)
  {
    var s := p + (START + rest);
    if p == "" {
      assert s == START + rest;
    } else {
      assert s[1..] == p[1..] + (START + rest);
      NotHere(p, START + rest);
      FindAfter(p[1..], rest);
    }
  }

  /** No line reaches from a text over into the next such line, or a part of it. */
  lemma NoLineOver(line: string, p: string, next: string)
    requires line != "" && line[|line| - 1] !in line[..|line| - 1] && p != "" && !(line <= p)
    requires next <= line || line <= next
    ensures !(line <= p + next)
  {
    var s, last := p + next, |line| - 1;
    assert |p| > last ==> s[..|line|] == p[..|line|];
    assert |p| <= last < |s| ==> s[last] == line[last - |p|] == line[..last][last - |p|];
  }

  lemma NotHere(p: string, next: string)
    requires p != "" && Find(p, START).None?
    requires next <= START || START <= next
    ensures !(START <= p + next)
  {
    assert !(START <= p);
    hide Find;
    StartLine();
    NoLineOver(START, p, next);
  }

  lemma {:induction false} PartitionAt(line: string, rest: string)
    requires '\n' !in line
    ensures Partition(line + ("\n" + rest)) == (line, rest)
    ensures Partition(line) == (line, "")
  {
    if line == "" {
      assert "" + ("\n" + rest) == "\n" + rest;
    } else {
      PartitionAt(line[1..], rest);
      assert line[0] in line && line == [line[0]] + line[1..];
      assert (line + ("\n" + rest))[1..] == line[1..] + ("\n" + rest);
    }
  }

  lemma SliceOf(a: string, b: string, c: string)
    ensures Slice(a + (b + c), 0, |a|) == a && Slice(a + (b + c), |a|, |a| + |b|) == b
  {
  }

  lemma DigitsHaveNoLine(s: string)
    requires AllDigits(s)
    ensures '\n' !in s
  {
  }

  lemma FrameIs(codec: Codec, r: Reply, rest: string)
    ensures var body := codec.dumps(r);
            Frame(codec, r) + rest == START + (Decimal(|body|) + ("\n" + (body + (END + rest))))
  {
  }

  /** A whole block is read, whatever stands before and after it, when no start line stands before. */
  lemma Unframed(codec: Codec, r: Reply, before: string, after: string)
    requires CodecOk(codec) && Find(before, START).None?
    ensures Unframe(codec, before + (Frame(codec, r) + after)) == Some(r)
  {
    var body := codec.dumps(r);
    var length := Decimal(|body|);
    var tail := body + (END + after);
    var output := before + (START + (length + ("\n" + tail)));
    FrameIs(codec, r, after);
    FindAfter(before, length + ("\n" + tail));
    assert output[|before| + |START|..] == length + ("\n" + tail);
    DigitsHaveNoLine(length);
    PartitionAt(length, tail);
    NumberOfDecimal(|body|);
    SliceOf(body, END, after);
    hide Find, Partition, Decimal, Slice, Frame;
  }

  // ---- Blocks cut short ----

  lemma {:induction false} FindLonger(s: string, more: string, p: string)
    requires Find(s, p).Some?
    ensures Find(s + more, p) == Find(s, p)
  {
    if !(p <= s) {
      assert (s + more)[1..] == s[1..] + more;
      FindLonger(s[1..], more, p);
    }
    assert p <= s ==> p <= s + more;
    assert p <= s + more && |p| <= |s| ==> p <= s;
  }

  lemma CutInTwo(line: string, rest: string, cut: string, more: string)
    requires line + ("\n" + rest) == cut + more
    ensures |cut| <= |line| ==> cut == line[..|cut|]
    ensures |cut| > |line| ==> cut == line + ("\n" + cut[|line| + 1..]) && rest == cut[|line| + 1..] + more
  {
    var whole := line + ("\n" + rest);
    assert cut == whole[..|cut|];
    assert |cut| > |line| ==> whole[|line| + 1..] == rest && whole[|line| + 1..] == cut[|line| + 1..] + more;
  }

  /** What is left of a block after its start line, cut before its end, is no reply. */
  lemma CutAfterStart(codec: Codec, body: string, cut: string, more: string)
    requires Decimal(|body|) + ("\n" + (body + END)) == cut + more && more != ""
    ensures var (length, tail) := Partition(cut);
            length == "" || !AllDigits(length) || Slice(tail, Number(length), Number(length) + |END|) != END
  {
    var length := Decimal(|body|);
    CutInTwo(length, body + END, cut, more);
    DigitsHaveNoLine(length);
    NumberOfDecimal(|body|);
    hide Partition, Decimal, AllDigits, Number;
    if |cut| <= |length| {
      PartitionAt(cut, "");
    } else {
      PartitionAt(length, cut[|length| + 1..]);
    }
  }

  lemma CutBehind(a: string, b: string, c: string, output: string, more: string)
    requires a + (b + c) == output + more && |a| + |b| <= |output|
    ensures c == output[|a| + |b|..] + more
  {
    assert (a + (b + c))[|a| + |b|..] == c;
  }

  lemma CutOutput(whole: string, output: string) returns (more: string)
    requires output <= whole && output != whole
    ensures whole == output + more && more != ""
  {
    more := whole[|output|..];
  }

  lemma FrameBlock(codec: Codec, r: Reply)
    ensures var body := codec.dumps(r);
            Frame(codec, r) == START + (Decimal(|body|) + ("\n" + (body + END)))
  {
    hide Decimal;
  }

  /** Without a start line, or with what is no reply behind it, nothing is read. */
  lemma Unread(codec: Codec, output: string)
    requires Find(output, START).Some? ==>
               var (length, tail) := Partition(output[Find(output, START).value + |START|..]);
               length == "" || !AllDigits(length) || Slice(tail, Number(length), Number(length) + |END|) != END
    ensures Unframe(codec, output).None?
  {
    hide Find, Partition, Slice, Number, AllDigits;
  }

  /** No block cut short is read, whatever stands before it, when no start line does. */
  lemma CutShort(codec: Codec, r: Reply, before: string, output: string)
    requires Find(before, START).None?
    requires output <= before + Frame(codec, r) && output != before + Frame(codec, r)
    ensures Unframe(codec, output).None?
  {
    hide *;
    var body := codec.dumps(r);
    var block := Decimal(|body|) + ("\n" + (body + END));
    FrameBlock(codec, r);
    var more := CutOutput(before + (START + block), output);
    FindAfter(before, block);
    if Find(output, START).Some? {
      FindLonger(output, more, START);
      CutBehind(before, START, block, output, more);
      CutAfterStart(codec, body, output[|before| + |START|..], more);
    }
    Unread(codec, output);
  }
}
