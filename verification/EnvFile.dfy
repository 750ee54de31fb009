/** An env file: what its lines set, as the dotenv parser reads them. */
module EnvFile {
  import opened PythonText
  import opened Wrappers

  type Key = string
  type Line = string

  predicate IsLetter(c: char) {
    'A' <= c <= 'Z' || 'a' <= c <= 'z' || c == '_'
  }

  predicate IsNameChar(c: char) {
    IsLetter(c) || '0' <= c <= '9'
  }

  predicate IsKey(key: Key) {
    key != "" && IsLetter(key[0]) && forall i :: 0 <= i < |key| ==> IsNameChar(key[i])
  }

  function NameLength(s: string): (n: nat)
    ensures n <= |s|
  {
    if s != "" && IsNameChar(s[0]) then 1 + NameLength(s[1..]) else 0
  }

  function SkipTabs(s: string): (rest: string)
    ensures |rest| <= |s|
  {
    if s != "" && (s[0] == ' ' || s[0] == '\t') then SkipTabs(s[1..]) else s
  }

  /** A key, and the text behind its equals sign or colon. */
  function Assignment(s: string): Option<(Key, string)> {
    var n := NameLength(s);
    var rest := SkipTabs(s[n..]);
    if n > 0 && IsLetter(s[0]) && rest != "" && (rest[0] == '=' || rest[0] == ':') then Some((s[..n], SkipTabs(rest[1..])))
    else None
  }

  function Entry(line: string): Option<(Key, string)> {
    var exported := if "export" < line && (line[6] == ' ' || line[6] == '\t') then Assignment(SkipTabs(line[6..])) else None;
    if exported.Some? then exported else Assignment(line)
  }

  function FindChar(s: string, c: char): (at: Option<nat>)
    ensures at.Some? ==> at.value < |s|
  {
    if s == "" then None
    else if s[0] == c then Some(0)
    else
      match FindChar(s[1..], c)
      case None => None
      case Some(at) => Some(at + 1)
  }

  /** The closing quote: of a double-quoted text the first no backslash stands before. */
  function Closing(s: string, quote: char): (at: Option<nat>)
    ensures at.Some? ==> at.value < |s|
  {
    if quote == '\'' then FindChar(s, quote)
    else if s == "" then None
    else if s[0] == quote then Some(0)
    else
      var step := if s[0] == '\\' then 2 else 1;
      if |s| < step then None
      else
        match Closing(s[step..], quote)
        case None => None
        case Some(at) => Some(at + step)
  }

  function Unescaped(s: string): string {
    if s == "" then ""
    else if s[0] == '\\' && |s| > 1 then
      [if s[1] == 'n' then '\n' else if s[1] == 't' then '\t' else if s[1] == 'r' then '\r' else s[1]] + Unescaped(s[2..])
    else [s[0]] + Unescaped(s[1..])
  }

  /** The text before a comment: white space and a number sign. */
  function BeforeComment(s: string): string {
    if |s| > 1 && IsSpace(s[0]) && s[1] == '#' then ""
    else if s == "" then "" else [s[0]] + BeforeComment(s[1..])
  }

  predicate IsQuote(raw: string) {
    raw != "" && (raw[0] == '\'' || raw[0] == '"')
  }

  function Unquoted(raw: string): string {
    if raw != "" && raw[0] == '#' then "" else SkipEnd(Skip(BeforeComment(raw)))
  }

  /** A quoted value, over as many lines as it takes, and the line after it. */
  function Quoted(lines: seq<Line>, next: nat, body: string, quote: char): (r: Option<(string, nat)>)
    requires next <= |lines|
    ensures r.Some? ==> next <= r.value.1 <= |lines|
    decreases |lines| - next
  {
    match Closing(body, quote)
    case Some(end) => Some((if quote == '"' then Unescaped(body[..end]) else body[..end], next))
    case None => if next == |lines| then None else Quoted(lines, next + 1, body + "\n" + lines[next], quote)
  }

  predicate IsIgnored(line: Line) {
    IsBlank(line) || (Skip(line) != "" && Skip(line)[0] == '#')
  }

  type Values = map<Key, string>

  /** What the lines set; Err with the line that is no entry or whose quote is never closed. */
  function Parsed(lines: seq<Line>, from: nat, values: Values): Result<Values, nat>
    requires from <= |lines|
    decreases |lines| - from
  {
    if from == |lines| then Ok(values)
    else if IsIgnored(lines[from]) then Parsed(lines, from + 1, values)
    else
      match Entry(Skip(lines[from]))
      case None => Err(from)
      case Some((key, raw)) =>
        if !IsQuote(raw) then Parsed(lines, from + 1, values[key := Unquoted(raw)])
        else
          match Quoted(lines, from + 1, raw[1..], raw[0])
          case None => Err(from)
          case Some((value, next)) => Parsed(lines, next, values[key := value])
  }

  // ---- Files of single-line entries ----

  /** What a line sets on its own. */
  function Set(line: Line): Option<(Key, string)> {
    if IsIgnored(line) then None
    else
      match Entry(Skip(line))
      case None => None
      case Some((key, raw)) =>
        if !IsQuote(raw) then Some((key, Unquoted(raw)))
        else
          match Closing(raw[1..], raw[0])
          case None => None
          case Some(end) => Some((key, if raw[0] == '"' then Unescaped(raw[1..][..end]) else raw[1..][..end]))
  }

  predicate IsSingle(line: Line) {
    IsIgnored(line) || Set(line).Some?
  }

  function Read(lines: seq<Line>): Values {
    if lines == [] then map[]
    else
      var before := Read(lines[..|lines| - 1]);
      match Set(lines[|lines| - 1])
      case None => before
      case Some((key, value)) => before[key := value]
  }

  /** A file whose lines are comments, blank or entries of one line is read line by line; a later line wins. */
  lemma {:induction false} ParsedIsRead(lines: seq<Line>, from: nat)
    requires from <= |lines| && forall line :: line in lines ==> IsSingle(line)
    ensures Parsed(lines, from, Read(lines[..from])) == Ok(Read(lines))
    decreases |lines| - from
  {
    if from == |lines| {
      assert lines[..from] == lines;
    } else {
      assert lines[from] in lines;
      ParsedIsRead(lines, from + 1);
      assert lines[..from + 1][..from] == lines[..from];
      hide IsIgnored, Entry, Skip, Unquoted, Closing, Unescaped;
    }
  }

  // ---- The line setup writes for a value ----

  predicate IsPlain(c: char) {
    IsNameChar(c) || c == '.' || c == ':' || c == '/' || c == '+' || c == '=' || c == '-'
  }

  predicate AllPlain(value: string) {
    forall i :: 0 <= i < |value| ==> IsPlain(value[i])
  }

  /** None for a value that cannot be written safely. */
  function LineFor(key: Key, value: string): Option<Line> {
    if AllPlain(value) then Some(key + ("=" + value))
    else if '\'' !in value && '\n' !in value then Some(key + ("=" + ("'" + (value + "'"))))
    else None
  }

  lemma {:induction false} NameLengthOf(key: Key, rest: string)
    requires (forall i :: 0 <= i < |key| ==> IsNameChar(key[i])) && (rest != "" ==> !IsNameChar(rest[0]))
    ensures NameLength(key + rest) == |key|
  {
    if key == "" {
      assert key + rest == rest;
    } else {
      NameLengthOf(key[1..], rest);
      assert (key + rest)[1..] == key[1..] + rest;
    }
  }

  lemma AssignmentOf(key: Key, raw: string)
    requires IsKey(key)
    ensures Assignment(key + ("=" + raw)) == Some((key, SkipTabs(raw)))
  {
    var line := key + ("=" + raw);
    NameLengthOf(key, "=" + raw);
    assert line[|key|..] == "=" + raw && line[..|key|] == key && ("=" + raw)[1..] == raw;
    hide NameLength;
  }

  lemma NotExported(key: Key, raw: string)
    requires IsKey(key)
    ensures var line := key + ("=" + raw);
            line[0] == key[0] && ("export" < line ==> line[6] != ' ' && line[6] != '\t')
  {
    var line := key + ("=" + raw);
    assert line[|key|] == '=';
    assert |key| > 6 ==> line[6] == key[6];
    assert "export" < line ==> line[..6] == "export";
  }

  /** A line that starts with a key and an equals sign is that key's entry. */
  lemma EntryOf(key: Key, raw: string)
    requires IsKey(key)
    ensures var line := key + ("=" + raw);
            Skip(line) == line && !IsIgnored(line) && Entry(line) == Some((key, SkipTabs(raw)))
  {
    AssignmentOf(key, raw);
    NotExported(key, raw);
    assert IsLetter(key[0]);
    hide Assignment, SkipTabs;
  }

  lemma {:induction false} NoComment(value: string)
    requires AllPlain(value)
    ensures BeforeComment(value) == value && Skip(value) == value && SkipEnd(value) == value
  {
    if value != "" {
      NoComment(value[1..]);
      assert IsPlain(value[0]) && IsPlain(value[|value| - 1]);
    }
  }

  lemma {:induction false} FindOnly(s: string, c: char, rest: string)
    requires c !in s
    ensures FindChar(s + ([c] + rest), c) == Some(|s|)
  {
    if s == "" {
      assert s + ([c] + rest) == [c] + rest;
    } else {
      FindOnly(s[1..], c, rest);
      assert (s + ([c] + rest))[1..] == s[1..] + ([c] + rest) && (s + ([c] + rest))[0] == s[0];
      assert s[0] in s;
    }
  }

  lemma PlainSets(key: Key, value: string)
    requires IsKey(key) && AllPlain(value)
    ensures Set(key + ("=" + value)) == Some((key, value)) && !IsIgnored(key + ("=" + value))
  {
    EntryOf(key, value);
    PlainRaw(value);
    hide Entry, IsIgnored, Skip, IsKey, AllPlain, SkipTabs, Unquoted, IsQuote;
  }

  /** A plain value is read as it stands. */
  lemma PlainRaw(value: string)
    requires AllPlain(value)
    ensures SkipTabs(value) == value && !IsQuote(value) && Unquoted(value) == value
  {
    assert value != "" ==> IsPlain(value[0]);
    NoComment(value);
    hide Skip, SkipEnd, BeforeComment;
  }

  lemma QuotedSets(key: Key, value: string)
    requires IsKey(key) && '\'' !in value
    ensures var line := key + ("=" + ("'" + (value + "'")));
            Set(line) == Some((key, value)) && !IsIgnored(line)
  {
    var raw := "'" + (value + "'");
    EntryOf(key, raw);
    QuotedRaw(value);
    hide Entry, IsIgnored, Skip, FindChar;
  }

  lemma QuotedRaw(value: string)
    requires '\'' !in value
    ensures var raw := "'" + (value + "'");
            raw[0] == '\'' && Closing(raw[1..], '\'') == Some(|value|) && raw[1..][..|value|] == value
  {
    var raw := "'" + (value + "'");
    assert raw[1..] == value + (['\''] + "");
    FindOnly(value, '\'', "");
    assert raw[1..][..|value|] == value;
  }

  /** The written line sets the key to the value. */
  lemma LineSets(key: Key, value: string)
    requires IsKey(key) && LineFor(key, value).Some?
    ensures Set(LineFor(key, value).value) == Some((key, value))
    ensures !IsIgnored(LineFor(key, value).value) && key + "=" <= LineFor(key, value).value
  {
    if AllPlain(value) {
      PlainSets(key, value);
      Starts(key, value);
    } else {
      QuotedSets(key, value);
      Starts(key, "'" + (value + "'"));
    }
    hide Set, IsIgnored;
  }

  lemma Starts(key: Key, rest: string)
    ensures key + "=" <= key + ("=" + rest)
  {
    assert (key + ("=" + rest))[..|key| + 1] == key + "=";
  }
}
