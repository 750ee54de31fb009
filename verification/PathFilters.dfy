/** The paths a files backup names, compiled to rsync's filter rules. */
module PathFilters {

  type Name = string

  /** A path in the code tree, part by part. */
  type Path = seq<Name>

  /** fnmatch's and rsync's `*`, within one name. */
  predicate Wild(pattern: string, name: Name) {
    if pattern == "" then name == ""
    else if pattern[0] == '*' then Wild(pattern[1..], name) || (name != "" && Wild(pattern, name[1..]))
    else name != "" && name[0] == pattern[0] && Wild(pattern[1..], name[1..])
  }

  /** Without a star a pattern is the name itself. */
  lemma {:induction false} WildPlain(pattern: string, name: Name)
    requires '*' !in pattern
    ensures Wild(pattern, name) <==> name == pattern
  {
    if pattern != "" {
      assert pattern[0] in pattern && forall c :: c in pattern[1..] ==> c in pattern;
      assert pattern == [pattern[0]] + pattern[1..];
      if name != "" {
        assert name == [name[0]] + name[1..];
        WildPlain(pattern[1..], name[1..]);
      }
    }
  }

  /** One pattern matches the start of a name, another its end, with anything in between. */
  ghost predicate Apart(a: string, b: string, name: Name) {
    exists i, k :: 0 <= i <= k <= |name| && Wild(a, name[..i]) && Wild(b, name[k..])
  }

  lemma {:induction false} StarThen(b: string, name: Name)
    ensures Wild("*" + b, name) <==> exists k :: 0 <= k <= |name| && Wild(b, name[k..])
  {
    assert ("*" + b)[0] == '*' && ("*" + b)[1..] == b && name[0..] == name;
    if name != "" {
      StarThen(b, name[1..]);
      assert forall k :: 0 <= k <= |name[1..]| ==> name[1..][k..] == name[k + 1..];
      if k :| 0 <= k <= |name[1..]| && Wild(b, name[1..][k..]) {
        assert Wild(b, name[k + 1..]);
      }
      if k :| 0 <= k <= |name| && Wild(b, name[k..]) {
        assert k > 0 ==> Wild(b, name[1..][k - 1..]);
      }
    }
  }

  lemma ApartEmpty(b: string, name: Name)
    ensures Apart("", b, name) <==> exists k :: 0 <= k <= |name| && Wild(b, name[k..])
  {
    if k :| 0 <= k <= |name| && Wild(b, name[k..]) {
      assert name[..0] == "";
      assert Wild("", name[..0]) && 0 <= 0 <= k <= |name|;
    }
  }

  /** A star stands for any text, also for none. */
  lemma {:induction false} WildStar(a: string, b: string, name: Name)
    ensures Wild(a + ("*" + b), name) <==> Apart(a, b, name)
    decreases |a| + |name|
  {
    var whole := a + ("*" + b);
    if a == "" {
      assert whole == "*" + b;
      StarThen(b, name);
      ApartEmpty(b, name);
    } else {
      assert whole[0] == a[0] && whole[1..] == a[1..] + ("*" + b);
      assert name[..0] == "";
      if a[0] == '*' {
        WildStar(a[1..], b, name);
        if name != "" {
          WildStar(a, b, name[1..]);
        }
        ApartStar(a, b, name);
      } else {
        if name != "" {
          if name[0] == a[0] {
            WildStar(a[1..], b, name[1..]);
          }
          ApartChar(a, b, name);
        }
      }
    }
  }

  lemma ApartStar(a: string, b: string, name: Name)
    requires a != "" && a[0] == '*'
    ensures Apart(a, b, name) <==> Apart(a[1..], b, name) || (name != "" && Apart(a, b, name[1..]))
  {
    forall x: string
      ensures Wild(a[1..], x) ==> Wild(a, x)
      ensures x != "" ==> (Wild(a, x) <==> Wild(a[1..], x) || Wild(a, x[1..]))
    {
    }
    if Apart(a[1..], b, name) {
      var i, k :| 0 <= i <= k <= |name| && Wild(a[1..], name[..i]) && Wild(b, name[k..]);
      assert Wild(a, name[..i]);
    }
    if name != "" && Apart(a, b, name[1..]) {
      var i, k :| 0 <= i <= k <= |name[1..]| && Wild(a, name[1..][..i]) && Wild(b, name[1..][k..]);
      assert name[..i + 1][1..] == name[1..][..i] && name[k + 1..] == name[1..][k..];
      assert Wild(a, name[..i + 1]);
    }
    if Apart(a, b, name) {
      var i, k :| 0 <= i <= k <= |name| && Wild(a, name[..i]) && Wild(b, name[k..]);
      if !Wild(a[1..], name[..i]) {
        assert i > 0 && name[..i][1..] == name[1..][..i - 1] && name[k..] == name[1..][k - 1..];
        assert Wild(a, name[1..][..i - 1]) && Wild(b, name[1..][k - 1..]);
      }
    }
  }

  lemma ApartChar(a: string, b: string, name: Name)
    requires a != "" && a[0] != '*' && name != ""
    ensures Apart(a, b, name) <==> name[0] == a[0] && Apart(a[1..], b, name[1..])
  {
    if Apart(a, b, name) {
      var i, k :| 0 <= i <= k <= |name| && Wild(a, name[..i]) && Wild(b, name[k..]);
      assert name[..i][1..] == name[1..][..i - 1] && name[k..] == name[1..][k - 1..];
      assert Wild(a[1..], name[1..][..i - 1]) && Wild(b, name[1..][k - 1..]);
    }
    if name[0] == a[0] && Apart(a[1..], b, name[1..]) {
      var i, k :| 0 <= i <= k <= |name[1..]| && Wild(a[1..], name[1..][..i]) && Wild(b, name[1..][k..]);
      assert name[..i + 1][1..] == name[1..][..i] && name[k + 1..] == name[1..][k..];
      assert Wild(a, name[..i + 1]);
    }
  }

  predicate AllWild(patterns: seq<string>, path: Path) {
    forall i :: 0 <= i < |patterns| && i < |path| ==> Wild(patterns[i], path[i])
  }

  // ---- Parts of a path ----

  function Join(parts: seq<string>): string
    requires parts != []
  {
    if |parts| == 1 then parts[0] else parts[0] + ("/" + Join(parts[1..]))
  }

  function Split(s: string): (parts: seq<string>)
    ensures parts != []
  {
    if s == "" then [""]
    else
      var rest := Split(s[1..]);
      if s[0] == '/' then [""] + rest else [[s[0]] + rest[0]] + rest[1..]
  }

  function StripLeft(s: string): string {
    if s != "" && s[0] == '/' then StripLeft(s[1..]) else s
  }

  function StripRight(s: string): string {
    if s != "" && s[|s| - 1] == '/' then StripRight(s[..|s| - 1]) else s
  }

  function Strip(s: string): string {
    StripRight(StripLeft(s))
  }

  predicate EndsWith(s: string, end: string) {
    |end| <= |s| && s[|s| - |end|..] == end
  }

  predicate IsPlain(c: char) {
    'a' <= c <= 'z' || 'A' <= c <= 'Z' || '0' <= c <= '9' || c == '.' || c == '_' || c == '-' || c == '*'
  }

  /** A part of a pattern: no character but `*` with a meaning of its own, and nothing that spans parts. */
  predicate PartOk(part: string) {
    part != "" && (forall c :: c in part ==> IsPlain(c)) && forall i :: 0 < i < |part| ==> part[i - 1] != '*' || part[i] != '*'
  }

  predicate PartsOk(parts: seq<string>) {
    parts != [] && forall part :: part in parts ==> PartOk(part)
  }

  lemma {:induction false} SplitOne(part: string)
    requires '/' !in part
    ensures Split(part) == [part]
  {
    if part != "" {
      SplitOne(part[1..]);
      assert part == [part[0]] + part[1..];
    }
  }

  lemma {:induction false} SplitFirst(part: string, rest: string)
    requires '/' !in part
    ensures Split(part + ("/" + rest)) == [part] + Split(rest)
  {
    var s := part + ("/" + rest);
    if part == "" {
      assert s[0] == '/' && s[1..] == rest;
    } else {
      assert s[0] == part[0] && s[1..] == part[1..] + ("/" + rest) && s[0] in part;
      SplitFirst(part[1..], rest);
      assert part == [part[0]] + part[1..];
    }
  }

  lemma {:induction false} SplitJoin(parts: seq<string>)
    requires PartsOk(parts)
    ensures Split(Join(parts)) == parts
  {
    assert parts[0] in parts;
    if |parts| == 1 {
      SplitOne(parts[0]);
    } else {
      SplitJoin(parts[1..]);
      SplitFirst(parts[0], Join(parts[1..]));
    }
  }

  // ---- rsync's rules ----

  datatype Rule = Include(text: string) | Exclude(text: string)

  /** What a filter pattern matches: anchored at the root of the transfer when it starts with a slash, a directory alone
      when it ends with one, a directory and everything in it with three stars after that; a name anywhere without a
      slash. */
  predicate RuleMatches(text: string, path: Path, directory: bool) {
    if text != "" && text[0] == '/' then
      var body := text[1..];
      if EndsWith(body, "/***") then
        var parts := Split(body[..|body| - 4]);
        (|path| > |parts| || (directory && |path| == |parts|)) && AllWild(parts, path)
      else if EndsWith(body, "/") then
        var parts := Split(body[..|body| - 1]);
        directory && |path| == |parts| && AllWild(parts, path)
      else
        var parts := Split(body);
        |path| == |parts| && AllWild(parts, path)
    else path != [] && Wild(text, path[|path| - 1])
  }

  /** The first rule that matches decides; without one a path is taken. */
  predicate Taken(rules: seq<Rule>, path: Path, directory: bool) {
    if rules == [] then true
    else if RuleMatches(rules[0].text, path, directory) then rules[0].Include?
    else Taken(rules[1..], path, directory)
  }

  /** A file is copied when it is taken and rsync gets to it: it descends only into directories it takes. */
  predicate Copied(rules: seq<Rule>, path: Path) {
    Taken(rules, path, false) && forall k :: 0 < k < |path| ==> Taken(rules, path[..k], true)
  }

  // ---- The two readings of the patterns ----

  function Steps(pattern: string): seq<string> {
    var parts := Split(Strip(pattern));
    seq(|parts| - 1, d requires 0 <= d < |parts| - 1 => "/" + Join(parts[..d + 1]) + "/") +
    ["/" + Join(parts) + if EndsWith(pattern, "/") then "/***" else ""]
  }

  predicate IsListed(path: Path, pattern: string) {
    var wanted := Split(Strip(pattern));
    (if EndsWith(pattern, "/") then |path| > |wanted| else |path| == |wanted|) && AllWild(wanted, path)
  }

  /** A pattern as the settings give it, once checked. */
  function PatternText(parts: seq<string>, directory: bool): string
    requires parts != []
  {
    "/" + Join(parts) + if directory then "/" else ""
  }

  ghost predicate IsPattern(pattern: string) {
    exists parts: seq<string>, directory :: PartsOk(parts) && pattern == PatternText(parts, directory)
  }

  /** Rules that include, and then exclude everything. */
  predicate IncludesOnly(rules: seq<Rule>) {
    rules != [] && rules[|rules| - 1] == Exclude("*") && forall i :: 0 <= i < |rules| - 1 ==> rules[i].Include?
  }

  lemma IncludesAre(rules: seq<Rule>, includes: seq<string>)
    requires |rules| == |includes| && forall i :: 0 <= i < |rules| ==> rules[i] == Include(includes[i])
    ensures forall step :: Include(step) in rules + [Exclude("*")] <==> step in includes
  {
    forall step
      ensures Include(step) in rules + [Exclude("*")] <==> step in includes
    {
      if step in includes {
        var i :| 0 <= i < |includes| && includes[i] == step;
        assert (rules + [Exclude("*")])[i] == Include(step);
      }
    }
  }

  method IncludeFilters(patterns: seq<string>) returns (rules: seq<Rule>)
    ensures IncludesOnly(rules)
    ensures forall step :: Include(step) in rules <==> exists pattern :: pattern in patterns && step in Steps(pattern)
  {
    var includes: seq<string> := [];
    for i := 0 to |patterns|
      invariant forall step :: step in includes <==> exists pattern :: pattern in patterns[..i] && step in Steps(pattern)
    {
      var steps := Steps(patterns[i]);
      ghost var before := includes;
      for j := 0 to |steps|
        invariant forall step :: step in includes <==> step in before || step in steps[..j]
      {
        if steps[j] !in includes {
          includes := includes + [steps[j]];
        }
      }
    }
    assert patterns[..|patterns|] == patterns;
    rules := [];
    for i := 0 to |includes|
      invariant |rules| == i && forall k :: 0 <= k < i ==> rules[k] == Include(includes[k])
    {
      rules := rules + [Include(includes[i])];
    }
    IncludesAre(rules, includes);
    rules := rules + [Exclude("*")];
  }

  method Listed(path: Path, patterns: seq<string>) returns (found: bool)
    ensures found <==> exists pattern :: pattern in patterns && IsListed(path, pattern)
  {
    for i := 0 to |patterns|
      invariant forall pattern :: pattern in patterns[..i] ==> !IsListed(path, pattern)
    {
      if IsListed(path, patterns[i]) {
        return true;
      }
    }
    return false;
  }

  // ---- What the compiled patterns match ----

  /** A joined path neither starts nor ends with a slash, nor with two stars. */
  lemma {:induction false} JoinEnds(parts: seq<string>)
    requires PartsOk(parts)
    ensures var j := Join(parts);
            && j != "" && j[0] != '/' && j[|j| - 1] != '/'
            && (|j| > 1 ==> j[|j| - 2] != '*' || j[|j| - 1] != '*')
  {
    assert parts[0] in parts && parts[0][0] in parts[0] && parts[0][|parts[0]| - 1] in parts[0];
    if |parts| > 1 {
      JoinEnds(parts[1..]);
      var j, rest := Join(parts), Join(parts[1..]);
      assert j == parts[0] + ("/" + rest);
      assert j[0] == parts[0][0] && j[|j| - 1] == rest[|rest| - 1];
      assert |rest| > 1 ==> j[|j| - 2] == rest[|rest| - 2];
      assert |rest| == 1 ==> j[|j| - 2] == '/';
    }
  }

  lemma StripText(parts: seq<string>, directory: bool)
    requires PartsOk(parts)
    ensures Strip(PatternText(parts, directory)) == Join(parts)
    ensures EndsWith(PatternText(parts, directory), "/") == directory
  {
    var j, text := Join(parts), PatternText(parts, directory);
    var rest := j + if directory then "/" else "";
    JoinEnds(parts);
    assert text[0] == '/' && text[1..] == rest && rest[0] == j[0];
    assert directory ==> rest[|rest| - 1] == '/' && rest[..|rest| - 1] == j;
    assert !directory ==> rest == j;
    assert StripLeft(rest) == rest && StripLeft(text) == rest && StripRight(j) == j && StripRight(rest) == j;
    assert text[|text| - 1..] == [text[|text| - 1]] && text[|text| - 1] == rest[|rest| - 1];
  }

  /** What a pattern names, by its parts. */
  predicate Names(parts: seq<string>, directory: bool, path: Path) {
    (if directory then |path| > |parts| else |path| == |parts|) && AllWild(parts, path)
  }

  lemma ListedIs(parts: seq<string>, directory: bool, path: Path)
    requires PartsOk(parts)
    ensures IsListed(path, PatternText(parts, directory)) == Names(parts, directory, path)
  {
    StripText(parts, directory);
    SplitJoin(parts);
    hide Strip, Split, Join, EndsWith;
  }

  /** A pattern without a star lists its own path, or everything below it when it ends with a slash. */
  lemma ListedPlain(parts: seq<string>, directory: bool, path: Path)
    requires PartsOk(parts) && forall i :: 0 <= i < |parts| ==> '*' !in parts[i]
    ensures IsListed(path, PatternText(parts, directory)) <==> if directory then parts < path else path == parts
  {
    ListedIs(parts, directory, path);
    forall i | 0 <= i < |parts| && i < |path|
      ensures Wild(parts[i], path[i]) <==> path[i] == parts[i]
    {
      WildPlain(parts[i], path[i]);
    }
    hide IsListed, PatternText, Wild;
  }

  lemma LastStep(body: string)
    requires body != "" && body[|body| - 1] == '/'
    ensures EndsWith(body, "/") && !EndsWith(body, "/***")
  {
    assert body[|body| - 1..] == "/";
    assert |body| >= 4 ==> body[|body| - 4..][3] == body[|body| - 1];
  }

  lemma StepBody(j: string)
    ensures var text, body := "/" + j + "/", j + "/";
            && text != "" && text[0] == '/' && text[1..] == body && body[..|body| - 1] == j
            && EndsWith(body, "/") && !EndsWith(body, "/***")
  {
    LastStep(j + "/");
  }

  /** A step on the way matches that directory and nothing else. */
  lemma StepMatches(parts: seq<string>, path: Path, directory: bool)
    requires PartsOk(parts)
    ensures RuleMatches("/" + Join(parts) + "/", path, directory) <==> directory && |path| == |parts| && AllWild(parts, path)
  {
    SplitJoin(parts);
    StepBody(Join(parts));
    hide Join, Split, AllWild, EndsWith;
  }

  lemma WholeBody(j: string)
    ensures var text, body := "/" + j + "/***", j + "/***";
            && text != "" && text[0] == '/' && text[1..] == body && EndsWith(body, "/***") && body[..|body| - 4] == j
  {
    var body := j + "/***";
    assert body[|body| - 4..] == "/***";
  }

  /** The last step of a directory pattern matches the directory and everything in it. */
  lemma WholeMatches(parts: seq<string>, path: Path, directory: bool)
    requires PartsOk(parts)
    ensures RuleMatches("/" + Join(parts) + "/***", path, directory) <==>
            (|path| > |parts| || (directory && |path| == |parts|)) && AllWild(parts, path)
  {
    SplitJoin(parts);
    WholeBody(Join(parts));
    hide Join, Split, AllWild, EndsWith;
  }

  /** The last step of any other pattern matches what it names. */
  lemma ExactMatches(parts: seq<string>, path: Path, directory: bool)
    requires PartsOk(parts)
    ensures RuleMatches("/" + Join(parts) + "", path, directory) <==> |path| == |parts| && AllWild(parts, path)
  {
    var j := Join(parts);
    var text := "/" + j + "";
    SplitJoin(parts);
    JoinEnds(parts);
    NoStep(j);
    assert text[0] == '/' && text[1..] == j;
    hide Join, Split, AllWild, EndsWith;
  }

  lemma NoStep(body: string)
    requires body != "" && body[|body| - 1] != '/' && (|body| > 1 ==> body[|body| - 2] != '*' || body[|body| - 1] != '*')
    ensures !EndsWith(body, "/") && !EndsWith(body, "/***")
  {
    assert |body| >= 1 ==> body[|body| - 1..][0] == body[|body| - 1];
    assert |body| >= 4 ==> body[|body| - 4..][2] == body[|body| - 2] && body[|body| - 4..][3] == body[|body| - 1];
  }

  // ---- The two readings agree ----

  lemma {:induction false} StarMatches(name: Name)
    ensures Wild("*", name)
  {
    if name != "" {
      StarMatches(name[1..]);
    }
  }

  /** Then what is taken is what one of them includes. */
  lemma {:induction false} TakenIs(rules: seq<Rule>, path: Path, directory: bool)
    requires IncludesOnly(rules) && path != []
    ensures Taken(rules, path, directory) <==> exists step :: Include(step) in rules && RuleMatches(step, path, directory)
  {
    if |rules| == 1 {
      StarMatches(path[|path| - 1]);
    } else {
      var rest := rules[1..];
      TakenIs(rest, path, directory);
      assert forall rule :: rule in rules <==> rule == rules[0] || rule in rest;
      assert rules[0] == Include(rules[0].text);
      hide RuleMatches;
    }
  }

  /** The steps of a pattern: every directory on the way, and what it names. */
  lemma StepsAre(parts: seq<string>, directory: bool, step: string)
    requires PartsOk(parts)
    ensures step in Steps(PatternText(parts, directory)) <==>
            (exists d :: 0 < d < |parts| && step == "/" + Join(parts[..d]) + "/")
            || step == "/" + Join(parts) + if directory then "/***" else ""
  {
    StripText(parts, directory);
    SplitJoin(parts);
    var steps := Steps(PatternText(parts, directory));
    var n := |parts| - 1;
    hide PatternText, Strip, Split, EndsWith, Join;
    assert |steps| == n + 1;
    assert forall d :: 0 < d < |parts| ==> steps[d - 1] == "/" + Join(parts[..d]) + "/";
    assert steps[n] == "/" + Join(parts) + if directory then "/***" else "";
    if step in steps {
      var i :| 0 <= i < |steps| && steps[i] == step;
      assert i < n ==> steps[i] == "/" + Join(parts[..i + 1]) + "/";
    }
  }

  lemma PartsOkPrefix(parts: seq<string>, d: nat)
    requires PartsOk(parts) && 0 < d <= |parts|
    ensures PartsOk(parts[..d])
  {
  }

  /** A pattern's steps take a file only when the pattern names it. */
  lemma StepTakesFile(parts: seq<string>, whole: bool, step: string, path: Path)
    requires PartsOk(parts) && step in Steps(PatternText(parts, whole)) && RuleMatches(step, path, false)
    ensures Names(parts, whole, path)
  {
    StepsAre(parts, whole, step);
    forall d | 0 < d < |parts|
      ensures !RuleMatches("/" + Join(parts[..d]) + "/", path, false)
    {
      PartsOkPrefix(parts, d);
      StepMatches(parts[..d], path, false);
    }
    if whole {
      WholeMatches(parts, path, false);
    } else {
      ExactMatches(parts, path, false);
    }
    hide RuleMatches, Steps, Join, PartsOk;
  }

  /** The last step of a pattern that names a file takes it. */
  lemma NamedIsTaken(parts: seq<string>, whole: bool, path: Path) returns (step: string)
    requires PartsOk(parts) && Names(parts, whole, path)
    ensures step in Steps(PatternText(parts, whole)) && RuleMatches(step, path, false)
  {
    step := "/" + Join(parts) + if whole then "/***" else "";
    StepsAre(parts, whole, step);
    if whole {
      WholeMatches(parts, path, false);
    } else {
      ExactMatches(parts, path, false);
    }
    hide RuleMatches, Steps, Join, PartsOk;
  }

  /** A pattern that names a file has a step for every directory on the way to it. */
  lemma WayIsTaken(parts: seq<string>, whole: bool, path: Path, k: nat) returns (step: string)
    requires PartsOk(parts) && Names(parts, whole, path) && 0 < k < |path|
    ensures step in Steps(PatternText(parts, whole)) && RuleMatches(step, path[..k], true)
  {
    assert forall i :: 0 <= i < k ==> path[..k][i] == path[i];
    if k < |parts| {
      PartsOkPrefix(parts, k);
      step := "/" + Join(parts[..k]) + "/";
      StepMatches(parts[..k], path[..k], true);
      StepsAre(parts, whole, step);
    } else {
      assert whole;
      step := "/" + Join(parts) + "/***";
      WholeMatches(parts, path[..k], true);
      StepsAre(parts, whole, step);
    }
    hide RuleMatches, Steps, Join, PartsOk;
  }

  /** The compiled rules copy exactly the files the patterns list: first-match rules and directories on the way included. */
  lemma CopiedIsListed(patterns: seq<string>, rules: seq<Rule>, path: Path)
    requires forall pattern :: pattern in patterns ==> IsPattern(pattern)
    requires IncludesOnly(rules) && path != []
    requires forall step :: Include(step) in rules <==> exists pattern :: pattern in patterns && step in Steps(pattern)
    ensures Copied(rules, path) <==> exists pattern :: pattern in patterns && IsListed(path, pattern)
  {
    TakenIs(rules, path, false);
    hide RuleMatches, Steps, IsListed, Taken, PartsOk, PatternText;
    if Taken(rules, path, false) {
      var step :| Include(step) in rules && RuleMatches(step, path, false);
      var pattern :| pattern in patterns && step in Steps(pattern);
      var parts, whole :| PartsOk(parts) && pattern == PatternText(parts, whole);
      StepTakesFile(parts, whole, step, path);
      ListedIs(parts, whole, path);
    }
    if pattern :| pattern in patterns && IsListed(path, pattern) {
      var parts, whole :| PartsOk(parts) && pattern == PatternText(parts, whole);
      ListedIs(parts, whole, path);
      var step := NamedIsTaken(parts, whole, path);
      forall k | 0 < k < |path|
        ensures Taken(rules, path[..k], true)
      {
        var way := WayIsTaken(parts, whole, path, k);
        TakenIs(rules, path[..k], true);
      }
    }
  }
}
