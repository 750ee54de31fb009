/** The protected paths of a project: what its patterns keep out of the copy, and what they keep a removal from. */
module ProtectedPaths {
  import D = DeployHistory
  import opened DeployRemovals
  import opened PathFilters
  import opened Wrappers

  // ---- The two readings of the patterns ----

  /** fnmatch on the whole name, where a star spans parts: the name is protected, or lies inside a protected one. */
  predicate IsProtected(patterns: seq<string>, path: Path)
    requires path != []
  {
    exists p :: p in patterns && (Wild(StripRight(p), "/" + Join(path)) || Wild(p + "*", "/" + Join(path)))
  }

  /** rsync's reading of the same patterns, as excludes. */
  predicate IsExcluded(patterns: seq<string>, path: Path, directory: bool) {
    exists p :: p in patterns && RuleMatches(p, path, directory)
  }

  /** A pattern matches two texts one behind the other, if its halves match them. */
  lemma {:induction false} WildConcat(a: string, b: string, x: string, y: string)
    requires Wild(a, x) && Wild(b, y)
    ensures Wild(a + b, x + y)
    decreases |a| + |x|
  {
    if a == "" {
      assert a + b == b && x + y == y;
    } else {
      assert (a + b)[1..] == a[1..] + b;
      if a[0] == '*' && Wild(a[1..], x) {
        WildConcat(a[1..], b, x, y);
      } else {
        assert (x + y)[1..] == x[1..] + y;
        WildConcat(if a[0] == '*' then a else a[1..], b, x[1..], y);
      }
    }
  }

  lemma SlashMatches(p: string, s: string)
    requires Wild(p, s)
    ensures Wild("/" + p, "/" + s)
  {
    assert ("/" + p)[1..] == p && ("/" + s)[1..] == s;
  }

  /** Names matched part by part are matched as a whole. */
  lemma {:induction false} WildJoin(parts: seq<string>, path: Path)
    requires parts != [] && |path| == |parts| && AllWild(parts, path)
    ensures Wild(Join(parts), Join(path))
  {
    if |parts| > 1 {
      assert forall i :: 0 <= i < |parts[1..]| ==> parts[1..][i] == parts[i + 1] && path[1..][i] == path[i + 1];
      WildJoin(parts[1..], path[1..]);
      hide Wild;
      SlashMatches(Join(parts[1..]), Join(path[1..]));
      WildConcat(parts[0], "/" + Join(parts[1..]), path[0], "/" + Join(path[1..]));
    }
  }

  lemma StripDirectory(j: string)
    requires j != "" && j[|j| - 1] != '/'
    ensures StripRight("/" + j) == "/" + j && StripRight("/" + j + "/") == "/" + j
  {
    var s := "/" + j;
    assert s[|s| - 1] == j[|j| - 1];
    assert (s + "/")[..|s|] == s;
  }

  /** What a pattern excludes has the pattern's form, and is protected. */
  lemma PatternProtects(parts: seq<string>, whole: bool, path: Path, directory: bool)
    requires PartsOk(parts) && RuleMatches(PatternText(parts, whole), path, directory)
    ensures |path| == |parts| && Wild("/" + Join(parts), "/" + Join(path))
    ensures StripRight(PatternText(parts, whole)) == "/" + Join(parts)
  {
    if whole {
      StepMatches(parts, path, directory);
    } else {
      ExactMatches(parts, path, directory);
    }
    JoinEnds(parts);
    StripDirectory(Join(parts));
    assert "/" + Join(parts) + "" == "/" + Join(parts);
    hide RuleMatches, Join, StripRight, Wild;
    WildJoin(parts, path);
    SlashMatches(Join(parts), Join(path));
  }

  lemma TextWithStar(parts: seq<string>, whole: bool)
    requires parts != []
    ensures PatternText(parts, whole) + "*" == ("/" + Join(parts)) + if whole then "/*" else "*"
  {
    hide Join;
  }

  /** A star alone matches a name below a directory, whether the slash is the pattern's or not. */
  lemma StarBelow(rest: string)
    ensures Wild("/*", "/" + rest) && Wild("*", "/" + rest)
  {
    StarMatches(rest);
    StarMatches("/" + rest);
    SlashMatches("*", rest);
    assert "/" + "*" == "/*";
    hide Wild;
  }

  lemma BelowText(path: Path, k: nat)
    requires 0 < k < |path|
    ensures ("/" + Join(path[..k])) + ("/" + Join(path[k..])) == "/" + Join(path)
  {
    JoinSplit(path, k);
    hide Join;
  }

  /** And so is everything below it. */
  lemma PatternProtectsBelow(parts: seq<string>, whole: bool, path: Path, k: nat)
    requires PartsOk(parts) && 0 < k < |path| && RuleMatches(PatternText(parts, whole), path[..k], true)
    ensures Wild(PatternText(parts, whole) + "*", "/" + Join(path))
  {
    PatternProtects(parts, whole, path[..k], true);
    hide *;
    TextWithStar(parts, whole);
    BelowText(path, k);
    StarBelow(Join(path[k..]));
    WildConcat("/" + Join(parts), if whole then "/*" else "*", "/" + Join(path[..k]), "/" + Join(path[k..]));
  }

  lemma {:induction false} JoinSplit(path: Path, k: nat)
    requires 0 < k < |path|
    ensures Join(path) == Join(path[..k]) + ("/" + Join(path[k..]))
  {
    if k == 1 {
      assert path[..1] == [path[0]];
    } else {
      JoinSplit(path[1..], k - 1);
      assert path[1..][..k - 1] == path[..k][1..] && path[1..][k - 1..] == path[k..];
      assert path[0] + ("/" + (Join(path[1..][..k - 1]) + ("/" + Join(path[k..])))) ==
             path[0] + ("/" + Join(path[1..][..k - 1])) + ("/" + Join(path[k..]));
    }
  }

  // ---- What a pattern without a star protects ----

  lemma PlainThenStar(plain: string, name: string)
    requires '*' !in plain
    ensures Wild(plain + "*", name) <==> plain <= name
  {
    assert plain + "*" == plain + ("*" + "");
    WildStar(plain, "", name);
    if plain <= name {
      WildPlain(plain, name[..|plain|]);
      assert name[|name|..] == "" && Wild("", name[|name|..]);
      assert Wild(plain, name[..|plain|]);
    }
    if Apart(plain, "", name) {
      var i, k :| 0 <= i <= k <= |name| && Wild(plain, name[..i]) && Wild("", name[k..]);
      WildPlain(plain, name[..i]);
    }
  }

  lemma {:induction false} NoStarInJoin(parts: seq<string>)
    requires parts != [] && forall i :: 0 <= i < |parts| ==> '*' !in parts[i]
    ensures '*' !in Join(parts)
  {
    if |parts| > 1 {
      NoStarInJoin(parts[1..]);
      assert '*' !in parts[0] && '*' !in "/" + Join(parts[1..]);
    }
  }

  /** Of a name and the directory a pattern with a slash at its end names: that directory and all in it. A pattern without
      one protects every name that starts as it does, also a longer one beside it. */
  lemma PlainProtects(parts: seq<string>, whole: bool, path: Path)
    requires PartsOk(parts) && (forall i :: 0 <= i < |parts| ==> '*' !in parts[i]) && path != []
    ensures var own, name := "/" + Join(parts), "/" + Join(path);
            IsProtected([PatternText(parts, whole)], path) <==> if whole then name == own || own + "/" <= name else own <= name
  {
    var own, name, text := "/" + Join(parts), "/" + Join(path), PatternText(parts, whole);
    NoStarInJoin(parts);
    JoinEnds(parts);
    StripDirectory(Join(parts));
    assert text == if whole then own + "/" else own;
    assert '*' !in own && '*' !in own + "/" && StripRight(text) == own;
    hide Join, Wild, StripRight, PatternText;
    WildPlain(own, name);
    PlainThenStar(text, name);
    assert text in [text];
  }

  /** For instance, a protected file also protects one beside it whose name goes on. */
  lemma NeighbourProtected()
    ensures IsProtected(["/a"], ["ab"]) && !IsExcluded(["/a"], ["ab"], false)
  {
    var parts := ["a"];
    assert PartsOk(parts) && '*' !in parts[0];
    assert PatternText(parts, false) == "/a" && Join(["ab"]) == "ab" && Join(parts) == "a";
    assert ("/" + "ab")[..2] == "/" + "a";
    PlainProtects(parts, false, ["ab"]);
    ExactMatches(parts, ["ab"], false);
    assert "/" + Join(parts) + "" == "/a";
    WildPlain("a", "ab");
    assert |"ab"| == 2 && |"a"| == 1;
    hide RuleMatches, Join, Wild, IsProtected, PatternText;
    assert !AllWild(parts, ["ab"]) by {
      assert parts[0] == "a" && ["ab"][0] == "ab";
    }
  }

  /** Patterns as the settings give them, once checked. */
  ghost predicate PatternsOk(patterns: seq<string>) {
    forall p :: p in patterns ==> IsPattern(p)
  }

  /** A name that an exclude matches, or a directory on the way to it, is protected. */
  lemma ExcludedIsProtected(patterns: seq<string>, path: Path, k: nat, directory: bool)
    requires PatternsOk(patterns) && 0 < k <= |path| && (k < |path| ==> directory) && IsExcluded(patterns, path[..k], directory)
    ensures IsProtected(patterns, path)
  {
    hide RuleMatches, Wild, StripRight, Join, PatternText;
    var p :| p in patterns && RuleMatches(p, path[..k], directory);
    var parts: seq<string>, whole :| PartsOk(parts) && p == PatternText(parts, whole);
    if k == |path| {
      assert path[..k] == path;
      PatternProtects(parts, whole, path, directory);
    } else {
      PatternProtectsBelow(parts, whole, path, k);
    }
  }

  // ---- Deploys under such patterns ----

  function PathOf(f: File): (path: Path)
    ensures |path| == |f.parts|
  {
    seq(|f.parts|, i requires 0 <= i < |f.parts| => f.parts[i].text)
  }

  /** Releases deployed under a project's protected paths. */
  function EnvironmentOf(ships: Manifests, patterns: seq<string>): D.Environment {
    D.Environment(ships, (f: File) => f.parts != [] && IsProtected(patterns, PathOf(f)),
                  (f: File, directory: bool) => f.parts != [] && IsExcluded(patterns, PathOf(f), directory))
  }

  lemma PathPrefix(f: File, k: nat)
    requires k <= |f.parts|
    ensures PathOf(File(f.parts[..k])) == PathOf(f)[..k]
  {
  }

  /** What the copy leaves out is protected: every file it does not send, and every directory it does not get to. */
  lemma UnsentIsProtected(ships: Manifests, patterns: seq<string>, f: File)
    requires PatternsOk(patterns) && f.parts != []
    ensures var env := EnvironmentOf(ships, patterns);
            !D.IsSent(env, f) || !D.Entered(env, f) ==> env.protected(f)
  {
    hide IsExcluded, IsProtected, PatternsOk;
    var env, n := EnvironmentOf(ships, patterns), |f.parts|;
    assert f.parts[..n] == f.parts;
    forall k, directory | 0 < k <= n && (k < n ==> directory) && env.excludes(File(f.parts[..k]), directory)
      ensures env.protected(f)
    {
      PathPrefix(f, k);
      ExcludedIsProtected(patterns, PathOf(f), k, directory);
    }
  }

  /** So no directory of a release is left out unprotected. */
  lemma PatternsProtect(ships: Manifests, patterns: seq<string>)
    requires PatternsOk(patterns)
    ensures D.DirectoriesProtected(EnvironmentOf(ships, patterns))
  {
    var env := EnvironmentOf(ships, patterns);
    hide D.IsSent, D.Entered, PatternsOk, IsExcluded, IsProtected;
    forall c, d | c in env.ships && Safe(d) && D.LeftOut(env, c, d)
      ensures env.protected(d)
    {
      UnsentIsProtected(ships, patterns, d);
    }
  }

  /** Under checked patterns without two stars in a row no sequence of deploys, failures, kills, rollbacks, prunes and
      health checks forgets a stale file. */
  lemma DeploysKeep(ships: Manifests, patterns: seq<string>, s: D.State, steps: seq<D.Step>)
    requires PatternsOk(patterns) && D.ReleasesOk(EnvironmentOf(ships, patterns))
    requires D.Initial(s) && D.After(EnvironmentOf(ships, patterns), s, steps).Some?
    ensures var env := EnvironmentOf(ships, patterns);
            var last := D.After(env, s, steps).value;
            D.Invariant(env, last) && D.NoneForgotten(env, last.history, last.target)
  {
    var env := EnvironmentOf(ships, patterns);
    PatternsProtect(ships, patterns);
    D.InitialOk(env, s);
    hide *;
    D.EveryRunKeeps(env, s, steps);
  }

  // ---- Three stars ----

  function Letters(p: string): nat {
    if p == "" then 0 else (if p[0] == '*' then 0 else 1) + Letters(p[1..])
  }

  /** A pattern matches no text that is shorter than its own characters. */
  lemma {:induction false} WildLength(p: string, s: string)
    requires Wild(p, s)
    ensures Letters(p) <= |s|
    decreases |p| + |s|
  {
    if p != "" {
      if p[0] == '*' && !Wild(p[1..], s) {
        WildLength(p, s[1..]);
      } else if p[0] == '*' {
        WildLength(p[1..], s);
      } else {
        WildLength(p[1..], s[1..]);
      }
    }
  }

  const STARS := "/a/***"

  lemma StarsExclude()
    ensures IsExcluded([STARS], ["a"], true)
  {
    WholeBody("a");
    SplitOne("a");
    assert "/" + "a" + "/***" == STARS && Wild("a", "a");
    assert STARS in [STARS] && RuleMatches(STARS, ["a"], true);
  }

  lemma StarsLetters()
    ensures Letters(STARS) == 3 && Letters(STARS + "*") == 3
  {
    assert Letters("") == 0 && Letters("*") == 0 && Letters("**") == 0 && Letters("***") == 0 && Letters("****") == 0;
    assert "/***"[1..] == "***" && "a/***"[1..] == "/***" && STARS[1..] == "a/***";
    assert Letters("/***") == 1 && Letters("a/***") == 2;
    assert "/****"[1..] == "****" && "a/****"[1..] == "/****" && (STARS + "*")[1..] == "a/****";
    assert Letters("/****") == 1 && Letters("a/****") == 2;
  }

  lemma StarsProtectNot()
    ensures !IsProtected([STARS], ["a"])
  {
    StarsLetters();
    assert StripRight(STARS) == STARS && Join(["a"]) == "a";
    hide Wild, Letters, StripRight, Join;
    if IsProtected([STARS], ["a"]) {
      var p :| p in [STARS] && (Wild(StripRight(p), "/" + Join(["a"])) || Wild(p + "*", "/" + Join(["a"])));
      WildLength(if Wild(StripRight(p), "/" + Join(["a"])) then StripRight(p) else p + "*", "/a");
    }
  }

  /** The reserve is needed: the pattern a/ with three stars keeps the directory a out of the copy, and does not protect a
      file of that name. A release with the file a, and then one with a/b: the file stays and is forgotten. */
  lemma StarsForget()
    ensures var c, d, a := Commit("1"), Commit("2"), File([Part("a")]);
            var env := EnvironmentOf(map[c := {a}, d := {File([Part("a"), Part("b")])}], [STARS]);
            var last := D.After(env, D.Start(a), D.TwoDeploys(c, d, D.Stale(env, c, d), D.Left(env, c, d, a)));
            && D.ReleasesOk(env) && D.Initial(D.Start(a)) && last.Some?
            && !D.NoneForgotten(env, last.value.history, last.value.target)
  {
    var c, d, a, b := Commit("1"), Commit("2"), File([Part("a")]), File([Part("a"), Part("b")]);
    var env := EnvironmentOf(map[c := {a}, d := {b}], [STARS]);
    StarsExclude();
    StarsProtectNot();
    assert PathOf(a) == ["a"];
    assert b.parts[..1] == a.parts && a.parts[..1] == a.parts;
    hide IsExcluded, IsProtected, D.After, D.NoneForgotten, D.TwoDeploys, D.Stale, D.Left;
    assert env.excludes(File(a.parts[..1]), true) && env.excludes(File(b.parts[..1]), true);
    assert !D.Entered(env, a) && !D.IsSent(env, b);
    assert Above(a, b) && D.LeftOut(env, d, a) && Safe(a) && !env.protected(a);
    assert D.Sent(env, d) == {};
    D.Forgets(env, c, d, a);
  }
}
