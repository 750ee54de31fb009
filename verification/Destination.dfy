/** The walk to a destination below the code tree, through relative links that stay inside, on held descriptors. */
module Destination {
  import opened Wrappers

  datatype Part = Part(text: string)

  type Path = seq<Part>

  datatype Node = Directory | Link(target: seq<Part>, absolute: bool) | Other(inode: nat)

  /** What lies below the root, by path; the root itself is a directory. */
  type Tree = map<Path, Node>

  predicate IsDirectory(t: Tree, p: Path) {
    p == [] || (p in t && t[p].Directory?)
  }

  function Parent(p: Path): Path
    requires p != []
  {
    p[..|p| - 1]
  }

  predicate TreeOk(t: Tree) {
    forall p :: p in t ==> p != [] && IsDirectory(t, Parent(p))
  }

  const SELF := Part(".")
  const UP := Part("..")
  const EMPTY := Part("")

  const HOPS := 40

  datatype Refusal = LeavesTree | NoDirectory | LeadsOut | Denied

  // ---- The reference: resolve a path part by part, a link as a whole before what follows it ----

  datatype Walked = Reached(tree: Tree, at: Path, hops: nat) | Refused(tree: Tree, why: Refusal)

  /** denied: the directories the server refuses to create. */
  function Resolve(t: Tree, at: Path, parts: seq<Part>, hops: nat, denied: set<Path>): (w: Walked)
    ensures w.Reached? ==> w.hops <= hops
    decreases hops, |parts|
  {
    if parts == [] then Reached(t, at, hops)
    else
      var part, rest := parts[0], parts[1..];
      var next := at + [part];
      if part == EMPTY || part == SELF then Resolve(t, at, rest, hops, denied)
      else if part == UP then
        if at == [] then Refused(t, LeavesTree) else Resolve(t, Parent(at), rest, hops, denied)
      else if next !in t then
        if next in denied then Refused(t, Denied) else Resolve(t[next := Directory], next, rest, hops, denied)
      else
        match t[next]
        case Directory => Resolve(t, next, rest, hops, denied)
        case Other(_) => Refused(t, NoDirectory)
        case Link(target, absolute) =>
          if hops == 0 || absolute then Refused(t, LeadsOut)
          else
            match Resolve(t, at, target, hops - 1, denied)
            case Refused(u, why) => Refused(u, why)
            case Reached(u, there, left) => Resolve(u, there, rest, left, denied)
  }

  /** Resolving one path after another is resolving their concatenation, with one budget of hops. */
  lemma {:induction false} ResolveConcat(t: Tree, at: Path, a: seq<Part>, b: seq<Part>, hops: nat, denied: set<Path>)
    ensures Resolve(t, at, a + b, hops, denied) ==
            match Resolve(t, at, a, hops, denied)
            case Refused(u, why) => Refused(u, why)
            case Reached(u, there, left) => Resolve(u, there, b, left, denied)
    decreases hops, |a|
  {
    if a == [] {
      assert a + b == b;
    } else {
      var part, rest := a[0], a[1..];
      var next := at + [part];
      assert (a + b)[0] == part && (a + b)[1..] == rest + b;
      if part == EMPTY || part == SELF {
        ResolveConcat(t, at, rest, b, hops, denied);
      } else if part == UP {
        if at != [] {
          ResolveConcat(t, Parent(at), rest, b, hops, denied);
        }
      } else if next !in t {
        if next !in denied {
          ResolveConcat(t[next := Directory], next, rest, b, hops, denied);
        }
      } else {
        match t[next]
        case Directory => ResolveConcat(t, next, rest, b, hops, denied);
        case Other(_) =>
        case Link(target, absolute) =>
          if hops > 0 && !absolute {
            match Resolve(t, at, target, hops - 1, denied)
            case Refused(_, _) =>
            case Reached(u, there, left) => ResolveConcat(u, there, rest, b, left, denied);
          }
      }
    }
  }

  /** Nothing changes but new directories. */
  predicate OnlyNewDirectories(before: Tree, after: Tree) {
    && (forall p :: p in before ==> p in after && after[p] == before[p])
    && (forall p :: p in after && p !in before ==> after[p].Directory?)
  }

  /** Wherever the walk goes it stays in the tree, at a directory, and only adds directories. */
  lemma {:induction false} ResolveStaysInside(t: Tree, at: Path, parts: seq<Part>, hops: nat, denied: set<Path>)
    requires TreeOk(t) && IsDirectory(t, at)
    ensures var w := Resolve(t, at, parts, hops, denied);
            && TreeOk(w.tree) && OnlyNewDirectories(t, w.tree)
            && (w.Reached? ==> IsDirectory(w.tree, w.at))
    decreases hops, |parts|
  {
    if parts != [] {
      var part, rest := parts[0], parts[1..];
      var next := at + [part];
      assert Parent(next) == at;
      if part == EMPTY || part == SELF {
        ResolveStaysInside(t, at, rest, hops, denied);
      } else if part == UP {
        if at != [] {
          ResolveStaysInside(t, Parent(at), rest, hops, denied);
        }
      } else if next !in t {
        if next !in denied {
          ResolveStaysInside(t[next := Directory], next, rest, hops, denied);
        }
      } else {
        match t[next]
        case Directory => ResolveStaysInside(t, next, rest, hops, denied);
        case Other(_) =>
        case Link(target, absolute) =>
          if hops > 0 && !absolute {
            ResolveStaysInside(t, at, target, hops - 1, denied);
            match Resolve(t, at, target, hops - 1, denied)
            case Refused(_, _) =>
            case Reached(u, there, left) => ResolveStaysInside(u, there, rest, left, denied);
          }
      }
    }
  }

  // ---- Paths through directories, and chains of links ----

  predicate OnlyDirectories(t: Tree) {
    forall p :: p in t ==> t[p].Directory?
  }

  /** How far below its start a path ends, up counted as down again. */
  function Level(parts: seq<Part>): int {
    if parts == [] then 0
    else (if parts[0] == UP then -1 else if parts[0] == SELF || parts[0] == EMPTY then 0 else 1) + Level(parts[1..])
  }

  /** No part of the path comes out above the root. */
  ghost predicate StaysBelow(depth: nat, parts: seq<Part>) {
    forall k :: 0 <= k <= |parts| ==> depth + Level(parts[..k]) >= 0
  }

  lemma StaysBelowFirst(depth: nat, parts: seq<Part>)
    requires parts != []
    ensures var next := depth + Level([parts[0]]);
            StaysBelow(depth, parts) <==> next >= 0 && StaysBelow(next, parts[1..])
  {
    var next := depth + Level([parts[0]]);
    forall k | 0 < k <= |parts|
      ensures Level(parts[..k]) == Level([parts[0]]) + Level(parts[1..][..k - 1])
    {
      assert parts[..k][1..] == parts[1..][..k - 1];
    }
    if StaysBelow(depth, parts) {
      assert parts[1..][..0] == [] && depth + Level(parts[..1]) >= 0;
      if next >= 0 {
        forall k | 0 <= k <= |parts[1..]|
          ensures next + Level(parts[1..][..k]) >= 0
        {
          assert depth + Level(parts[..k + 1]) >= 0;
        }
      }
    }
  }

  /** Through directories alone a path is refused exactly when it leads out of the tree on its way, and it ends as deep as
      its names and its steps up say. */
  lemma {:induction false} ResolveThroughDirectories(t: Tree, at: Path, parts: seq<Part>, hops: nat)
    requires OnlyDirectories(t)
    ensures var w := Resolve(t, at, parts, hops, {});
            && (w.Reached? <==> StaysBelow(|at|, parts))
            && (w.Reached? ==> |w.at| == |at| + Level(parts) && w.hops == hops)
            && (w.Refused? ==> w.why == LeavesTree)
    decreases |parts|
  {
    if parts == [] {
      assert parts[..0] == [];
    } else {
      var part, rest := parts[0], parts[1..];
      var next := at + [part];
      assert [part][1..] == [];
      StaysBelowFirst(|at|, parts);
      hide StaysBelow;
      if part == EMPTY || part == SELF {
        ResolveThroughDirectories(t, at, rest, hops);
      } else if part == UP {
        if at != [] {
          ResolveThroughDirectories(t, Parent(at), rest, hops);
        }
      } else {
        ResolveThroughDirectories(if next in t then t else t[next := Directory], next, rest, hops);
      }
    }
  }

  predicate IsName(part: Part) {
    part != UP && part != SELF && part != EMPTY
  }

  /** One of the directories a path of names leads through. */
  ghost predicate OnWay(at: Path, names: seq<Part>, p: Path) {
    exists k :: 0 < k <= |names| && p == at + names[..k]
  }

  lemma OnWayFirst(at: Path, names: seq<Part>, p: Path)
    requires names != []
    ensures OnWay(at, names, p) <==> p == at + [names[0]] || OnWay(at + [names[0]], names[1..], p)
  {
    var next, rest := at + [names[0]], names[1..];
    forall k | 0 < k <= |names|
      ensures at + names[..k] == next + rest[..k - 1]
    {
      assert names[..k] == [names[0]] + rest[..k - 1];
    }
    assert next + rest[..0] == next && at + names[..1] == next;
    if OnWay(next, rest, p) {
      var k :| 0 < k <= |rest| && p == next + rest[..k];
      assert p == at + names[..k + 1];
    }
    if OnWay(at, names, p) {
      var k :| 0 < k <= |names| && p == at + names[..k];
      assert k > 1 ==> p == next + rest[..k - 1];
    }
  }

  /** Names lead down one by one, and the directories that were missing on the way are there. */
  lemma {:induction false} ResolveNames(t: Tree, at: Path, names: seq<Part>, hops: nat)
    requires OnlyDirectories(t) && forall i :: 0 <= i < |names| ==> IsName(names[i])
    ensures var w := Resolve(t, at, names, hops, {});
            && w.Reached? && w.at == at + names && OnlyDirectories(w.tree)
            && forall p :: p in w.tree <==> p in t || OnWay(at, names, p)
    decreases |names|
  {
    if names == [] {
      assert at + [] == at;
    } else {
      var next, rest := at + [names[0]], names[1..];
      ResolveNames(if next in t then t else t[next := Directory], next, rest, hops);
      assert IsName(names[0]) && next + rest == at + names;
      hide OnWay;
      forall p: Path
        ensures OnWay(at, names, p) <==> p == next || OnWay(next, rest, p)
      {
        OnWayFirst(at, names, p);
      }
    }
  }

  /** Links one to the next, the last one to a directory. */
  predicate IsChain(t: Tree, at: Path, names: seq<Part>) {
    && names != [] && (forall i :: 0 <= i < |names| ==> IsName(names[i]) && at + [names[i]] in t)
    && (forall i :: 0 <= i < |names| - 1 ==> t[at + [names[i]]] == Link([names[i + 1]], false))
    && t[at + [names[|names| - 1]]].Directory?
  }

  /** A chain of links takes one hop for each; with fewer left it is refused. */
  lemma {:induction false} ResolveChain(t: Tree, at: Path, names: seq<Part>, hops: nat, denied: set<Path>)
    requires IsChain(t, at, names)
    ensures var links := |names| - 1;
            Resolve(t, at, [names[0]], hops, denied) ==
            if links <= hops then Reached(t, at + [names[links]], hops - links) else Refused(t, LeadsOut)
    decreases |names|
  {
    assert IsName(names[0]) && [names[0]][1..] == [];
    if |names| > 1 {
      assert t[at + [names[0]]] == Link([names[1]], false);
      if hops > 0 {
        var rest := names[1..];
        assert rest[|rest| - 1] == names[|names| - 1];
        ResolveChain(t, at, rest, hops - 1, denied);
      }
    }
  }

  /** A link to itself is refused however many hops are left, and so is an absolute one. */
  lemma {:induction false} ResolveLoop(t: Tree, at: Path, name: Part, rest: seq<Part>, hops: nat, denied: set<Path>)
    requires IsName(name) && at + [name] in t
    requires t[at + [name]] == Link([name], false) || (t[at + [name]].Link? && t[at + [name]].absolute)
    ensures Resolve(t, at, [name] + rest, hops, denied) == Refused(t, LeadsOut)
    decreases hops
  {
    assert ([name] + rest)[0] == name && [name] + [] == [name];
    if hops > 0 && !t[at + [name]].absolute {
      ResolveLoop(t, at, name, [], hops - 1, denied);
    }
  }

  // ---- The walk itself: a stack of open descriptors and the parts still pending ----

  type Descriptor = nat

  datatype Opened = Open(fd: Descriptor) | Missing | NotADirectory

  lemma ResolveNothing(t: Tree, at: Path, hops: nat, denied: set<Path>)
    ensures Resolve(t, at, [], hops, denied) == Reached(t, at, hops)
  {
  }

  lemma ResolveSkip(t: Tree, at: Path, pending: seq<Part>, hops: nat, denied: set<Path>)
    requires pending != [] && (pending[0] == EMPTY || pending[0] == SELF)
    ensures Resolve(t, at, pending, hops, denied) == Resolve(t, at, pending[1..], hops, denied)
  {
  }

  lemma ResolveUp(t: Tree, at: Path, pending: seq<Part>, hops: nat, denied: set<Path>)
    requires pending != [] && pending[0] == UP
    ensures Resolve(t, at, pending, hops, denied) ==
            if at == [] then Refused(t, LeavesTree) else Resolve(t, Parent(at), pending[1..], hops, denied)
  {
  }

  lemma ResolveEnter(t: Tree, at: Path, pending: seq<Part>, hops: nat, denied: set<Path>)
    requires pending != [] && pending[0] !in {EMPTY, SELF, UP}
    requires at + [pending[0]] in t ==> t[at + [pending[0]]].Directory?
    ensures var next := at + [pending[0]];
            Resolve(t, at, pending, hops, denied) ==
            if next in t then Resolve(t, next, pending[1..], hops, denied)
            else if next in denied then Refused(t, Denied)
            else Resolve(t[next := Directory], next, pending[1..], hops, denied)
  {
  }

  /** A link's target goes before the parts still pending. */
  lemma ResolveLink(t: Tree, at: Path, pending: seq<Part>, hops: nat, denied: set<Path>)
    requires pending != [] && pending[0] !in {EMPTY, SELF, UP} && at + [pending[0]] in t && !t[at + [pending[0]]].Directory?
    ensures var node := t[at + [pending[0]]];
            Resolve(t, at, pending, hops, denied) ==
            if node.Other? then Refused(t, NoDirectory)
            else if hops == 0 || node.absolute then Refused(t, LeadsOut)
            else Resolve(t, at, node.target + pending[1..], hops - 1, denied)
  {
    var node := t[at + [pending[0]]];
    if node.Link? && hops > 0 && !node.absolute {
      ResolveConcat(t, at, node.target, pending[1..], hops - 1, denied);
    }
  }

  datatype Stack = Empty | Push(below: Stack, fd: Descriptor)

  function Descriptors(stack: Stack): set<Descriptor> {
    if stack.Empty? then {} else Descriptors(stack.below) + {stack.fd}
  }

  /** The stack holds the directories from the root down to at, and beyond those only what was open before is open. */
  predicate Stacked(stack: Stack, at: Path, open: map<Descriptor, Path>, before: map<Descriptor, Path>) {
    match stack
    case Empty => false
    case Push(Empty, fd) => at == [] && fd !in before && open == before[fd := []]
    case Push(below, fd) =>
      at != [] && fd in open && fd !in before && open[fd] == at && Stacked(below, Parent(at), open - {fd}, before)
  }

  lemma StackedRoot(open: map<Descriptor, Path>, before: map<Descriptor, Path>, root: Descriptor)
    requires root !in before && open == before[root := []]
    ensures Stacked(Push(Empty, root), [], open, before)
  {
  }

  lemma StackedPush(stack: Stack, at: Path, open: map<Descriptor, Path>, before: map<Descriptor, Path>, fd: Descriptor, name: Part)
    requires Stacked(stack, at, open, before) && fd !in open
    ensures Stacked(Push(stack, fd), at + [name], open[fd := at + [name]], before)
  {
    StackedOpen(stack, at, open, before);
    assert open[fd := at + [name]] - {fd} == open;
    assert Parent(at + [name]) == at;
  }

  lemma StackedTop(stack: Stack, at: Path, open: map<Descriptor, Path>, before: map<Descriptor, Path>)
    requires Stacked(stack, at, open, before)
    ensures stack.Push? && stack.fd in open && open[stack.fd] == at && (at == [] <==> stack.below.Empty?)
    ensures at != [] ==> Stacked(stack.below, Parent(at), open - {stack.fd}, before)
  {
  }

  /** The stack's descriptors are open ones, and closing them leaves what was open before. */
  lemma {:induction false} StackedOpen(stack: Stack, at: Path, open: map<Descriptor, Path>, before: map<Descriptor, Path>)
    requires Stacked(stack, at, open, before)
    ensures open.Keys == before.Keys + Descriptors(stack) && before.Keys !! Descriptors(stack)
    ensures open - Descriptors(stack) == before
    ensures Apart(stack)
  {
    if at != [] {
      StackedOpen(stack.below, Parent(at), open - {stack.fd}, before);
    }
  }

  predicate Apart(stack: Stack) {
    stack.Push? ==> stack.fd !in Descriptors(stack.below) && Apart(stack.below)
  }

  lemma StackedButTop(stack: Stack, at: Path, open: map<Descriptor, Path>, before: map<Descriptor, Path>)
    requires Stacked(stack, at, open, before)
    ensures stack.Push? && Apart(stack.below) && Descriptors(stack.below) <= open.Keys && stack.fd !in before
    ensures open - Descriptors(stack.below) == before[stack.fd := at]
  {
    StackedOpen(stack, at, open, before);
    StackedTop(stack, at, open, before);
  }

  class Sandbox {
    var tree: Tree
    var open: map<Descriptor, Path>  // the open directory descriptors
    var nextFd: Descriptor

    constructor (tree: Tree)
      requires TreeOk(tree)
      ensures this.tree == tree && open == map[0 := []] && Valid()
    {
      this.tree, open, nextFd := tree, map[0 := []], 1;
    }

    ghost predicate Valid()
      reads this
    {
      TreeOk(tree) && forall fd :: fd in open ==> fd < nextFd && IsDirectory(tree, open[fd])
    }

    method Duplicate(fd: Descriptor) returns (copy: Descriptor)
      requires Valid() && fd in open
      modifies this`open, this`nextFd
      ensures Valid() && copy !in old(open) && open == old(open)[copy := old(open)[fd]]
    {
      copy := nextFd;
      open, nextFd := open[copy := open[fd]], nextFd + 1;
    }

    method Close(fd: Descriptor)
      requires Valid() && fd in open
      modifies this`open
      ensures Valid() && open == old(open) - {fd}
    {
      open := open - {fd};
    }

    /** Opens one part below an open directory; a link or a file there is refused. */
    method OpenDirectory(name: Part, parent: Descriptor) returns (r: Opened)
      requires Valid() && parent in open
      modifies this`open, this`nextFd
      ensures Valid()
      ensures var p := old(open)[parent] + [name];
              match r
              case Open(fd) => fd !in old(open) && open == old(open)[fd := p] && p in tree && tree[p].Directory?
              case Missing => open == old(open) && p !in tree
              case NotADirectory => open == old(open) && p in tree && !tree[p].Directory?
    {
      var p := open[parent] + [name];
      if p !in tree {
        return Missing;
      }
      if !tree[p].Directory? {
        return NotADirectory;
      }
      open, nextFd := open[nextFd := p], nextFd + 1;
      return Open(nextFd - 1);
    }

    method MakeDirectory(name: Part, parent: Descriptor, denied: set<Path>) returns (ok: bool)
      requires Valid() && parent in open && open[parent] + [name] !in tree
      modifies this`tree
      ensures Valid() && ok == (open[parent] + [name] !in denied)
      ensures tree == if ok then old(tree)[open[parent] + [name] := Directory] else old(tree)
    {
      var p := open[parent] + [name];
      if p in denied {
        return false;
      }
      assert Parent(p) == open[parent];
      tree := tree[p := Directory];
      return true;
    }

    /** OpenDirectory, with the directory created first when it is missing; Missing when it may not be. */
    method EnsureDirectory(name: Part, parent: Descriptor, denied: set<Path>) returns (r: Opened)
      requires Valid() && parent in open
      modifies this
      ensures Valid()
      ensures var p := old(open)[parent] + [name];
              match r
              case Open(fd) =>
                && fd !in old(open) && open == old(open)[fd := p] && (p in old(tree) ==> old(tree)[p].Directory?)
                && tree == (if p in old(tree) then old(tree) else old(tree)[p := Directory]) && (p !in old(tree) ==> p !in denied)
              case Missing => open == old(open) && tree == old(tree) && p !in tree && p in denied
              case NotADirectory => open == old(open) && tree == old(tree) && p in tree && !tree[p].Directory?
    {
      r := OpenDirectory(name, parent);
      if r.Missing? {
        var made := MakeDirectory(name, parent, denied);
        if made {
          r := OpenDirectory(name, parent);
        }
      }
    }

    method CloseAll(stack: Stack)
      requires Valid() && Descriptors(stack) <= open.Keys && Apart(stack)
      modifies this`open
      ensures Valid() && open == old(open) - Descriptors(stack)
    {
      var left := stack;
      while left.Push?
        invariant Valid() && Descriptors(left) <= open.Keys && Apart(left)
        invariant open - Descriptors(left) == old(open) - Descriptors(stack)
        decreases left
      {
        Close(left.fd);
        left := left.below;
      }
    }

    /** The descriptor of a path inside the tree, with the directories it lacks made: what the reference resolves it to. Every other
        descriptor opened on the way is closed, also when the walk is refused. */
    method Walk(code: Descriptor, relative: seq<Part>, denied: set<Path>, budget: nat := HOPS) returns (r: Result<Descriptor, Refusal>)
      requires Valid() && code in open && open[code] == []
      modifies this
      ensures Valid() && OnlyNewDirectories(old(tree), tree)
      ensures var w := Resolve(old(tree), [], relative, budget, denied);
              && tree == w.tree
              && match r
                 case Ok(fd) => w.Reached? && fd !in old(open) && open == old(open)[fd := w.at]
                 case Err(why) => w == Refused(tree, why) && open == old(open)
    {
      ResolveStaysInside(tree, [], relative, budget, denied);
      hide *;
      ghost var before, result := open, Resolve(tree, [], relative, budget, denied);
      ghost var at: Path := [];
      var root := Duplicate(code);
      var stack := Push(Empty, root);
      var pending, hops := relative, budget;
      var refused: Option<Refusal> := None;
      StackedRoot(open, before, root);
      while pending != [] && refused.None?
        invariant Valid() && Stacked(stack, at, open, before)
        invariant result == if refused.Some? then Refused(tree, refused.value) else Resolve(tree, at, pending, hops, denied)
        decreases refused.None?, hops, |pending|
      {
        var part := pending[0];
        ghost var open1, tree1 := open, tree;
        StackedTop(stack, at, open, before);
        if part == EMPTY || part == SELF {
          ResolveSkip(tree, at, pending, hops, denied);
          pending := pending[1..];
        } else if part == UP {
          ResolveUp(tree, at, pending, hops, denied);
          if stack.below.Empty? {
            refused := Some(LeavesTree);
          } else {
            Close(stack.fd);
            stack, pending, at := stack.below, pending[1..], Parent(at);
          }
        } else {
          var entry := EnsureDirectory(part, stack.fd, denied);
          match entry
          case Missing =>
            ResolveEnter(tree, at, pending, hops, denied);
            refused := Some(Denied);
          case Open(fd) =>
            ResolveEnter(tree1, at, pending, hops, denied);
            StackedPush(stack, at, open1, before, fd, part);
            stack, pending, at := Push(stack, fd), pending[1..], at + [part];
          case NotADirectory =>
            ResolveLink(tree, at, pending, hops, denied);
            var node := tree[open[stack.fd] + [part]];
            if node.Other? {
              refused := Some(NoDirectory);
            } else if hops == 0 || node.absolute {
              refused := Some(LeadsOut);
            } else {
              hops, pending := hops - 1, node.target + pending[1..];
            }
        }
      }
      StackedOpen(stack, at, open, before);
      StackedButTop(stack, at, open, before);
      if refused.Some? {
        CloseAll(stack);
        return Err(refused.value);
      }
      ResolveNothing(tree, at, hops, denied);
      CloseAll(stack.below);
      return Ok(stack.fd);
    }
  }
}
