/** InstalldNativeService::fixupAppData: repairing the group IDs of app data. */
module Fixup {
  import opened Fts
  import opened Trails

  /** multiuser_get_cache_gid for the user and app of a UID; -1 when there is none. */
  type CacheGids = nat -> int

  /** get_cache_gid */
  function CacheGid(gids: CacheGids, uid: nat): nat {
    if gids(uid) >= 0 then gids(uid) else uid
  }

  /** chown(2), or lchown(2) when `follow` is false, and the chmod to 02771. */
  datatype Op = SetGid(path: Path, gid: nat, follow: bool) | SetMode(path: Path)

  // ---------- the walk ----------

  function Number(numbers: map<Path, nat>, p: Path): nat {
    if p in numbers then numbers[p] else 0
  }

  /** The expected GID of a child of package directory `pkg`. */
  function Expected(gids: CacheGids, child: Node, pkg: Node): nat {
    if child.st.ino == pkg.st.cacheInode || child.st.ino == pkg.st.codeCacheInode
       || child.name == "cache" || child.name == "code_cache"
    then CacheGid(gids, pkg.st.uid)
    else pkg.st.uid
  }

  /** The loop over fts_children that stores the expectation in every child's entry. */
  function Expectations(gids: CacheGids, numbers: map<Path, nat>, kids: seq<Node>, pkg: Node, dir: Path): map<Path, nat>
    decreases |kids|
  {
    if kids == [] then numbers
    else Expectations(gids, numbers[dir + [kids[0].name] := Expected(gids, kids[0], pkg)], kids[1..], pkg, dir)
  }

  /** `Wrong` means not the expected GID, but one that belongs to the app. */
  datatype Verdict = Right | Wrong | Foreign

  function Judge(gids: CacheGids, st: Stat, parent: Stat, expected: nat): Verdict {
    if st.gid == expected then Right
    else if st.gid == parent.uid || st.gid == CacheGid(gids, parent.uid) then Wrong
    else Foreign
  }

  /** The switch over fts_info, for an entry that needs fixing. */
  function Repairs(gids: CacheGids, info: Info, path: Path, parent: Stat, expected: nat): seq<Op> {
    match info
    case DP => (if expected == CacheGid(gids, parent.uid) then [SetMode(path)] else []) + [SetGid(path, expected, true)]
    case F => [SetGid(path, expected, true)]
    case SL => [SetGid(path, expected, false)]
    case SLNONE => [SetGid(path, expected, false)]
    case _ => []
  }

  function NextNumbers(gids: CacheGids, numbers: map<Path, nat>, e: Entry): map<Path, nat> {
    if e.info == D && e.level == 1 then Expectations(gids, numbers, e.node.kids, e.node, e.path)
    else if e.level > 2 && e.path != [] then numbers[e.path := Number(numbers, DirName(e.path))]
    else numbers
  }

  function Decide(gids: CacheGids, numbers: map<Path, nat>, e: Entry): Verdict {
    Judge(gids, e.node.st, e.parent.st, Number(NextNumbers(gids, numbers, e), e.path))
  }

  function OpsAt(gids: CacheGids, numbers: map<Path, nat>, e: Entry): seq<Op> {
    if e.level >= 2 && Decide(gids, numbers, e) == Wrong
    then Repairs(gids, e.info, e.path, e.parent.st, Number(NextNumbers(gids, numbers, e), e.path))
    else []
  }

  predicate SkipAt(gids: CacheGids, numbers: map<Path, nat>, e: Entry, force: bool) {
    e.level >= 2 && Decide(gids, numbers, e) != Wrong && !force
  }

  /** FTS_SKIP: the next entry of a skipped directory is its second one. */
  function Skip(ev: seq<Entry>, level: nat): (r: seq<Entry>)
    ensures |r| <= |ev|
  {
    if ev == [] || (ev[0].info == DP && ev[0].level == level) then ev else Skip(ev[1..], level)
  }

  function Next(gids: CacheGids, numbers: map<Path, nat>, ev: seq<Entry>, force: bool): (r: seq<Entry>)
    requires ev != []
    ensures |r| < |ev|
  {
    if ev[0].info == D && SkipAt(gids, numbers, ev[0], force) then Skip(ev[1..], ev[0].level) else ev[1..]
  }

  function Run(gids: CacheGids, numbers: map<Path, nat>, ev: seq<Entry>, force: bool): seq<Op>
    decreases |ev|
  {
    if ev == [] then []
    else OpsAt(gids, numbers, ev[0])
         + Run(gids, NextNumbers(gids, numbers, ev[0]), Next(gids, numbers, ev, force), force)
  }

  // ---------- the recursive definition ----------

  /** What is done to the subtree `n`, all of which is expected to have GID `expected`. */
  function Fix(gids: CacheGids, n: Node, parent: Node, dir: Path, expected: nat, force: bool): seq<Op>
    decreases n, 1
  {
    var path := dir + [n.name];
    var v := Judge(gids, n.st, parent.st, expected);
    if n.kind == Directory then
      (if v == Wrong || force then FixAll(gids, n.kids, n, path, expected, force) else [])
      + (if v == Wrong then Repairs(gids, DP, path, parent.st, expected) else [])
    else if v == Wrong then Repairs(gids, LeafInfo(n.kind), path, parent.st, expected) else []
  }

  function FixAll(gids: CacheGids, kids: seq<Node>, parent: Node, dir: Path, expected: nat, force: bool): seq<Op>
    decreases kids, 0
  {
    if kids == [] then []
    else Fix(gids, kids[0], parent, dir, expected, force) + FixAll(gids, kids[1..], parent, dir, expected, force)
  }

  /** The contents of a package directory, each with its own expectation. */
  function FixContents(gids: CacheGids, kids: seq<Node>, pkg: Node, dir: Path, force: bool): seq<Op> {
    if kids == [] then []
    else Fix(gids, kids[0], pkg, dir, Expected(gids, kids[0], pkg), force)
         + FixContents(gids, kids[1..], pkg, dir, force)
  }

  function FixPackage(gids: CacheGids, pkg: Node, dir: Path, force: bool): seq<Op> {
    if pkg.kind == Directory then FixContents(gids, pkg.kids, pkg, dir + [pkg.name], force) else []
  }

  function FixPackages(gids: CacheGids, pkgs: seq<Node>, dir: Path, force: bool): seq<Op> {
    if pkgs == [] then [] else FixPackage(gids, pkgs[0], dir, force) + FixPackages(gids, pkgs[1..], dir, force)
  }

  /** One user's credential- or device-encrypted data directory. */
  function FixRoot(gids: CacheGids, root: Node, force: bool): seq<Op> {
    if root.kind == Directory then FixPackages(gids, root.kids, [root.name], force) else []
  }

  // ---------- the walk computes the recursive definition ----------

  lemma SameNumber(a: map<Path, nat>, b: map<Path, nat>, k: nat, p: Path)
    requires SameUpTo(a, b, k) && |p| <= k
    ensures Number(a, p) == Number(b, p)
  {}

  lemma {:induction false} SkipNode(n: Node, parent: Node, dir: Path, l: nat, rest: seq<Entry>, level: nat)
    requires l > level
    ensures Skip(Walk(n, parent, dir, l) + rest, level) == Skip(rest, level)
    decreases n, 1
  {
    var ev := Walk(n, parent, dir, l);
    var path := dir + [n.name];
    if n.kind == Directory {
      var inner, post := WalkAll(n.kids, n, path, l + 1), Entry(DP, l, path, n, parent);
      assert (ev + rest)[1..] == inner + ([post] + rest);
      SkipNodes(n.kids, n, path, l + 1, [post] + rest, level);
      assert ([post] + rest)[1..] == rest;
    } else {
      assert (ev + rest)[1..] == rest;
    }
  }

  lemma {:induction false} SkipNodes(kids: seq<Node>, parent: Node, dir: Path, l: nat, rest: seq<Entry>, level: nat)
    requires l > level
    ensures Skip(WalkAll(kids, parent, dir, l) + rest, level) == Skip(rest, level)
    decreases kids, 0
  {
    if kids == [] {
      assert [] + rest == rest;
    } else {
      var first, more := Walk(kids[0], parent, dir, l), WalkAll(kids[1..], parent, dir, l);
      Assoc(first, more, rest);
      SkipNode(kids[0], parent, dir, l, more + rest, level);
      SkipNodes(kids[1..], parent, dir, l, rest, level);
    }
  }

  /** The expectation that the entry at `dir + [name]` will be held to. */
  function Inherited(numbers: map<Path, nat>, dir: Path, name: string, level: nat): nat {
    if level > 2 then Number(numbers, dir) else Number(numbers, dir + [name])
  }

  lemma {:induction false} RunNode(gids: CacheGids, n: Node, parent: Node, dir: Path, level: nat,
                                   numbers: map<Path, nat>, rest: seq<Entry>, force: bool)
    returns (after: map<Path, nat>)
    requires level >= 2
    ensures Run(gids, numbers, Walk(n, parent, dir, level) + rest, force)
         == Fix(gids, n, parent, dir, Inherited(numbers, dir, n.name, level), force) + Run(gids, after, rest, force)
    ensures SameUpTo(numbers, after, if level > 2 then |dir| else |dir| + 1)
    decreases n, 2
  {
    var ev := Walk(n, parent, dir, level);
    var path := dir + [n.name];
    assert DirName(path) == dir;
    var e, expected := ev[0], Inherited(numbers, dir, n.name, level);
    var next := NextNumbers(gids, numbers, e);
    assert Number(next, path) == expected;
    if n.kind == Directory {
      after := RunDirectory(gids, n, parent, dir, level, numbers, rest, force);
    } else {
      assert (ev + rest)[1..] == rest;
      after := next;
    }
  }

  /** The first entry of a directory changes nothing and decides whether to go in. */
  lemma EnterDirectory(gids: CacheGids, numbers: map<Path, nat>, pre: Entry, inner: seq<Entry>, tail: seq<Entry>, force: bool)
    requires pre.info == D && pre.level >= 2 && pre.path != [] && tail != []
    requires Skip(inner + tail, pre.level) == tail
    ensures var next := NextNumbers(gids, numbers, pre);
            var visit := Judge(gids, pre.node.st, pre.parent.st, Number(next, pre.path)) == Wrong || force;
            Run(gids, numbers, [pre] + (inner + tail), force)
            == Run(gids, next, if visit then inner + tail else tail, force)
  {
    var ev := [pre] + (inner + tail);
    assert ev[1..] == inner + tail;
    assert OpsAt(gids, numbers, pre) == [];
  }

  /** The second one is where the directory itself is repaired. */
  lemma LeaveDirectory(gids: CacheGids, numbers: map<Path, nat>, post: Entry, rest: seq<Entry>, force: bool)
    requires post.info == DP && post.level >= 2 && post.path != []
    ensures var after := NextNumbers(gids, numbers, post);
            var expected := Number(after, post.path);
            Run(gids, numbers, [post] + rest, force)
            == (if Judge(gids, post.node.st, post.parent.st, expected) == Wrong
                then Repairs(gids, DP, post.path, post.parent.st, expected) else [])
               + Run(gids, after, rest, force)
  {
    assert ([post] + rest)[1..] == rest;
  }

  lemma {:induction false} RunDirectory(gids: CacheGids, n: Node, parent: Node, dir: Path, level: nat,
                                        numbers: map<Path, nat>, rest: seq<Entry>, force: bool)
    returns (after: map<Path, nat>)
    requires level >= 2 && n.kind == Directory
    ensures Run(gids, numbers, Walk(n, parent, dir, level) + rest, force)
         == Fix(gids, n, parent, dir, Inherited(numbers, dir, n.name, level), force) + Run(gids, after, rest, force)
    ensures SameUpTo(numbers, after, if level > 2 then |dir| else |dir| + 1)
    decreases n, 1
  {
    hide Run, Judge, Repairs, NextNumbers, Number;
    var path, expected := dir + [n.name], Inherited(numbers, dir, n.name, level);
    assert DirName(path) == dir;
    var post := Entry(DP, level, path, n, parent);
    var wrong := Judge(gids, n.st, parent.st, expected) == Wrong;
    var mid := RunInside(gids, n, parent, dir, level, numbers, [post] + rest, force);
    Bracket(n, parent, dir, level, rest);
    after := NextNumbers(gids, mid, post);
    NextNumber(gids, mid, post);
    LeaveDirectory(gids, mid, post, rest, force);
    assert Number(after, path) == expected;
    var inside := if wrong || force then FixAll(gids, n.kids, n, path, expected, force) else [];
    var own := if wrong then Repairs(gids, DP, path, parent.st, expected) else [];
    var later := Run(gids, after, rest, force);
    Assoc(inside, own, later);
  }

  /** Everything up to the second entry of a directory. */
  lemma {:induction false} RunInside(gids: CacheGids, n: Node, parent: Node, dir: Path, level: nat,
                                     numbers: map<Path, nat>, tail: seq<Entry>, force: bool)
    returns (mid: map<Path, nat>)
    requires level >= 2 && n.kind == Directory
    requires tail != [] && tail[0] == Entry(DP, level, dir + [n.name], n, parent)
    ensures var path, expected := dir + [n.name], Inherited(numbers, dir, n.name, level);
            var visit := Judge(gids, n.st, parent.st, expected) == Wrong || force;
            && Run(gids, numbers, [Entry(D, level, path, n, parent)] + (WalkAll(n.kids, n, path, level + 1) + tail), force)
               == (if visit then FixAll(gids, n.kids, n, path, expected, force) else []) + Run(gids, mid, tail, force)
            && Number(mid, path) == expected
    ensures SameUpTo(numbers, mid, if level > 2 then |dir| else |dir| + 1)
    ensures level > 2 ==> Number(mid, dir) == Inherited(numbers, dir, n.name, level)
    decreases n, 0
  {
    hide Run, Judge, Skip, NextNumbers, Number, Fix, FixAll, Walk;
    var path, expected := dir + [n.name], Inherited(numbers, dir, n.name, level);
    assert DirName(path) == dir;
    var pre := Entry(D, level, path, n, parent);
    var inner := WalkAll(n.kids, n, path, level + 1);
    SkipContents(n, parent, dir, level, tail[1..]);
    assert [tail[0]] + tail[1..] == tail;
    EnterDirectory(gids, numbers, pre, inner, tail, force);
    var next := NextNumbers(gids, numbers, pre);
    mid := next;
    NextNumber(gids, numbers, pre);
    if Judge(gids, n.st, parent.st, expected) == Wrong || force {
      mid := RunNodes(gids, n.kids, n, path, level + 1, next, tail, force);
      SameNumber(next, mid, |path|, path);
    }
    if level > 2 {
      SameNumber(numbers, mid, |dir|, dir);
    }
  }

  lemma NextNumber(gids: CacheGids, numbers: map<Path, nat>, e: Entry)
    requires e.level >= 2 && e.path != []
    ensures var next := NextNumbers(gids, numbers, e);
            && Number(next, e.path) == (if e.level > 2 then Number(numbers, DirName(e.path)) else Number(numbers, e.path))
            && SameUpTo(numbers, next, if e.level > 2 then |e.path| - 1 else |e.path|)
  {}

  lemma SkipContents(n: Node, parent: Node, dir: Path, level: nat, rest: seq<Entry>)
    ensures var path := dir + [n.name];
            var tail := [Entry(DP, level, path, n, parent)] + rest;
            Skip(WalkAll(n.kids, n, path, level + 1) + tail, level) == tail
  {
    var path := dir + [n.name];
    SkipNodes(n.kids, n, path, level + 1, [Entry(DP, level, path, n, parent)] + rest, level);
  }

  lemma {:induction false} RunNodes(gids: CacheGids, kids: seq<Node>, parent: Node, dir: Path, level: nat,
                                    numbers: map<Path, nat>, rest: seq<Entry>, force: bool)
    returns (after: map<Path, nat>)
    requires level > 2
    ensures Run(gids, numbers, WalkAll(kids, parent, dir, level) + rest, force)
         == FixAll(gids, kids, parent, dir, Number(numbers, dir), force) + Run(gids, after, rest, force)
    ensures SameUpTo(numbers, after, |dir|)
    decreases kids, 1
  {
    hide Run, Walk;
    if kids == [] {
      assert [] + rest == rest;
      after := numbers;
    } else {
      after := RunMoreNodes(gids, kids, parent, dir, level, numbers, rest, force);
    }
  }

  lemma {:induction false} RunMoreNodes(gids: CacheGids, kids: seq<Node>, parent: Node, dir: Path, level: nat,
                                        numbers: map<Path, nat>, rest: seq<Entry>, force: bool)
    returns (after: map<Path, nat>)
    requires level > 2 && kids != []
    ensures Run(gids, numbers, WalkAll(kids, parent, dir, level) + rest, force)
         == FixAll(gids, kids, parent, dir, Number(numbers, dir), force) + Run(gids, after, rest, force)
    ensures SameUpTo(numbers, after, |dir|)
    decreases kids, 0
  {
    hide Run, Fix, Walk, Number;
    var x := Number(numbers, dir);
    var first, more := Walk(kids[0], parent, dir, level), WalkAll(kids[1..], parent, dir, level);
    Assoc(first, more, rest);
    var mid := RunNode(gids, kids[0], parent, dir, level, numbers, more + rest, force);
    SameNumber(numbers, mid, |dir|, dir);
    after := RunNodes(gids, kids[1..], parent, dir, level, mid, rest, force);
    var a, b := Fix(gids, kids[0], parent, dir, x, force), FixAll(gids, kids[1..], parent, dir, x, force);
    Assoc(a, b, Run(gids, after, rest, force));
  }

  /** An entry above level 2 that is not a package directory's first one. */
  lemma RunIdle(gids: CacheGids, numbers: map<Path, nat>, e: Entry, rest: seq<Entry>, force: bool)
    requires e.level < 2 && !(e.info == D && e.level == 1)
    ensures Run(gids, numbers, [e] + rest, force) == Run(gids, numbers, rest, force)
  {
    assert ([e] + rest)[1..] == rest;
  }

  lemma {:induction false} ExpectationsSet(gids: CacheGids, numbers: map<Path, nat>, kids: seq<Node>, pkg: Node, dir: Path)
    requires WellFormedAll(kids)
    ensures forall k <- kids :: Number(Expectations(gids, numbers, kids, pkg, dir), dir + [k.name]) == Expected(gids, k, pkg)
    ensures forall name: string | (forall k <- kids :: k.name != name) ::
              Number(Expectations(gids, numbers, kids, pkg, dir), dir + [name]) == Number(numbers, dir + [name])
    decreases |kids|
  {
    if kids != [] {
      var next := numbers[dir + [kids[0].name] := Expected(gids, kids[0], pkg)];
      ExpectationsSet(gids, next, kids[1..], pkg, dir);
      forall name: string | name != kids[0].name
        ensures Number(next, dir + [name]) == Number(numbers, dir + [name])
      {
        assert (dir + [name])[|dir|] != (dir + [kids[0].name])[|dir|];
      }
    }
  }

  lemma {:induction false} RunContents(gids: CacheGids, kids: seq<Node>, pkg: Node, dir: Path,
                                       numbers: map<Path, nat>, rest: seq<Entry>, force: bool)
    returns (after: map<Path, nat>)
    requires forall k <- kids :: Number(numbers, dir + [k.name]) == Expected(gids, k, pkg)
    ensures Run(gids, numbers, WalkAll(kids, pkg, dir, 2) + rest, force)
         == FixContents(gids, kids, pkg, dir, force) + Run(gids, after, rest, force)
    decreases |kids|, 1
  {
    hide Run, Walk;
    if kids == [] {
      assert [] + rest == rest;
      after := numbers;
    } else {
      after := RunMoreContents(gids, kids, pkg, dir, numbers, rest, force);
    }
  }

  lemma {:induction false} RunMoreContents(gids: CacheGids, kids: seq<Node>, pkg: Node, dir: Path,
                                           numbers: map<Path, nat>, rest: seq<Entry>, force: bool)
    returns (after: map<Path, nat>)
    requires kids != [] && forall k <- kids :: Number(numbers, dir + [k.name]) == Expected(gids, k, pkg)
    ensures Run(gids, numbers, WalkAll(kids, pkg, dir, 2) + rest, force)
         == FixContents(gids, kids, pkg, dir, force) + Run(gids, after, rest, force)
    decreases |kids|, 0
  {
    hide Run, Fix, Walk, Number, Expected;
    var first, more := Walk(kids[0], pkg, dir, 2), WalkAll(kids[1..], pkg, dir, 2);
    Assoc(first, more, rest);
    var mid := RunNode(gids, kids[0], pkg, dir, 2, numbers, more + rest, force);
    forall k <- kids ensures Number(mid, dir + [k.name]) == Expected(gids, k, pkg) {
      SameNumber(numbers, mid, |dir| + 1, dir + [k.name]);
    }
    after := RunContents(gids, kids[1..], pkg, dir, mid, rest, force);
    var a, b := Fix(gids, kids[0], pkg, dir, Expected(gids, kids[0], pkg), force), FixContents(gids, kids[1..], pkg, dir, force);
    Assoc(a, b, Run(gids, after, rest, force));
  }

  lemma {:induction false} EnterPackage(gids: CacheGids, numbers: map<Path, nat>, e: Entry, rest: seq<Entry>, force: bool)
    requires e.info == D && e.level == 1
    ensures Run(gids, numbers, [e] + rest, force)
         == Run(gids, Expectations(gids, numbers, e.node.kids, e.node, e.path), rest, force)
  {
    hide Expectations;
    assert ([e] + rest)[1..] == rest;
  }

  lemma {:induction false} RunPackage(gids: CacheGids, pkg: Node, parent: Node, dir: Path,
                                      numbers: map<Path, nat>, rest: seq<Entry>, force: bool)
    returns (after: map<Path, nat>)
    requires WellFormed(pkg)
    ensures Run(gids, numbers, Walk(pkg, parent, dir, 1) + rest, force)
         == FixPackage(gids, pkg, dir, force) + Run(gids, after, rest, force)
  {
    hide Run, Expectations, Expected;
    var path := dir + [pkg.name];
    if pkg.kind == Directory {
      var pre, post := Entry(D, 1, path, pkg, parent), Entry(DP, 1, path, pkg, parent);
      var inner := WalkAll(pkg.kids, pkg, path, 2);
      Bracket(pkg, parent, dir, 1, rest);
      var next := Expectations(gids, numbers, pkg.kids, pkg, path);
      EnterPackage(gids, numbers, pre, inner + ([post] + rest), force);
      ExpectationsSet(gids, numbers, pkg.kids, pkg, path);
      after := RunContents(gids, pkg.kids, pkg, path, next, [post] + rest, force);
      RunIdle(gids, after, post, rest, force);
    } else {
      var e := Entry(LeafInfo(pkg.kind), 1, path, pkg, parent);
      assert Walk(pkg, parent, dir, 1) + rest == [e] + rest;
      RunIdle(gids, numbers, e, rest, force);
      after := numbers;
    }
  }

  lemma {:induction false} RunPackages(gids: CacheGids, pkgs: seq<Node>, parent: Node, dir: Path,
                                       numbers: map<Path, nat>, rest: seq<Entry>, force: bool)
    returns (after: map<Path, nat>)
    requires WellFormedAll(pkgs)
    ensures Run(gids, numbers, WalkAll(pkgs, parent, dir, 1) + rest, force)
         == FixPackages(gids, pkgs, dir, force) + Run(gids, after, rest, force)
    decreases |pkgs|, 1
  {
    hide Run, Walk;
    if pkgs == [] {
      assert [] + rest == rest;
      after := numbers;
    } else {
      after := RunMorePackages(gids, pkgs, parent, dir, numbers, rest, force);
    }
  }

  lemma {:induction false} RunMorePackages(gids: CacheGids, pkgs: seq<Node>, parent: Node, dir: Path,
                                           numbers: map<Path, nat>, rest: seq<Entry>, force: bool)
    returns (after: map<Path, nat>)
    requires pkgs != [] && WellFormedAll(pkgs)
    ensures Run(gids, numbers, WalkAll(pkgs, parent, dir, 1) + rest, force)
         == FixPackages(gids, pkgs, dir, force) + Run(gids, after, rest, force)
    decreases |pkgs|, 0
  {
    hide Run, FixPackage, Walk;
    var first, more := Walk(pkgs[0], parent, dir, 1), WalkAll(pkgs[1..], parent, dir, 1);
    Assoc(first, more, rest);
    var mid := RunPackage(gids, pkgs[0], parent, dir, numbers, more + rest, force);
    after := RunPackages(gids, pkgs[1..], parent, dir, mid, rest, force);
    var a, b := FixPackage(gids, pkgs[0], dir, force), FixPackages(gids, pkgs[1..], dir, force);
    Assoc(a, b, Run(gids, after, rest, force));
  }

  lemma {:induction false} RunRoot(gids: CacheGids, root: Node, numbers: map<Path, nat>, rest: seq<Entry>, force: bool)
    returns (after: map<Path, nat>)
    requires WellFormed(root)
    ensures Run(gids, numbers, Walk(root, root, [], 0) + rest, force)
         == FixRoot(gids, root, force) + Run(gids, after, rest, force)
  {
    var path := [root.name];
    assert [] + [root.name] == path;
    after := numbers;
    if root.kind == Directory {
      var pre, post := Entry(D, 0, path, root, root), Entry(DP, 0, path, root, root);
      var inner := WalkAll(root.kids, root, path, 1);
      Bracket(root, root, [], 0, rest);
      RunIdle(gids, numbers, pre, inner + ([post] + rest), force);
      after := RunPackages(gids, root.kids, root, path, numbers, [post] + rest, force);
      RunIdle(gids, after, post, rest, force);
    } else {
      var e := Entry(LeafInfo(root.kind), 0, path, root, root);
      assert Walk(root, root, [], 0) + rest == [e] + rest;
      RunIdle(gids, numbers, e, rest, force);
    }
  }

  function WalkRoots(roots: seq<Node>): seq<Entry> {
    if roots == [] then [] else Walk(roots[0], roots[0], [], 0) + WalkRoots(roots[1..])
  }

  function FixRoots(gids: CacheGids, roots: seq<Node>, force: bool): seq<Op> {
    if roots == [] then [] else FixRoot(gids, roots[0], force) + FixRoots(gids, roots[1..], force)
  }

  lemma {:induction false} RunRoots(gids: CacheGids, roots: seq<Node>, numbers: map<Path, nat>, force: bool)
    requires forall r <- roots :: WellFormed(r)
    ensures Run(gids, numbers, WalkRoots(roots), force) == FixRoots(gids, roots, force)
    decreases |roots|
  {
    if roots != [] {
      var after := RunRoot(gids, roots[0], numbers, WalkRoots(roots[1..]), force);
      RunRoots(gids, roots[1..], after, force);
    }
  }

  lemma RunStep(gids: CacheGids, numbers: map<Path, nat>, ev: seq<Entry>, force: bool)
    requires ev != []
    ensures Run(gids, numbers, ev, force)
         == OpsAt(gids, numbers, ev[0])
            + Run(gids, NextNumbers(gids, numbers, ev[0]), Next(gids, numbers, ev, force), force)
  {}

  /** The fts loop over one user's data directories.  The stat structures are those of the walk, so a
      directory is judged by the same GID both times it is reported. */
  method FixupUser(gids: CacheGids, roots: seq<Node>, force: bool) returns (ops: seq<Op>)
    requires forall r <- roots :: WellFormed(r)
    ensures ops == FixRoots(gids, roots, force)
  {
    hide Run, WalkRoots, FixRoots, Skip, Repairs, Expectations;
    ops := [];
    var ev, numbers: map<Path, nat> := WalkRoots(roots), map[];
    ghost var all := Run(gids, numbers, ev, force);
    RunRoots(gids, roots, numbers, force);
    while ev != []
      invariant ops + Run(gids, numbers, ev, force) == all
      decreases |ev|
    {
      var p := ev[0];
      RunStep(gids, numbers, ev, force);
      ghost var more, later := OpsAt(gids, numbers, p),
        Run(gids, NextNumbers(gids, numbers, p), Next(gids, numbers, ev, force), force);
      Assoc(ops, more, later);
      var skip := false;
      if p.info == D && p.level == 1 {
        numbers := Expectations(gids, numbers, p.node.kids, p.node, p.path);
      } else if p.level >= 2 {
        if p.level > 2 && p.path != [] {
          numbers := numbers[p.path := Number(numbers, DirName(p.path))];
        }
        var uid := p.parent.st.uid;
        var cacheGid, expected, actual := CacheGid(gids, uid), Number(numbers, p.path), p.node.st.gid;
        if actual == expected {
          skip := !force;
        } else if actual == uid || actual == cacheGid {
          ops := ops + Repairs(gids, p.info, p.path, p.parent.st, expected);
        } else {
          skip := !force;
        }
      }
      ev := if skip && p.info == D then Skip(ev[1..], p.level) else ev[1..];
    }
    RunEnd(gids, numbers, ev, force);
  }

  lemma RunEnd(gids: CacheGids, numbers: map<Path, nat>, ev: seq<Entry>, force: bool)
    requires ev == []
    ensures Run(gids, numbers, ev, force) == []
  {}

  // ---------- who is repaired ----------

  /** Nothing on the way down to the end of the trail makes the walk skip. */
  ghost predicate Visited(gids: CacheGids, n: Node, parent: Node, trail: Trail, expected: nat, force: bool)
    requires Leads(n, trail)
  {
    trail == [] || ((Judge(gids, n.st, parent.st, expected) == Wrong || force)
                    && Visited(gids, n.kids[trail[0]], n, trail[1..], expected, force))
  }

  function ParentAt(n: Node, parent: Node, trail: Trail): Node
    requires Leads(n, trail)
  {
    if trail == [] then parent else ParentAt(n.kids[trail[0]], n, trail[1..])
  }

  function FixInfo(x: Node): Info {
    if x.kind == Directory then DP else LeafInfo(x.kind)
  }

  lemma {:induction false} FixWithin(gids: CacheGids, n: Node, parent: Node, dir: Path, expected: nat, force: bool)
    ensures forall op <- Fix(gids, n, parent, dir, expected, force) :: dir + [n.name] <= op.path
    decreases n, 1
  {
    if n.kind == Directory {
      FixWithinAll(gids, n.kids, n, dir + [n.name], expected, force);
    }
  }

  lemma {:induction false} FixWithinAll(gids: CacheGids, kids: seq<Node>, parent: Node, dir: Path, expected: nat, force: bool)
    ensures forall op <- FixAll(gids, kids, parent, dir, expected, force) ::
              dir < op.path && exists k <- kids :: op.path[|dir|] == k.name
    decreases kids, 0
  {
    if kids != [] {
      FixWithin(gids, kids[0], parent, dir, expected, force);
      FixWithinAll(gids, kids[1..], parent, dir, expected, force);
      assert (dir + [kids[0].name])[|dir|] == kids[0].name;
    }
  }

  lemma {:induction false} FixOfChild(gids: CacheGids, kids: seq<Node>, parent: Node, dir: Path, expected: nat,
                                      force: bool, i: nat, op: Op)
    requires WellFormedAll(kids) && i < |kids| && dir + [kids[i].name] <= op.path
    ensures op in FixAll(gids, kids, parent, dir, expected, force)
       <==> op in Fix(gids, kids[i], parent, dir, expected, force)
    decreases kids
  {
    assert op.path[|dir|] == (dir + [kids[i].name])[|dir|] == kids[i].name;
    FixWithin(gids, kids[0], parent, dir, expected, force);
    assert (dir + [kids[0].name])[|dir|] == kids[0].name;
    if i == 0 {
      FixWithinAll(gids, kids[1..], parent, dir, expected, force);
    } else {
      assert kids[i] == kids[1..][i - 1];
      FixOfChild(gids, kids[1..], parent, dir, expected, force, i - 1, op);
    }
  }

  /** Exactly which calls are made for one node: it has to be visited, to carry a GID that
      belongs to the app without being the expected one, and the calls are those of its kind. */
  lemma {:induction false} WhoIsRepaired(gids: CacheGids, n: Node, parent: Node, dir: Path, expected: nat,
                                         force: bool, trail: Trail, op: Op)
    requires WellFormed(n) && Leads(n, trail) && op.path == PathAt(n, dir, trail)
    ensures var x, up := At(n, trail), ParentAt(n, parent, trail);
            op in Fix(gids, n, parent, dir, expected, force) <==>
            && Visited(gids, n, parent, trail, expected, force)
            && Judge(gids, x.st, up.st, expected) == Wrong
            && op in Repairs(gids, FixInfo(x), op.path, up.st, expected)
    decreases trail
  {
    var path := dir + [n.name];
    if trail == [] {
      if n.kind == Directory {
        FixWithinAll(gids, n.kids, n, path, expected, force);
      }
    } else {
      var i := trail[0];
      WellFormedChild(n.kids, i);
      PathWithin(n.kids[i], path, trail[1..]);
      WhoIsRepaired(gids, n.kids[i], n, path, expected, force, trail[1..], op);
      FixOfChild(gids, n.kids, n, path, expected, force, i, op);
    }
  }

  lemma {:induction false} ContentsOfChild(gids: CacheGids, kids: seq<Node>, pkg: Node, dir: Path, force: bool, i: nat, op: Op)
    requires WellFormedAll(kids) && i < |kids| && dir + [kids[i].name] <= op.path
    ensures op in FixContents(gids, kids, pkg, dir, force)
       <==> op in Fix(gids, kids[i], pkg, dir, Expected(gids, kids[i], pkg), force)
    decreases kids
  {
    assert op.path[|dir|] == (dir + [kids[i].name])[|dir|] == kids[i].name;
    FixWithin(gids, kids[0], pkg, dir, Expected(gids, kids[0], pkg), force);
    assert (dir + [kids[0].name])[|dir|] == kids[0].name;
    if i == 0 {
      ContentsWithin(gids, kids[1..], pkg, dir, force);
    } else {
      assert kids[i] == kids[1..][i - 1];
      ContentsOfChild(gids, kids[1..], pkg, dir, force, i - 1, op);
    }
  }

  lemma {:induction false} ContentsWithin(gids: CacheGids, kids: seq<Node>, pkg: Node, dir: Path, force: bool)
    ensures forall op <- FixContents(gids, kids, pkg, dir, force) ::
              dir < op.path && exists k <- kids :: op.path[|dir|] == k.name
    decreases |kids|
  {
    if kids != [] {
      FixWithin(gids, kids[0], pkg, dir, Expected(gids, kids[0], pkg), force);
      ContentsWithin(gids, kids[1..], pkg, dir, force);
      assert (dir + [kids[0].name])[|dir|] == kids[0].name;
    }
  }

  lemma {:induction false} PackagesOfChild(gids: CacheGids, pkgs: seq<Node>, dir: Path, force: bool, i: nat, op: Op)
    requires WellFormedAll(pkgs) && i < |pkgs| && dir + [pkgs[i].name] <= op.path
    ensures op in FixPackages(gids, pkgs, dir, force) <==> op in FixPackage(gids, pkgs[i], dir, force)
    decreases pkgs
  {
    assert op.path[|dir|] == (dir + [pkgs[i].name])[|dir|] == pkgs[i].name;
    PackageWithin(gids, pkgs[0], dir, force);
    if i == 0 {
      PackagesWithin(gids, pkgs[1..], dir, force);
    } else {
      assert pkgs[i] == pkgs[1..][i - 1];
      PackagesOfChild(gids, pkgs[1..], dir, force, i - 1, op);
    }
  }

  lemma PackageWithin(gids: CacheGids, pkg: Node, dir: Path, force: bool)
    ensures forall op <- FixPackage(gids, pkg, dir, force) :: dir < op.path && op.path[|dir|] == pkg.name
  {
    ContentsWithin(gids, pkg.kids, pkg, dir + [pkg.name], force);
    assert (dir + [pkg.name])[|dir|] == pkg.name;
  }

  lemma {:induction false} PackagesWithin(gids: CacheGids, pkgs: seq<Node>, dir: Path, force: bool)
    ensures forall op <- FixPackages(gids, pkgs, dir, force) ::
              dir < op.path && exists k <- pkgs :: op.path[|dir|] == k.name
    decreases |pkgs|
  {
    if pkgs != [] {
      PackageWithin(gids, pkgs[0], dir, force);
      PackagesWithin(gids, pkgs[1..], dir, force);
    }
  }

  /** The same for a whole data directory: `i` picks the package, `j` an entry of its directory,
      which fixes the expectation, and `trail` a node from there on, at level 2 or deeper. */
  lemma WhoIsRepairedInRoot(gids: CacheGids, root: Node, force: bool, i: nat, j: nat, trail: Trail, op: Op)
    requires WellFormed(root) && root.kind == Directory && i < |root.kids|
    requires var pkg := root.kids[i]; pkg.kind == Directory && j < |pkg.kids| && Leads(pkg.kids[j], trail)
    requires var pkg := root.kids[i]; op.path == PathAt(pkg.kids[j], [root.name, pkg.name], trail)
    ensures var pkg := root.kids[i];
            var top := pkg.kids[j];
            var x, up, expected := At(top, trail), ParentAt(top, pkg, trail), Expected(gids, top, pkg);
            op in FixRoot(gids, root, force) <==>
            && Visited(gids, top, pkg, trail, expected, force)
            && Judge(gids, x.st, up.st, expected) == Wrong
            && op in Repairs(gids, FixInfo(x), op.path, up.st, expected)
  {
    var pkg, dir := root.kids[i], [root.name];
    var top, path := pkg.kids[j], dir + [pkg.name];
    assert path == [root.name, pkg.name];
    WellFormedChild(root.kids, i);
    WellFormedChild(pkg.kids, j);
    PathWithin(top, path, trail);
    assert path <= op.path;
    PackagesOfChild(gids, root.kids, dir, force, i, op);
    ContentsOfChild(gids, pkg.kids, pkg, path, force, j, op);
    WhoIsRepaired(gids, top, pkg, path, Expected(gids, top, pkg), force, trail, op);
  }

  lemma {:induction false} ForceVisits(gids: CacheGids, n: Node, parent: Node, trail: Trail, expected: nat)
    requires Leads(n, trail)
    ensures Visited(gids, n, parent, trail, expected, true)
    decreases trail
  {
    if trail != [] {
      ForceVisits(gids, n.kids[trail[0]], n, trail[1..], expected);
    }
  }

  // ---------- the hierarchy after a run ----------

  function FixedStat(gids: CacheGids, n: Node, parent: Node, expected: nat): Stat {
    if n.kind != Other && Judge(gids, n.st, parent.st, expected) == Wrong then n.st.(gid := expected) else n.st
  }

  function Fixed(gids: CacheGids, n: Node, parent: Node, expected: nat, force: bool): Node
    decreases n, 1
  {
    var visit := n.kind == Directory && (Judge(gids, n.st, parent.st, expected) == Wrong || force);
    n.(st := FixedStat(gids, n, parent, expected),
       kids := if visit then FixedAll(gids, n.kids, n, expected, force) else n.kids)
  }

  function FixedAll(gids: CacheGids, kids: seq<Node>, parent: Node, expected: nat, force: bool): (r: seq<Node>)
    ensures |r| == |kids|
    decreases kids, 0
  {
    if kids == [] then []
    else [Fixed(gids, kids[0], parent, expected, force)] + FixedAll(gids, kids[1..], parent, expected, force)
  }

  function FixedContents(gids: CacheGids, kids: seq<Node>, pkg: Node, force: bool): (r: seq<Node>)
    ensures |r| == |kids|
  {
    if kids == [] then []
    else [Fixed(gids, kids[0], pkg, Expected(gids, kids[0], pkg), force)] + FixedContents(gids, kids[1..], pkg, force)
  }

  function FixedPackage(gids: CacheGids, pkg: Node, force: bool): Node {
    if pkg.kind == Directory then pkg.(kids := FixedContents(gids, pkg.kids, pkg, force)) else pkg
  }

  function FixedPackages(gids: CacheGids, pkgs: seq<Node>, force: bool): seq<Node> {
    if pkgs == [] then []
    else [FixedPackage(gids, pkgs[0], force)] + FixedPackages(gids, pkgs[1..], force)
  }

  function FixedRoot(gids: CacheGids, root: Node, force: bool): Node {
    if root.kind == Directory then root.(kids := FixedPackages(gids, root.kids, force)) else root
  }

  lemma {:induction false} FixedChild(gids: CacheGids, kids: seq<Node>, parent: Node, expected: nat, force: bool, i: nat)
    requires i < |kids|
    ensures FixedAll(gids, kids, parent, expected, force)[i] == Fixed(gids, kids[i], parent, expected, force)
  {
    if i > 0 {
      FixedChild(gids, kids[1..], parent, expected, force, i - 1);
    }
  }

  /** The new hierarchy is the effect of the calls: a node's GID is the expected one if a call set it,
      and what it was otherwise; nothing else about any node changes. */
  lemma {:induction false} FixedIsEffect(gids: CacheGids, n: Node, parent: Node, dir: Path, expected: nat,
                                         force: bool, trail: Trail)
    requires WellFormed(n) && Leads(n, trail)
    ensures var r := Fixed(gids, n, parent, expected, force);
            && Leads(r, trail)
            && var x, x' := At(n, trail), At(r, trail);
               var p := PathAt(n, dir, trail);
               var set' := exists follow :: SetGid(p, expected, follow) in Fix(gids, n, parent, dir, expected, force);
               x'.st == x.st.(gid := if set' then expected else x.st.gid) && x'.kind == x.kind && x'.name == x.name
    decreases trail
  {
    var p := PathAt(n, dir, trail);
    WhoIsRepaired(gids, n, parent, dir, expected, force, trail, SetGid(p, expected, true));
    WhoIsRepaired(gids, n, parent, dir, expected, force, trail, SetGid(p, expected, false));
    FixedNode(gids, n, parent, expected, force, trail);
  }

  lemma {:induction false} FixedNode(gids: CacheGids, n: Node, parent: Node, expected: nat, force: bool, trail: Trail)
    requires Leads(n, trail)
    ensures var r := Fixed(gids, n, parent, expected, force);
            && Leads(r, trail)
            && var x, x', up := At(n, trail), At(r, trail), ParentAt(n, parent, trail);
               && x'.st == (if Visited(gids, n, parent, trail, expected, force) then FixedStat(gids, x, up, expected) else x.st)
               && x'.kind == x.kind && x'.name == x.name
    decreases trail
  {
    if trail != [] {
      var i := trail[0];
      FixedNode(gids, n.kids[i], n, expected, force, trail[1..]);
      FixedChild(gids, n.kids, n, expected, force, i);
    }
  }

  /** A forced run leaves every node of a kind that is repaired, whose GID belonged to the app, with
      the expected GID, and never touches a node with any other GID. */
  lemma ForcedRun(gids: CacheGids, n: Node, parent: Node, expected: nat, force: bool, trail: Trail)
    requires Leads(n, trail)
    ensures var r := Fixed(gids, n, parent, expected, force);
            && Leads(r, trail)
            && var x, x', uid := At(n, trail), At(r, trail), ParentAt(n, parent, trail).st.uid;
               var belongs := x.st.gid == uid || x.st.gid == CacheGid(gids, uid);
               && (force && x.kind != Other && belongs ==> x'.st.gid == expected)
               && (!belongs ==> x'.st == x.st)
  {
    FixedNode(gids, n, parent, expected, force, trail);
    if force {
      ForceVisits(gids, n, parent, trail, expected);
    }
  }

  // ---------- the same for a whole data directory ----------

  lemma {:induction false} FixedContentsAt(gids: CacheGids, kids: seq<Node>, pkg: Node, force: bool, j: nat)
    requires j < |kids|
    ensures FixedContents(gids, kids, pkg, force)[j] == Fixed(gids, kids[j], pkg, Expected(gids, kids[j], pkg), force)
    decreases |kids|
  {
    if j > 0 {
      FixedContentsAt(gids, kids[1..], pkg, force, j - 1);
    }
  }

  lemma {:induction false} FixedPackagesAt(gids: CacheGids, pkgs: seq<Node>, force: bool)
    ensures |FixedPackages(gids, pkgs, force)| == |pkgs|
    ensures forall i | 0 <= i < |pkgs| :: FixedPackages(gids, pkgs, force)[i] == FixedPackage(gids, pkgs[i], force)
    decreases |pkgs|
  {
    if pkgs != [] {
      FixedPackagesAt(gids, pkgs[1..], force);
    }
  }

  /** The node at the end of `trail` below child `j` of package `i`. */
  ghost predicate Deep(root: Node, i: nat, j: nat, trail: Trail) {
    && root.kind == Directory && i < |root.kids| && root.kids[i].kind == Directory
    && j < |root.kids[i].kids| && Leads(root.kids[i].kids[j], trail)
  }

  function DeepAt(root: Node, i: nat, j: nat, trail: Trail): Node
    requires Deep(root, i, j, trail)
  {
    At(root.kids[i].kids[j], trail)
  }

  lemma FixedDeep(gids: CacheGids, root: Node, force: bool, i: nat, j: nat, trail: Trail)
    requires Deep(root, i, j, trail)
    ensures var r, pkg := FixedRoot(gids, root, force), root.kids[i];
            && r.st == root.st && |r.kids| == |root.kids| && r.kids[i].st == pkg.st
            && Deep(r, i, j, trail)
            && r.kids[i].kids[j] == Fixed(gids, pkg.kids[j], pkg, Expected(gids, pkg.kids[j], pkg), force)
  {
    var pkg := root.kids[i];
    FixedPackagesAt(gids, root.kids, force);
    FixedContentsAt(gids, pkg.kids, pkg, force, j);
    FixedNode(gids, pkg.kids[j], pkg, Expected(gids, pkg.kids[j], pkg), force, trail);
  }

  /** The data directory after a run is the effect of its calls: data and package directories stay what they
      were, and at level 2 and below a node's GID is the expected one if a call set it and what it
      was otherwise, and nothing else about it changes. */
  lemma FixedRootIsEffect(gids: CacheGids, root: Node, force: bool, i: nat, j: nat, trail: Trail)
    requires WellFormed(root) && Deep(root, i, j, trail)
    ensures var r, pkg := FixedRoot(gids, root, force), root.kids[i];
            && r.st == root.st && |r.kids| == |root.kids| && r.kids[i].st == pkg.st
            && Deep(r, i, j, trail)
            && var x, x' := DeepAt(root, i, j, trail), DeepAt(r, i, j, trail);
               var p, expected := PathAt(pkg.kids[j], [root.name, pkg.name], trail), Expected(gids, pkg.kids[j], pkg);
               var set' := exists follow :: SetGid(p, expected, follow) in FixRoot(gids, root, force);
               x'.st == x.st.(gid := if set' then expected else x.st.gid) && x'.kind == x.kind && x'.name == x.name
  {
    hide FixRoot, FixedRoot, Fix, Fixed, Repairs, Judge, Expected;
    var pkg := root.kids[i];
    var top, dir := pkg.kids[j], [root.name, pkg.name];
    var p, expected := PathAt(top, dir, trail), Expected(gids, top, pkg);
    WellFormedChild(root.kids, i);
    WellFormedChild(pkg.kids, j);
    FixedDeep(gids, root, force, i, j, trail);
    FixedIsEffect(gids, top, pkg, dir, expected, force, trail);
    forall follow
      ensures SetGid(p, expected, follow) in FixRoot(gids, root, force)
         <==> SetGid(p, expected, follow) in Fix(gids, top, pkg, dir, expected, force)
    {
      WhoIsRepairedInRoot(gids, root, force, i, j, trail, SetGid(p, expected, follow));
      WhoIsRepaired(gids, top, pkg, dir, expected, force, trail, SetGid(p, expected, follow));
    }
  }

  /** In a whole data directory: no run touches a node whose GID does not belong to the app, and a forced
      one leaves all others of a kind that is repaired with the GID their top directory calls for. */
  lemma ForcedRunInRoot(gids: CacheGids, root: Node, force: bool, i: nat, j: nat, trail: Trail)
    requires Deep(root, i, j, trail)
    ensures var r, pkg := FixedRoot(gids, root, force), root.kids[i];
            && Deep(r, i, j, trail)
            && var x, x' := DeepAt(root, i, j, trail), DeepAt(r, i, j, trail);
               var uid := ParentAt(pkg.kids[j], pkg, trail).st.uid;
               var belongs := x.st.gid == uid || x.st.gid == CacheGid(gids, uid);
               && (force && x.kind != Other && belongs ==> x'.st.gid == Expected(gids, pkg.kids[j], pkg))
               && (!belongs ==> x'.st == x.st)
  {
    var pkg := root.kids[i];
    FixedDeep(gids, root, force, i, j, trail);
    ForcedRun(gids, pkg.kids[j], pkg, Expected(gids, pkg.kids[j], pkg), force, trail);
  }

  lemma {:induction false} SecondRun(gids: CacheGids, n: Node, parent: Node, parent': Node, dir: Path, expected: nat,
                                     first: bool, second: bool)
    requires second ==> first
    requires parent'.st.uid == parent.st.uid
    ensures Fix(gids, Fixed(gids, n, parent, expected, first), parent', dir, expected, second) == []
    decreases n, 1
  {
    if n.kind == Directory && first {
      SecondRunAll(gids, n.kids, n, Fixed(gids, n, parent, expected, first), dir + [n.name], expected, first, second);
    }
  }

  lemma {:induction false} SecondRunAll(gids: CacheGids, kids: seq<Node>, parent: Node, parent': Node, dir: Path,
                                        expected: nat, first: bool, second: bool)
    requires second ==> first
    requires parent'.st.uid == parent.st.uid
    ensures FixAll(gids, FixedAll(gids, kids, parent, expected, first), parent', dir, expected, second) == []
    decreases kids, 0
  {
    if kids != [] {
      SecondRun(gids, kids[0], parent, parent', dir, expected, first, second);
      SecondRunAll(gids, kids[1..], parent, parent', dir, expected, first, second);
      assert FixedAll(gids, kids, parent, expected, first)[1..] == FixedAll(gids, kids[1..], parent, expected, first);
    }
  }

  lemma {:induction false} SecondRunContents(gids: CacheGids, kids: seq<Node>, pkg: Node, pkg': Node, dir: Path,
                                             first: bool, second: bool)
    requires second ==> first
    requires pkg'.st == pkg.st
    ensures FixContents(gids, FixedContents(gids, kids, pkg, first), pkg', dir, second) == []
    decreases |kids|
  {
    if kids != [] {
      SecondRun(gids, kids[0], pkg, pkg', dir, Expected(gids, kids[0], pkg), first, second);
      SecondRunContents(gids, kids[1..], pkg, pkg', dir, first, second);
      assert FixedContents(gids, kids, pkg, first)[1..] == FixedContents(gids, kids[1..], pkg, first);
    }
  }

  lemma {:induction false} SecondRunPackages(gids: CacheGids, pkgs: seq<Node>, dir: Path, first: bool, second: bool)
    requires second ==> first
    ensures FixPackages(gids, FixedPackages(gids, pkgs, first), dir, second) == []
    decreases |pkgs|
  {
    if pkgs != [] {
      var fixed := FixedPackages(gids, pkgs, first);
      SecondRunContents(gids, pkgs[0].kids, pkgs[0], fixed[0], dir + [pkgs[0].name], first, second);
      SecondRunPackages(gids, pkgs[1..], dir, first, second);
      assert fixed[1..] == FixedPackages(gids, pkgs[1..], first);
    }
  }

  /** A second run makes no call at all, unless it is a forced one after one that was not. */
  lemma SecondRunChangesNothing(gids: CacheGids, root: Node, first: bool, second: bool)
    requires second ==> first
    ensures FixRoot(gids, FixedRoot(gids, root, first), second) == []
  {
    if root.kind == Directory {
      SecondRunPackages(gids, root.kids, [root.name], first, second);
    }
  }

  // ---------- a forced run after an ordinary one ----------

  /** Nothing in the subtree needs a repair. */
  ghost predicate Clean(gids: CacheGids, n: Node, parent: Node, expected: nat)
    decreases n
  {
    && (n.kind == Other || Judge(gids, n.st, parent.st, expected) != Wrong)
    && (n.kind == Directory ==> forall k <- n.kids :: Clean(gids, k, n, expected))
  }

  /** Wherever an ordinary run turns back, nothing below needs a repair. */
  ghost predicate NothingHidden(gids: CacheGids, n: Node, parent: Node, expected: nat)
    decreases n
  {
    n.kind == Directory ==>
      if Judge(gids, n.st, parent.st, expected) == Wrong then forall k <- n.kids :: NothingHidden(gids, k, n, expected)
      else forall k <- n.kids :: Clean(gids, k, n, expected)
  }

  lemma {:induction false} CleanMeans(gids: CacheGids, n: Node, parent: Node, dir: Path, expected: nat)
    ensures Fix(gids, n, parent, dir, expected, true) == [] <==> Clean(gids, n, parent, expected)
    decreases n, 1
  {
    if n.kind == Directory {
      CleanMeansAll(gids, n.kids, n, dir + [n.name], expected);
    }
  }

  lemma {:induction false} CleanMeansAll(gids: CacheGids, kids: seq<Node>, parent: Node, dir: Path, expected: nat)
    ensures FixAll(gids, kids, parent, dir, expected, true) == [] <==> forall k <- kids :: Clean(gids, k, parent, expected)
    decreases kids, 0
  {
    if kids != [] {
      CleanMeans(gids, kids[0], parent, dir, expected);
      CleanMeansAll(gids, kids[1..], parent, dir, expected);
      assert kids == [kids[0]] + kids[1..];
    }
  }

  lemma {:induction false} ForcedAfter(gids: CacheGids, n: Node, parent: Node, parent': Node, dir: Path, expected: nat)
    requires parent'.st.uid == parent.st.uid
    ensures Fix(gids, Fixed(gids, n, parent, expected, false), parent', dir, expected, true) == []
       <==> NothingHidden(gids, n, parent, expected)
    decreases n, 1
  {
    if n.kind == Directory {
      if Judge(gids, n.st, parent.st, expected) == Wrong {
        ForcedAfterAll(gids, n.kids, n, Fixed(gids, n, parent, expected, false), dir + [n.name], expected);
      } else {
        assert Fixed(gids, n, parent, expected, false) == n;
        CleanMeansAll(gids, n.kids, n, dir + [n.name], expected);
      }
    }
  }

  lemma {:induction false} ForcedAfterAll(gids: CacheGids, kids: seq<Node>, parent: Node, parent': Node, dir: Path, expected: nat)
    requires parent'.st.uid == parent.st.uid
    ensures FixAll(gids, FixedAll(gids, kids, parent, expected, false), parent', dir, expected, true) == []
       <==> forall k <- kids :: NothingHidden(gids, k, parent, expected)
    decreases kids, 0
  {
    if kids != [] {
      ForcedAfter(gids, kids[0], parent, parent', dir, expected);
      ForcedAfterAll(gids, kids[1..], parent, parent', dir, expected);
      assert FixedAll(gids, kids, parent, expected, false)[1..] == FixedAll(gids, kids[1..], parent, expected, false);
      assert kids == [kids[0]] + kids[1..];
    }
  }

  lemma {:induction false} ForcedAfterContents(gids: CacheGids, kids: seq<Node>, pkg: Node, pkg': Node, dir: Path)
    requires pkg'.st == pkg.st
    ensures FixContents(gids, FixedContents(gids, kids, pkg, false), pkg', dir, true) == []
       <==> forall k <- kids :: NothingHidden(gids, k, pkg, Expected(gids, k, pkg))
    decreases |kids|
  {
    if kids != [] {
      ForcedAfter(gids, kids[0], pkg, pkg', dir, Expected(gids, kids[0], pkg));
      ForcedAfterContents(gids, kids[1..], pkg, pkg', dir);
      assert FixedContents(gids, kids, pkg, false)[1..] == FixedContents(gids, kids[1..], pkg, false);
      assert kids == [kids[0]] + kids[1..];
    }
  }

  ghost predicate NothingHiddenInPackage(gids: CacheGids, pkg: Node) {
    pkg.kind == Directory ==> forall k <- pkg.kids :: NothingHidden(gids, k, pkg, Expected(gids, k, pkg))
  }

  lemma {:induction false} ForcedAfterPackages(gids: CacheGids, pkgs: seq<Node>, dir: Path)
    ensures FixPackages(gids, FixedPackages(gids, pkgs, false), dir, true) == []
       <==> forall pkg <- pkgs :: NothingHiddenInPackage(gids, pkg)
    decreases |pkgs|
  {
    if pkgs != [] {
      var fixed := FixedPackages(gids, pkgs, false);
      ForcedAfterContents(gids, pkgs[0].kids, pkgs[0], fixed[0], dir + [pkgs[0].name]);
      ForcedAfterPackages(gids, pkgs[1..], dir);
      assert FixPackage(gids, fixed[0], dir, true) == [] <==> NothingHiddenInPackage(gids, pkgs[0]);
      assert fixed[1..] == FixedPackages(gids, pkgs[1..], false);
      assert pkgs == [pkgs[0]] + pkgs[1..];
    }
  }

  /** A forced run after an ordinary one has nothing to do if and only if, wherever the ordinary run turns
      back, nothing below needs a repair. */
  lemma ForcedAfterOrdinary(gids: CacheGids, root: Node)
    ensures FixRoot(gids, FixedRoot(gids, root, false), true) == []
       <==> (root.kind == Directory ==> forall pkg <- root.kids :: NothingHiddenInPackage(gids, pkg))
  {
    if root.kind == Directory {
      ForcedAfterPackages(gids, root.kids, [root.name]);
    }
  }

  /** There are such hierarchies: an ordinary run stops at a directory that is right, a forced one goes on
      to a file below it. */
  lemma ForcedRepairsMore()
    ensures exists gids: CacheGids, root: Node ::
              WellFormed(root) && FixRoot(gids, FixedRoot(gids, root, false), true) != []
  {
    var gids: CacheGids := uid => uid + 10000;
    var st := Stat(10, 10, 1, 0, 0, false, false, 0, 0);
    var file := Node("f", Regular, st.(gid := 10010), []);
    var files := Node("files", Directory, st, [file]);
    var pkg := Node("pkg", Directory, st, [files]);
    var root := Node("data", Directory, st, [pkg]);
    assert Judge(gids, files.st, pkg.st, 10) == Right;
    assert Fixed(gids, files, pkg, 10, false) == files;
    assert FixedContents(gids, pkg.kids, pkg, false) == [files];
    assert FixedPackages(gids, root.kids, false) == [pkg];
    assert FixedRoot(gids, root, false) == root;
    assert Judge(gids, file.st, files.st, 10) == Wrong;
    assert Fix(gids, file, files, ["data"] + ["pkg"] + ["files"], 10, true) != [];
    assert FixAll(gids, [file], files, ["data"] + ["pkg"] + ["files"], 10, true) != [];
    assert Fix(gids, files, pkg, ["data"] + ["pkg"], 10, true) != [];
    assert FixContents(gids, pkg.kids, pkg, ["data"] + ["pkg"], true) != [];
    assert FixPackages(gids, root.kids, ["data"], true) != [];
    WellFormedSingle(file);
    WellFormedSingle(files);
    WellFormedSingle(pkg);
  }
}
