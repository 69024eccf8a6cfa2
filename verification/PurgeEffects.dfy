/** What is left of a directory after it was purged, and whether purge() reports that as a failure. */
module PurgeEffects {
  import opened Fts
  import opened Trails
  import opened Purging

  // ---------- what there is, and what stays ----------

  function PathsOf(n: Node, dir: Path): (ps: set<Path>)
    ensures dir + [n.name] in ps
    decreases n, 1
  {
    {dir + [n.name]} + if n.kind == Directory then PathsOfAll(n.kids, dir + [n.name]) else {}
  }

  function PathsOfAll(kids: seq<Node>, dir: Path): set<Path>
    decreases kids, 0
  {
    if kids == [] then {} else PathsOf(kids[0], dir) + PathsOfAll(kids[1..], dir)
  }

  /** A marked regular file stays, and so does every directory above one. */
  predicate Stays(n: Node, mark: bool)
    decreases n
  {
    match n.kind
    case Regular => mark
    case Directory => exists k <- n.kids :: Stays(k, mark || n.st.tombstoneAttr)
    case _ => false
  }

  function LeftOf(n: Node, dir: Path, mark: bool): set<Path>
    decreases n, 1
  {
    if !Stays(n, mark) then {}
    else
      {dir + [n.name]}
      + if n.kind == Directory then LeftOfAll(n.kids, dir + [n.name], mark || n.st.tombstoneAttr) else {}
  }

  function LeftOfAll(kids: seq<Node>, dir: Path, mark: bool): set<Path>
    decreases kids, 0
  {
    if kids == [] then {} else LeftOf(kids[0], dir, mark) + LeftOfAll(kids[1..], dir, mark)
  }

  /** `q` is, or lies below, one of `kids` in directory `dir`. */
  predicate Among(q: Path, kids: seq<Node>, dir: Path) {
    dir < q && exists k <- kids :: q[|dir|] == k.name
  }

  lemma {:induction false} PathsWithin(n: Node, dir: Path)
    ensures forall q <- PathsOf(n, dir) :: dir + [n.name] <= q
    decreases n, 1
  {
    if n.kind == Directory {
      PathsWithinAll(n.kids, dir + [n.name]);
    }
  }

  lemma {:induction false} PathsWithinAll(kids: seq<Node>, dir: Path)
    ensures forall q <- PathsOfAll(kids, dir) :: Among(q, kids, dir)
    decreases kids, 0
  {
    if kids != [] {
      PathsWithin(kids[0], dir);
      PathsWithinAll(kids[1..], dir);
      assert (dir + [kids[0].name])[|dir|] == kids[0].name;
    }
  }

  lemma {:induction false} LeftWithin(n: Node, dir: Path, mark: bool)
    ensures LeftOf(n, dir, mark) <= PathsOf(n, dir)
    ensures LeftOf(n, dir, mark) == {} <==> !Stays(n, mark)
    decreases n, 1
  {
    assert Stays(n, mark) ==> dir + [n.name] in LeftOf(n, dir, mark);
    if n.kind == Directory {
      LeftWithinAll(n.kids, dir + [n.name], mark || n.st.tombstoneAttr);
    }
  }

  lemma {:induction false} LeftWithinAll(kids: seq<Node>, dir: Path, mark: bool)
    ensures LeftOfAll(kids, dir, mark) <= PathsOfAll(kids, dir)
    ensures LeftOfAll(kids, dir, mark) == {} <==> forall k <- kids :: !Stays(k, mark)
    decreases kids, 0
  {
    if kids != [] {
      LeftWithin(kids[0], dir, mark);
      LeftWithinAll(kids[1..], dir, mark);
      assert forall k <- kids :: k == kids[0] || k in kids[1..];
      assert forall k <- kids[1..] :: k in kids;
      hide Stays, LeftOf;
    }
  }

  // ---------- executing the calls ----------

  lemma {:induction false} ExecAppend(s: Fs, a: seq<Op>, b: seq<Op>, fails: Op -> bool)
    ensures Exec(s, a + b, fails) == Exec(Exec(s, a, fails), b, fails)
    decreases |b|
  {
    if b == [] {
      assert a + b == a;
    } else {
      assert (a + b)[..|a + b| - 1] == a + b[..|b| - 1];
      ExecAppend(s, a, b[..|b| - 1], fails);
    }
  }

  lemma ExecOne(s: Fs, op: Op, fails: Op -> bool)
    ensures Exec(s, [op], fails) == Do(s, op, fails)
  {
    assert [op][..0] == [];
  }

  /** The calls for a subtree, when it is there and no call fails for reasons of its own. */
  lemma {:induction false} ExecSubtree(n: Node, dir: Path, mark: bool, s: Fs, fails: Op -> bool)
    requires WellFormed(n) && forall op :: !fails(op)
    requires forall q :: q in s.live && dir + [n.name] <= q <==> q in PathsOf(n, dir)
    ensures var r := Exec(s, SubtreeOps(n, dir, mark), fails);
            && r.live == s.live - PathsOf(n, dir) + LeftOf(n, dir, mark)
            && (r.failed <==> s.failed || (n.kind == Directory && Stays(n, mark)))
    decreases n, 1
  {
    if n.kind == Directory {
      ExecContents(n, dir, mark || n.st.tombstoneAttr, s, fails);
    } else {
      ExecLeaf(n, dir, mark, s, fails);
    }
  }

  lemma ExecLeaf(n: Node, dir: Path, mark: bool, s: Fs, fails: Op -> bool)
    requires n.kind != Directory && (forall op :: !fails(op)) && dir + [n.name] in s.live
    ensures var r := Exec(s, SubtreeOps(n, dir, mark), fails);
            r.live == s.live - PathsOf(n, dir) + LeftOf(n, dir, mark) && r.failed == s.failed
  {
    ExecOne(s, SubtreeOps(n, dir, mark)[0], fails);
  }

  /** A directory: its contents and then the directory itself. */
  lemma {:induction false} ExecContents(n: Node, dir: Path, mark: bool, s: Fs, fails: Op -> bool)
    requires n.kind == Directory && WellFormed(n) && forall op :: !fails(op)
    requires forall q :: q in s.live && dir + [n.name] <= q <==> q in PathsOf(n, dir)
    ensures var path, stays := dir + [n.name], exists k <- n.kids :: Stays(k, mark);
            var r := Exec(s, SubtreesOps(n.kids, path, mark) + [Rmdir(path)], fails);
            && r.live == s.live - PathsOf(n, dir) + (if stays then {path} + LeftOfAll(n.kids, path, mark) else {})
            && (r.failed <==> s.failed || stays)
    decreases n, 0
  {
    hide Exec, Do, SubtreesOps, LeftOfAll, PathsOfAll, Stays;
    var path := dir + [n.name];
    var ops := SubtreesOps(n.kids, path, mark);
    PathsWithinAll(n.kids, path);
    assert path !in PathsOfAll(n.kids, path);
    ExecSubtrees(n.kids, path, mark, s, fails);
    var r := Exec(s, ops, fails);
    ExecAppend(s, ops, [Rmdir(path)], fails);
    ExecOne(r, Rmdir(path), fails);
    LastRmdir(n.kids, path, mark, s, r, fails);
  }

  /** The rmdir of a directory whose contents were dealt with. */
  lemma LastRmdir(kids: seq<Node>, path: Path, mark: bool, s: Fs, r: Fs, fails: Op -> bool)
    requires forall op :: !fails(op)
    requires forall q :: q in s.live && path <= q <==> q == path || q in PathsOfAll(kids, path)
    requires r.live == s.live - PathsOfAll(kids, path) + LeftOfAll(kids, path, mark)
    ensures var t, stays := Do(r, Rmdir(path), fails), exists k <- kids :: Stays(k, mark);
            && t.live == s.live - PathsOfAll(kids, path) - {path}
                         + (if stays then {path} + LeftOfAll(kids, path, mark) else {})
            && (t.failed <==> r.failed || stays)
  {
    hide PathsOfAll, LeftOfAll, Stays;
    PathsWithinAll(kids, path);
    LeftWithinAll(kids, path, mark);
    assert forall q <- r.live :: path < q <==> q in LeftOfAll(kids, path, mark);
    assert path !in PathsOfAll(kids, path);
  }

  lemma {:induction false} ExecSubtrees(kids: seq<Node>, dir: Path, mark: bool, s: Fs, fails: Op -> bool)
    requires WellFormedAll(kids) && forall op :: !fails(op)
    requires forall q :: q in s.live && Among(q, kids, dir) <==> q in PathsOfAll(kids, dir)
    ensures var r := Exec(s, SubtreesOps(kids, dir, mark), fails);
            && r.live == s.live - PathsOfAll(kids, dir) + LeftOfAll(kids, dir, mark)
            && (r.failed <==> s.failed || exists k <- kids :: k.kind == Directory && Stays(k, mark))
    decreases kids, 0
  {
    hide Exec, Do, SubtreeOps, LeftOf, PathsOf, Stays, Among;
    if kids == [] {
      ExecNothing(s, fails);
    } else {
      var k, rest := kids[0], kids[1..];
      Apart(kids, dir, mark, s.live);
      ExecSubtree(k, dir, mark, s, fails);
      var r := Exec(s, SubtreeOps(k, dir, mark), fails);
      ExecSubtrees(rest, dir, mark, r, fails);
      ExecAppend(s, SubtreeOps(k, dir, mark), SubtreesOps(rest, dir, mark), fails);
      assert forall x <- kids :: x == k || x in rest;
      assert forall x <- rest :: x in kids;
    }
  }

  /** The first child's paths are not the other children's. */
  lemma Apart(kids: seq<Node>, dir: Path, mark: bool, live: set<Path>)
    requires kids != [] && WellFormedAll(kids)
    requires forall q :: q in live && Among(q, kids, dir) <==> q in PathsOfAll(kids, dir)
    ensures var k, rest := kids[0], kids[1..];
            var live' := live - PathsOf(k, dir) + LeftOf(k, dir, mark);
            && (forall q :: q in live && dir + [k.name] <= q <==> q in PathsOf(k, dir))
            && (forall q :: q in live' && Among(q, rest, dir) <==> q in PathsOfAll(rest, dir))
            && PathsOf(k, dir) !! PathsOfAll(rest, dir)
            && LeftOf(k, dir, mark) <= PathsOf(k, dir)
  {
    var k, rest := kids[0], kids[1..];
    PathsWithin(k, dir);
    PathsWithinAll(rest, dir);
    LeftWithin(k, dir, mark);
    hide LeftOf, PathsOf;
    assert PathsOfAll(kids, dir) == PathsOf(k, dir) + PathsOfAll(rest, dir);
    hide PathsOfAll;
    forall q | dir + [k.name] <= q ensures Among(q, kids, dir) && !Among(q, rest, dir) {
      assert q[|dir|] == (dir + [k.name])[|dir|] == k.name;
    }
    assert forall q :: Among(q, rest, dir) ==> Among(q, kids, dir);
  }

  // ---------- what that means for each file ----------

  /** The trail leads to a regular file that is kept as a tombstone. */
  ghost predicate Kept(n: Node, mark: bool, trail: Trail) {
    Leads(n, trail) && At(n, trail).kind == Regular && (mark || TombstoneAbove(n, trail))
  }

  lemma KeptChild(n: Node, mark: bool, trail: Trail)
    requires trail != []
    ensures Kept(n, mark, trail) <==>
            && n.kind == Directory && trail[0] < |n.kids|
            && Kept(n.kids[trail[0]], mark || n.st.tombstoneAttr, trail[1..])
  {}

  ghost predicate SomeKept(n: Node, mark: bool) {
    exists trail :: Kept(n, mark, trail)
  }

  lemma {:induction false} StaysMeans(n: Node, mark: bool)
    ensures Stays(n, mark) <==> SomeKept(n, mark)
    decreases n
  {
    hide Kept;
    var m := mark || n.st.tombstoneAttr;
    forall k <- n.kids ensures Stays(k, m) <==> SomeKept(k, m) {
      StaysMeans(k, m);
    }
    EmptyTrail(n, mark);
    if Stays(n, mark) && n.kind == Directory {
      var i :| 0 <= i < |n.kids| && Stays(n.kids[i], m);
      var t :| Kept(n.kids[i], m, t);
      KeptChild(n, mark, [i] + t);
      assert ([i] + t)[1..] == t;
    }
    if SomeKept(n, mark) {
      var t :| Kept(n, mark, t);
      if t != [] {
        KeptChild(n, mark, t);
        assert n.kids[t[0]] in n.kids && SomeKept(n.kids[t[0]], m);
      }
    }
  }

  lemma EmptyTrail(n: Node, mark: bool)
    ensures Kept(n, mark, []) <==> n.kind == Regular && mark
    ensures n.kind != Directory ==> forall t | Kept(n, mark, t) :: t == []
  {}

  lemma {:induction false} LeftOfChild(kids: seq<Node>, dir: Path, mark: bool, i: nat, q: Path)
    requires WellFormedAll(kids) && i < |kids| && dir + [kids[i].name] <= q
    ensures q in LeftOfAll(kids, dir, mark) <==> q in LeftOf(kids[i], dir, mark)
    decreases kids
  {
    hide LeftOf, Stays;
    assert q[|dir|] == (dir + [kids[i].name])[|dir|] == kids[i].name;
    if i == 0 {
      LeftWithinAll(kids[1..], dir, mark);
      PathsWithinAll(kids[1..], dir);
    } else {
      LeftWithin(kids[0], dir, mark);
      PathsWithin(kids[0], dir);
      assert (dir + [kids[0].name])[|dir|] == kids[0].name;
      LeftOfChild(kids[1..], dir, mark, i - 1, q);
    }
  }

  lemma {:induction false} LeftMeans(n: Node, dir: Path, mark: bool, trail: Trail)
    requires WellFormed(n) && Leads(n, trail)
    ensures PathAt(n, dir, trail) in LeftOf(n, dir, mark) <==> Stays(At(n, trail), mark || TombstoneAbove(n, trail))
    decreases trail
  {
    if trail != [] {
      var i, path, m := trail[0], dir + [n.name], mark || n.st.tombstoneAttr;
      WellFormedChild(n.kids, i);
      PathWithin(n.kids[i], path, trail[1..]);
      LeftMeans(n.kids[i], path, m, trail[1..]);
      LeftOfChild(n.kids, path, m, i, PathAt(n, dir, trail));
      LeftWithinAll(n.kids, path, m);
    }
  }

  /** Below the purged directory `d`, loaded with flag `tombstone`, the trail leads to a file that is kept. */
  ghost predicate KeptBelow(d: Node, tombstone: bool, trail: Trail) {
    && trail != [] && d.kind == Directory && trail[0] < |d.kids|
    && Kept(d.kids[trail[0]], tombstone, trail[1..])
  }

  ghost predicate SomeKeptBelow(d: Node, tombstone: bool) {
    exists trail :: KeptBelow(d, tombstone, trail)
  }

  lemma SomeChildKept(d: Node, tombstone: bool)
    requires d.kind == Directory
    ensures SomeKeptBelow(d, tombstone) <==> exists k <- d.kids :: Stays(k, tombstone)
  {
    hide Kept, Stays;
    forall k <- d.kids ensures Stays(k, tombstone) <==> SomeKept(k, tombstone) {
      StaysMeans(k, tombstone);
    }
    if SomeKeptBelow(d, tombstone) {
      var t :| KeptBelow(d, tombstone, t);
      assert SomeKept(d.kids[t[0]], tombstone);
    }
    if k :| k in d.kids && SomeKept(k, tombstone) {
      var i :| 0 <= i < |d.kids| && d.kids[i] == k;
      var t :| Kept(k, tombstone, t);
      assert ([i] + t)[1..] == t;
      assert KeptBelow(d, tombstone, [i] + t);
    }
  }

  /** Purging a directory that is there, when no call fails for reasons of its own.  purge() reports a failure
      if and only if a marked regular file lies below, since then the directories above it cannot be
      removed.  Of all that was there exactly those files and the directories above them are left,
      and nothing elsewhere is touched. */
  lemma PurgeLeaves(d: Node, dir: Path, tombstone: bool, live: set<Path>, fails: Op -> bool)
    requires d.kind == Directory && WellFormed(d) && forall op :: !fails(op)
    requires forall q :: q in live && dir + [d.name] <= q <==> q in PathsOf(d, dir)
    ensures var r := Exec(Fs(live, false), TreeOps(d, dir, tombstone), fails);
            && (r.failed <==> SomeKeptBelow(d, tombstone))
            && (dir + [d.name] in r.live <==> SomeKeptBelow(d, tombstone))
            && (forall q | !(dir + [d.name] <= q) :: q in r.live <==> q in live)
            && (forall trail: Trail | trail != [] && Leads(d, trail) ::
                  PathAt(d, dir, trail) in r.live <==>
                  SomeKept(At(d, trail), tombstone || TombstoneAbove(d.kids[trail[0]], trail[1..])))
  {
    hide Exec, Do, SubtreesOps, PathsOf, Stays, LeftOfAll, At, PathAt, TombstoneAbove, SomeKept, SomeKeptBelow;
    var path := dir + [d.name];
    ExecContents(d, dir, tombstone, Fs(live, false), fails);
    SomeChildKept(d, tombstone);
    PathsWithin(d, dir);
    LeftWithinAll(d.kids, path, tombstone);
    PathsWithinAll(d.kids, path);
    var r := Exec(Fs(live, false), TreeOps(d, dir, tombstone), fails);
    assert r.live == live - PathsOf(d, dir)
           + (if SomeKeptBelow(d, tombstone) then {path} + LeftOfAll(d.kids, path, tombstone) else {});
    forall trail: Trail | trail != [] && Leads(d, trail)
      ensures PathAt(d, dir, trail) in r.live <==>
              SomeKept(At(d, trail), tombstone || TombstoneAbove(d.kids[trail[0]], trail[1..]))
    {
      LeftAt(d, dir, tombstone, trail);
    }
  }

  /** Where a trail ends there is something left exactly if a kept file is at or below it. */
  lemma LeftAt(d: Node, dir: Path, tombstone: bool, trail: Trail)
    requires WellFormed(d) && trail != [] && Leads(d, trail)
    ensures var p := PathAt(d, dir, trail);
            && dir + [d.name] < p
            && (p in LeftOfAll(d.kids, dir + [d.name], tombstone) <==>
                SomeKept(At(d, trail), tombstone || TombstoneAbove(d.kids[trail[0]], trail[1..])))
  {
    hide LeftOfAll, LeftOf, Stays, SomeKept;
    var i, path := trail[0], dir + [d.name];
    WellFormedChild(d.kids, i);
    PathWithin(d.kids[i], path, trail[1..]);
    LeftOfChild(d.kids, path, tombstone, i, PathAt(d, dir, trail));
    LeftMeans(d.kids[i], path, tombstone, trail[1..]);
    StaysMeans(At(d, trail), tombstone || TombstoneAbove(d.kids[i], trail[1..]));
  }
}
