/** What a run of fixupAppData does to every file below a user's data directory, said of names, inodes, owners
    and groups alone. */
module FixupOutcome {
  import opened Fts
  import opened Trails
  import opened Fixup

  /** The group ID all of `top`, something right in package directory `pkg`, is to have: the cache group of
      the app if it has one and `top` is a cache directory, by name or by inode, and otherwise the
      group of the app itself. */
  function Wanted(gids: CacheGids, pkg: Node, top: Node): nat {
    var isCache := top.name == "cache" || top.name == "code_cache"
                   || top.st.ino == pkg.st.cacheInode || top.st.ino == pkg.st.codeCacheInode;
    if isCache && gids(pkg.st.uid) >= 0 then gids(pkg.st.uid) else pkg.st.uid
  }

  /** The directory the end of a trail below `top` is in. */
  function Above(pkg: Node, top: Node, trail: Trail): Node
    requires Leads(top, trail)
  {
    if trail == [] then pkg else LeadsTo(top, trail, |trail| - 1); At(top, trail[..|trail| - 1])
  }

  /** The node's group is one of the two that belong to the owner of the directory it is in. */
  predicate BelongsTo(gids: CacheGids, x: Node, up: Node) {
    x.st.gid == up.st.uid || (gids(up.st.uid) >= 0 && x.st.gid == gids(up.st.uid))
  }

  /** What is at the end of the trail has a wrong group that belongs to the app. */
  ghost predicate WrongAt(gids: CacheGids, pkg: Node, top: Node, trail: Trail, wanted: nat)
    requires Leads(top, trail)
  {
    At(top, trail).st.gid != wanted && BelongsTo(gids, At(top, trail), Above(pkg, top, trail))
  }

  /** That holds of every directory on the way to the end of the trail. */
  ghost predicate WayIsWrong(gids: CacheGids, pkg: Node, top: Node, trail: Trail, wanted: nat) {
    forall k | 0 <= k < |trail| :: Leads(top, trail[..k]) && WrongAt(gids, pkg, top, trail[..k], wanted)
  }

  lemma {:induction false} LeadsTo(n: Node, trail: Trail, k: nat)
    requires Leads(n, trail) && k <= |trail|
    ensures Leads(n, trail[..k])
    decreases trail
  {
    if k > 0 {
      LeadsTo(n.kids[trail[0]], trail[1..], k - 1);
      assert trail[..k][1..] == trail[1..][..k - 1];
    }
  }

  lemma {:induction false} AtChild(n: Node, trail: Trail, k: nat)
    requires Leads(n, trail) && 0 < k <= |trail|
    ensures Leads(n, trail[..k]) && Leads(n.kids[trail[0]], trail[1..][..k - 1])
    ensures At(n, trail[..k]) == At(n.kids[trail[0]], trail[1..][..k - 1])
  {
    LeadsTo(n, trail, k);
    LeadsTo(n.kids[trail[0]], trail[1..], k - 1);
    assert trail[..k][1..] == trail[1..][..k - 1];
  }

  lemma {:induction false} ParentIs(n: Node, parent: Node, trail: Trail)
    requires Leads(n, trail)
    ensures ParentAt(n, parent, trail) == Above(parent, n, trail)
    decreases trail
  {
    if trail != [] {
      var k, rest := n.kids[trail[0]], trail[1..];
      ParentIs(k, n, rest);
      if rest != [] {
        AtChild(n, trail, |trail| - 1);
      } else {
        assert trail[..0] == [];
      }
    }
  }

  lemma WantedIs(gids: CacheGids, pkg: Node, top: Node)
    ensures Expected(gids, top, pkg) == Wanted(gids, pkg, top)
  {}

  /** An ordinary run gets to the end of a trail exactly if everything on the way is wrong. */
  lemma {:induction false} VisitedMeans(gids: CacheGids, n: Node, parent: Node, trail: Trail, wanted: nat)
    requires Leads(n, trail)
    ensures Visited(gids, n, parent, trail, wanted, false) <==> WayIsWrong(gids, parent, n, trail, wanted)
    decreases trail
  {
    if trail != [] {
      hide BelongsTo, Above, WrongAt;
      var c, rest := n.kids[trail[0]], trail[1..];
      VisitedMeans(gids, c, n, rest, wanted);
      FirstWrong(gids, parent, n, wanted);
      assert trail[..0] == [];
      forall k | 0 < k < |trail|
        ensures Leads(n, trail[..k]) && Leads(c, rest[..k - 1])
        ensures WrongAt(gids, parent, n, trail[..k], wanted) <==> WrongAt(gids, n, c, rest[..k - 1], wanted)
      {
        WrongChild(gids, parent, n, trail, k, wanted);
      }
      if WayIsWrong(gids, parent, n, trail, wanted) {
        forall k | 0 <= k < |rest| ensures Leads(c, rest[..k]) && WrongAt(gids, n, c, rest[..k], wanted) {
          assert WrongAt(gids, parent, n, trail[..k + 1], wanted);
        }
      }
    }
  }

  lemma FirstWrong(gids: CacheGids, parent: Node, n: Node, wanted: nat)
    ensures WrongAt(gids, parent, n, [], wanted) <==> Judge(gids, n.st, parent.st, wanted) == Wrong
  {}

  lemma WrongChild(gids: CacheGids, parent: Node, n: Node, trail: Trail, k: nat, wanted: nat)
    requires Leads(n, trail) && 0 < k <= |trail|
    ensures Leads(n, trail[..k]) && Leads(n.kids[trail[0]], trail[1..][..k - 1])
    ensures WrongAt(gids, parent, n, trail[..k], wanted)
       <==> WrongAt(gids, n, n.kids[trail[0]], trail[1..][..k - 1], wanted)
  {
    AtChild(n, trail, k);
    AboveChild(parent, n, trail, k);
    hide At, Above, BelongsTo;
  }

  lemma {:induction false} AboveChild(parent: Node, n: Node, trail: Trail, k: nat)
    requires Leads(n, trail) && 0 < k <= |trail|
    ensures Leads(n, trail[..k]) && Leads(n.kids[trail[0]], trail[1..][..k - 1])
    ensures Above(parent, n, trail[..k]) == Above(n, n.kids[trail[0]], trail[1..][..k - 1])
  {
    AtChild(n, trail, k);
    var short, rest := trail[..k], trail[1..][..k - 1];
    assert short[1..] == rest && short[0] == trail[0];
    if k > 1 {
      AtChild(n, short, k - 1);
      assert At(n, short[..k - 1]) == At(n.kids[trail[0]], rest[..k - 2]);
    } else {
      assert short[..0] == [];
    }
    hide At;
  }

  // ---------- the outcome ----------

  /** A run repairs what is at the end of the trail. */
  ghost predicate Repaired(gids: CacheGids, pkg: Node, top: Node, trail: Trail, force: bool)
    requires Leads(top, trail)
  {
    var wanted := Wanted(gids, pkg, top);
    WrongAt(gids, pkg, top, trail, wanted) && (force || WayIsWrong(gids, pkg, top, trail, wanted))
  }

  lemma RepairedMeans(gids: CacheGids, pkg: Node, top: Node, trail: Trail, force: bool)
    requires Leads(top, trail)
    ensures var expected := Expected(gids, top, pkg);
            Repaired(gids, pkg, top, trail, force) <==>
            && Visited(gids, top, pkg, trail, expected, force)
            && Judge(gids, At(top, trail).st, ParentAt(top, pkg, trail).st, expected) == Wrong
  {
    WantedIs(gids, pkg, top);
    ParentIs(top, pkg, trail);
    VisitedMeans(gids, top, pkg, trail, Wanted(gids, pkg, top));
    if force {
      ForceVisits(gids, top, pkg, trail, Expected(gids, top, pkg));
    }
    hide Visited, WayIsWrong, At, Above, ParentAt, Expected, Wanted;
  }

  /** The calls made for a file at level 2 or deeper of a data directory: none, unless it is repaired, and then
      exactly these.  A regular file or directory has its group set.  A symbolic link has it set without
      being followed.  A directory that gets the cache group of the owner of the directory it is in has
      its mode set as well. */
  lemma CallsMade(gids: CacheGids, root: Node, force: bool, i: nat, j: nat, trail: Trail, op: Op)
    requires WellFormed(root) && Deep(root, i, j, trail)
    requires op.path == PathAt(root.kids[i].kids[j], [root.name, root.kids[i].name], trail)
    ensures var pkg, top := root.kids[i], root.kids[i].kids[j];
            var x, uid, wanted := At(top, trail), Above(pkg, top, trail).st.uid, Wanted(gids, pkg, top);
            op in FixRoot(gids, root, force) <==>
            && Repaired(gids, pkg, top, trail, force)
            && ((op == SetGid(op.path, wanted, true) && (x.kind == Directory || x.kind == Regular))
                || (op == SetGid(op.path, wanted, false) && (x.kind == Symlink || x.kind == DanglingSymlink))
                || (op == SetMode(op.path) && x.kind == Directory && wanted == if gids(uid) >= 0 then gids(uid) else uid))
  {
    var pkg, top := root.kids[i], root.kids[i].kids[j];
    WhoIsRepairedInRoot(gids, root, force, i, j, trail, op);
    RepairedMeans(gids, pkg, top, trail, force);
    WantedIs(gids, pkg, top);
    ParentIs(top, pkg, trail);
    hide FixRoot, Repaired, Visited, Judge, At, Above, ParentAt, Expected, Wanted;
  }

  /** The group of every file at level 2 or deeper after a run.  If its group belonged to the app, and the run
      is forced or everything on the way to it was wrong, it is what the top-level directory it is in
      calls for; otherwise it is what it was.  Devices, pipes and sockets always stay as they are. */
  lemma FinalGroup(gids: CacheGids, root: Node, force: bool, i: nat, j: nat, trail: Trail)
    requires Deep(root, i, j, trail)
    ensures var r, pkg, top := FixedRoot(gids, root, force), root.kids[i], root.kids[i].kids[j];
            && Deep(r, i, j, trail)
            && var x, wanted := At(top, trail), Wanted(gids, pkg, top);
               var reached := force || WayIsWrong(gids, pkg, top, trail, wanted);
               DeepAt(r, i, j, trail).st == x.st.(
                 gid := if x.kind != Other && BelongsTo(gids, x, Above(pkg, top, trail)) && reached then wanted
                        else x.st.gid)
  {
    var pkg, top := root.kids[i], root.kids[i].kids[j];
    FixedDeep(gids, root, force, i, j, trail);
    FixedNode(gids, top, pkg, Expected(gids, top, pkg), force, trail);
    RepairedMeans(gids, pkg, top, trail, force);
    WantedIs(gids, pkg, top);
    ParentIs(top, pkg, trail);
    VisitedMeans(gids, top, pkg, trail, Wanted(gids, pkg, top));
    hide FixedRoot, Fixed, Visited, WayIsWrong, At, Above, ParentAt, Expected, Wanted;
  }

  /** The data directory itself and its package directories are never the object of a call. */
  lemma OnlyBelowPackages(gids: CacheGids, root: Node, force: bool)
    ensures forall op <- FixRoot(gids, root, force) :: |op.path| >= 3
  {
    if root.kind == Directory {
      OnlyDeep(gids, root.kids, [root.name], force);
    }
  }

  lemma {:induction false} OnlyDeep(gids: CacheGids, pkgs: seq<Node>, dir: Path, force: bool)
    ensures forall op <- FixPackages(gids, pkgs, dir, force) :: |op.path| >= |dir| + 2
    decreases |pkgs|
  {
    if pkgs != [] {
      var pkg := pkgs[0];
      OnlyDeep(gids, pkgs[1..], dir, force);
      ContentsWithin(gids, pkg.kids, pkg, dir + [pkg.name], force);
    }
  }
}
