/** CacheItem::purge: what happens to the files of a purged item, and that it does not matter for a
    regular file whether it is purged as an item of its own or with a directory above it. */
module Purging {
  import opened Fts
  import opened CacheItems
  import opened Trails

  datatype Op = Truncate(path: Path) | Unlink(path: Path) | Rmdir(path: Path)

  // ---------- the walk ----------

  /** fts_number, which starts out as zero in every entry. */
  predicate Number(numbers: map<Path, bool>, p: Path) {
    p in numbers && numbers[p]
  }

  function Numbered(numbers: map<Path, bool>, e: Entry, tombstone: bool): map<Path, bool> {
    if e.info != D || e.path == [] then numbers
    else if e.level == 0 then numbers[e.path := tombstone]
    else numbers[e.path := Number(numbers, DirName(e.path)) || e.node.st.tombstoneAttr]
  }

  function OpsFor(numbers: map<Path, bool>, e: Entry): seq<Op> {
    match e.info
    case D => []
    case F => if e.path != [] && Number(numbers, DirName(e.path)) then [Truncate(e.path)] else [Unlink(e.path)]
    case DP => [Rmdir(e.path)]
    case _ => [Unlink(e.path)]
  }

  function PurgeWalk(numbers: map<Path, bool>, ev: seq<Entry>, tombstone: bool): seq<Op>
    decreases |ev|
  {
    if ev == [] then []
    else OpsFor(numbers, ev[0]) + PurgeWalk(Numbered(numbers, ev[0], tombstone), ev[1..], tombstone)
  }

  function NumbersAfter(numbers: map<Path, bool>, ev: seq<Entry>, tombstone: bool): map<Path, bool>
    decreases |ev|
  {
    if ev == [] then numbers else NumbersAfter(Numbered(numbers, ev[0], tombstone), ev[1..], tombstone)
  }

  lemma WalkStep(numbers: map<Path, bool>, ev: seq<Entry>, pos: nat, t: bool)
    requires pos < |ev|
    ensures PurgeWalk(numbers, ev[pos..], t)
         == OpsFor(numbers, ev[pos]) + PurgeWalk(Numbered(numbers, ev[pos], t), ev[pos + 1..], t)
  {
    assert ev[pos..][1..] == ev[pos + 1..];
  }

  lemma WalkEnd(numbers: map<Path, bool>, ev: seq<Entry>, t: bool)
    requires ev == []
    ensures PurgeWalk(numbers, ev, t) == []
  {}

  // ---------- the system calls ----------

  /** The paths that exist, and whether a call has failed. */
  datatype Fs = Fs(live: set<Path>, failed: bool)

  /** One system call.  It fails if its path does not exist or, for rmdir, has something in it, and if
      `fails` says so. */
  function Do(s: Fs, op: Op, fails: Op -> bool): Fs {
    var p := op.path;
    if fails(op) || p !in s.live || (op.Rmdir? && exists q <- s.live :: p < q) then s.(failed := true)
    else if op.Truncate? then s
    else s.(live := s.live - {p})
  }

  function Exec(s: Fs, ops: seq<Op>, fails: Op -> bool): Fs {
    if ops == [] then s else Do(Exec(s, ops[..|ops| - 1], fails), ops[|ops| - 1], fails)
  }

  lemma ExecGrows(s: Fs, ops: seq<Op>, todo: seq<Op>, fails: Op -> bool)
    requires |todo| <= 1
    ensures Exec(s, ops + todo, fails)
         == if todo == [] then Exec(s, ops, fails) else Do(Exec(s, ops, fails), todo[0], fails)
  {
    if todo == [] {
      assert ops + todo == ops;
    } else {
      assert (ops + todo)[..|ops|] == ops;
    }
  }

  /** purge().  `found` is what is at the item's path by then; `live` are the paths that exist, and `fails`
      tells which system calls fail for reasons of their own. */
  method Purge(item: Item, found: Node, live: set<Path>, fails: Op -> bool)
    returns (res: int, ops: seq<Op>, left: set<Path>)
    requires item.path != [] && found.name == item.path[|item.path| - 1]
    ensures ops == if item.directory then TreeOps(found, DirName(item.path), item.tombstone)
                   else [ItemOp(item)]
    ensures Exec(Fs(live, false), ops, fails) == Fs(left, res == -1) && (res == 0 || res == -1)
  {
    hide PurgeWalk, Walk, TreeOps, Numbered, Exec, Do;
    var s := Fs(live, false);
    ghost var start := s;
    ops := [];
    ExecNothing(start, fails);
    if item.directory {
      var ev := Walk(found, found, DirName(item.path), 0);
      TreeWalk(found, DirName(item.path), item.tombstone);
      var numbers: map<Path, bool> := map[];
      var pos := 0;
      assert ev[0..] == ev;
      while pos < |ev|
        invariant 0 <= pos <= |ev|
        invariant ops + PurgeWalk(numbers, ev[pos..], item.tombstone) == PurgeWalk(map[], ev, item.tombstone)
        invariant s == Exec(start, ops, fails)
      {
        var p := ev[pos];
        WalkStep(numbers, ev, pos, item.tombstone);
        var todo := OpsFor(numbers, p);
        ExecGrows(start, ops, todo, fails);
        if todo != [] {
          s := Do(s, todo[0], fails);
        }
        Assoc(ops, todo, PurgeWalk(Numbered(numbers, p, item.tombstone), ev[pos + 1..], item.tombstone));
        ops := ops + todo;
        numbers := Numbered(numbers, p, item.tombstone);
        pos := pos + 1;
      }
      WalkEnd(numbers, ev[pos..], item.tombstone);
    } else {
      ExecGrows(start, [], [ItemOp(item)], fails);
      assert [] + [ItemOp(item)] == [ItemOp(item)];
      ops, s := [ItemOp(item)], Do(s, ItemOp(item), fails);
    }
    res, left := if s.failed then -1 else 0, s.live;
  }

  lemma ExecNothing(s: Fs, fails: Op -> bool)
    ensures Exec(s, [], fails) == s
  {}

  /** mName of the item at `path`: the whole path for an item right below the cache root. */
  function NameOf(path: Path): string
    requires |path| >= 2
  {
    if |path| == 2 then Render(path) else "/" + path[|path| - 1]
  }

  /** buildPath(): the names collected while going up the chain of parents spell the fts path. */
  method BuildPath(path: Path) returns (res: string)
    requires |path| >= 2
    ensures res == Render(path)
  {
    hide Render, NameOf;
    res := NameOf(path);
    var k := |path|;
    LastName(path);
    assert path[..k] == path;
    while k > 2
      invariant 2 <= k <= |path|
      invariant Render(path) == if k == 2 then res else Render(path[..k - 1]) + res
    {
      k := k - 1;
      LastName(path[..k]);
      assert path[..k][..k - 1] == path[..k - 1];
      Assoc(if k == 2 then "" else Render(path[..k - 1]), NameOf(path[..k]), res);
      res := NameOf(path[..k]) + res;
    }
  }

  lemma {:induction false} LastName(path: Path)
    requires |path| >= 2
    ensures Render(path) == if |path| == 2 then NameOf(path) else Render(path[..|path| - 1]) + NameOf(path)
  {
    if |path| > 2 {
      Assoc(Render(DirName(path)), "/", path[|path| - 1]);
    }
  }

  /** What happens to an item that is not a directory. */
  function ItemOp(item: Item): Op {
    if item.tombstone then Truncate(item.path) else Unlink(item.path)
  }

  // ---------- the recursive definition ----------

  /** The calls made for a subtree inside the purged directory; `mark` tells whether files directly
      in `dir` are to be kept as tombstones. */
  function SubtreeOps(n: Node, dir: Path, mark: bool): seq<Op>
    decreases n, 1
  {
    var path := dir + [n.name];
    match n.kind
    case Directory => SubtreesOps(n.kids, path, mark || n.st.tombstoneAttr) + [Rmdir(path)]
    case Regular => if mark then [Truncate(path)] else [Unlink(path)]
    case _ => [Unlink(path)]
  }

  function SubtreesOps(kids: seq<Node>, dir: Path, mark: bool): seq<Op>
    decreases kids, 0
  {
    if kids == [] then [] else SubtreeOps(kids[0], dir, mark) + SubtreesOps(kids[1..], dir, mark)
  }

  /** The calls made for the purged directory itself, whose mark was settled when it was loaded. */
  function TreeOps(n: Node, dir: Path, tombstone: bool): seq<Op> {
    if n.kind == Directory then SubtreesOps(n.kids, dir + [n.name], tombstone) + [Rmdir(dir + [n.name])]
    else [Unlink(dir + [n.name])]
  }

  lemma {:induction false} WalkAppend(numbers: map<Path, bool>, a: seq<Entry>, b: seq<Entry>, t: bool)
    ensures PurgeWalk(numbers, a + b, t) == PurgeWalk(numbers, a, t) + PurgeWalk(NumbersAfter(numbers, a, t), b, t)
    ensures NumbersAfter(numbers, a + b, t) == NumbersAfter(NumbersAfter(numbers, a, t), b, t)
    decreases |a|
  {
    if a == [] {
      assert a + b == b;
    } else {
      assert (a + b)[1..] == a[1..] + b;
      var next := Numbered(numbers, a[0], t);
      WalkAppend(next, a[1..], b, t);
      var first, second := PurgeWalk(next, a[1..], t), PurgeWalk(NumbersAfter(next, a[1..], t), b, t);
      assert OpsFor(numbers, a[0]) + (first + second) == (OpsFor(numbers, a[0]) + first) + second;
    }
  }

  lemma {:induction false} SubtreeWalk(n: Node, parent: Node, dir: Path, level: nat, numbers: map<Path, bool>, t: bool)
    requires level >= 1
    ensures var ev := Walk(n, parent, dir, level);
            && PurgeWalk(numbers, ev, t) == SubtreeOps(n, dir, Number(numbers, dir))
            && SameUpTo(numbers, NumbersAfter(numbers, ev, t), |dir|)
    decreases n, 1
  {
    if n.kind == Directory {
      DirectoryWalk(n, parent, dir, level, numbers, t);
    } else {
      LeafWalk(n, parent, dir, level, numbers, t);
    }
  }

  lemma {:induction false} DirectoryWalk(n: Node, parent: Node, dir: Path, level: nat, numbers: map<Path, bool>, t: bool)
    requires level >= 1 && n.kind == Directory
    ensures var ev := Walk(n, parent, dir, level);
            && PurgeWalk(numbers, ev, t) == SubtreeOps(n, dir, Number(numbers, dir))
            && SameUpTo(numbers, NumbersAfter(numbers, ev, t), |dir|)
    decreases n, 0
  {
    hide PurgeWalk, NumbersAfter, Number, Numbered, OpsFor;
    var path := dir + [n.name];
    assert DirName(path) == dir;
    var pre, post := Entry(D, level, path, n, parent), Entry(DP, level, path, n, parent);
    var inner := WalkAll(n.kids, n, path, level + 1);
    var next := Numbered(numbers, pre, t);
    EnterWalk(numbers, pre, inner + [post], t);
    assert Walk(n, parent, dir, level) == [pre] + (inner + [post]);
    SubtreesWalk(n.kids, n, path, level + 1, next, t);
    WalkAppend(next, inner, [post], t);
    var after := NumbersAfter(next, inner, t);
    PostWalk(after, post, t);
    assert NumbersAfter(numbers, Walk(n, parent, dir, level), t) == after;
    assert SameUpTo(numbers, after, |dir|);
  }

  /** The first entry of a directory settles its number and makes no call. */
  lemma EnterWalk(numbers: map<Path, bool>, e: Entry, rest: seq<Entry>, t: bool)
    requires e.info == D && e.level >= 1 && e.path != []
    ensures var next := Numbered(numbers, e, t);
            && PurgeWalk(numbers, [e] + rest, t) == PurgeWalk(next, rest, t)
            && NumbersAfter(numbers, [e] + rest, t) == NumbersAfter(next, rest, t)
            && Number(next, e.path) == (Number(numbers, DirName(e.path)) || e.node.st.tombstoneAttr)
            && SameUpTo(numbers, next, |e.path| - 1)
  {
    assert ([e] + rest)[1..] == rest;
    assert [] + PurgeWalk(Numbered(numbers, e, t), rest, t) == PurgeWalk(Numbered(numbers, e, t), rest, t);
  }

  lemma LeafWalk(n: Node, parent: Node, dir: Path, level: nat, numbers: map<Path, bool>, t: bool)
    requires n.kind != Directory
    ensures var ev := Walk(n, parent, dir, level);
            && PurgeWalk(numbers, ev, t) == SubtreeOps(n, dir, Number(numbers, dir))
            && NumbersAfter(numbers, ev, t) == numbers
  {
    var ev := Walk(n, parent, dir, level);
    assert DirName(dir + [n.name]) == dir;
    assert ev[1..] == [];
  }

  lemma PostWalk(numbers: map<Path, bool>, e: Entry, t: bool)
    requires e.info == DP
    ensures PurgeWalk(numbers, [e], t) == [Rmdir(e.path)] && NumbersAfter(numbers, [e], t) == numbers
  {
    assert [e][1..] == [];
  }

  lemma {:induction false} SubtreesWalk(kids: seq<Node>, parent: Node, dir: Path, level: nat,
                                        numbers: map<Path, bool>, t: bool)
    requires level >= 1
    ensures var ev := WalkAll(kids, parent, dir, level);
            && PurgeWalk(numbers, ev, t) == SubtreesOps(kids, dir, Number(numbers, dir))
            && SameUpTo(numbers, NumbersAfter(numbers, ev, t), |dir|)
    decreases kids, 0
  {
    if kids != [] {
      var first, rest := Walk(kids[0], parent, dir, level), WalkAll(kids[1..], parent, dir, level);
      SubtreeWalk(kids[0], parent, dir, level, numbers, t);
      SubtreesWalk(kids[1..], parent, dir, level, NumbersAfter(numbers, first, t), t);
      WalkAppend(numbers, first, rest, t);
    }
  }

  /** The walk makes exactly the calls of the recursive definition, in its order. */
  lemma TreeWalk(n: Node, dir: Path, t: bool)
    ensures PurgeWalk(map[], Walk(n, n, dir, 0), t) == TreeOps(n, dir, t)
  {
    var ev := Walk(n, n, dir, 0);
    var path := dir + [n.name];
    assert DirName(path) == dir;
    if n.kind == Directory {
      var next := Numbered(map[], ev[0], t);
      var inner, post := WalkAll(n.kids, n, path, 1), Entry(DP, 0, path, n, n);
      assert ev[1..] == inner + [post];
      SubtreesWalk(n.kids, n, path, 1, next, t);
      WalkAppend(next, inner, [post], t);
      PostWalk(NumbersAfter(next, inner, t), post, t);
    } else {
      assert ev[1..] == [];
    }
  }

  // ---------- the fate of one file ----------

  /** Some directory from `n` down to just above the end of the trail carries the tombstone attribute. */
  ghost predicate TombstoneAbove(n: Node, trail: Trail)
    requires Leads(n, trail)
  {
    trail != [] && (n.st.tombstoneAttr || TombstoneAbove(n.kids[trail[0]], trail[1..]))
  }

  /** Some directory from `n` down to just above the end of the trail is a group. */
  ghost predicate GroupAbove(n: Node, trail: Trail)
    requires Leads(n, trail)
  {
    trail != [] && (n.st.groupAttr || GroupAbove(n.kids[trail[0]], trail[1..]))
  }

  /** Everything done below `dir + [n.name]` is done to a path that starts with it. */
  lemma {:induction false} OpsWithin(n: Node, dir: Path, mark: bool)
    ensures forall op <- SubtreeOps(n, dir, mark) :: dir + [n.name] <= op.path
    decreases n, 1
  {
    if n.kind == Directory {
      OpsWithinAll(n.kids, dir + [n.name], mark || n.st.tombstoneAttr);
    }
  }

  lemma {:induction false} OpsWithinAll(kids: seq<Node>, dir: Path, mark: bool)
    ensures forall op <- SubtreesOps(kids, dir, mark) ::
              dir < op.path && exists k <- kids :: op.path[|dir|] == k.name
    decreases kids, 0
  {
    if kids != [] {
      OpsWithin(kids[0], dir, mark);
      OpsWithinAll(kids[1..], dir, mark);
      assert (dir + [kids[0].name])[|dir|] == kids[0].name;
    }
  }

  /** What is done at a path below child `i` is done on behalf of child `i`. */
  lemma {:induction false} OpsOfChild(kids: seq<Node>, dir: Path, mark: bool, i: nat, op: Op)
    requires WellFormedAll(kids) && i < |kids| && dir + [kids[i].name] <= op.path
    ensures op in SubtreesOps(kids, dir, mark) <==> op in SubtreeOps(kids[i], dir, mark)
    decreases kids
  {
    assert op.path[|dir|] == (dir + [kids[i].name])[|dir|] == kids[i].name;
    OpsWithin(kids[0], dir, mark);
    assert (dir + [kids[0].name])[|dir|] == kids[0].name;
    if i == 0 {
      OpsWithinAll(kids[1..], dir, mark);
    } else {
      assert kids[i] == kids[1..][i - 1];
      OpsOfChild(kids[1..], dir, mark, i - 1, op);
    }
  }

  /** Inside a purged directory a file is truncated exactly when it is regular and marked, and
      unlinked exactly otherwise. */
  lemma {:induction false} FateInSubtree(n: Node, dir: Path, mark: bool, trail: Trail)
    requires WellFormed(n) && Leads(n, trail) && At(n, trail).kind != Directory
    ensures var p, keep := PathAt(n, dir, trail), At(n, trail).kind == Regular && (mark || TombstoneAbove(n, trail));
            && (Truncate(p) in SubtreeOps(n, dir, mark) <==> keep)
            && (Unlink(p) in SubtreeOps(n, dir, mark) <==> !keep)
    decreases trail
  {
    if trail != [] {
      var i, path, m := trail[0], dir + [n.name], mark || n.st.tombstoneAttr;
      WellFormedChild(n.kids, i);
      FateInSubtree(n.kids[i], path, m, trail[1..]);
      PathWithin(n.kids[i], path, trail[1..]);
      OpsOfChild(n.kids, path, m, i, Truncate(PathAt(n, dir, trail)));
      OpsOfChild(n.kids, path, m, i, Unlink(PathAt(n, dir, trail)));
    }
  }

  /** The same for the purged directory `d`, loaded with flag `tombstone`. */
  lemma FateInTree(d: Node, dir: Path, tombstone: bool, trail: Trail)
    requires WellFormed(d) && Leads(d, trail) && trail != [] && At(d, trail).kind != Directory
    ensures var p := PathAt(d, dir, trail);
            var keep := At(d, trail).kind == Regular && (tombstone || TombstoneAbove(d.kids[trail[0]], trail[1..]));
            && (Truncate(p) in TreeOps(d, dir, tombstone) <==> keep)
            && (Unlink(p) in TreeOps(d, dir, tombstone) <==> !keep)
  {
    var i, path := trail[0], dir + [d.name];
    WellFormedChild(d.kids, i);
    FateInSubtree(d.kids[i], path, tombstone, trail[1..]);
    PathWithin(d.kids[i], path, trail[1..]);
    OpsOfChild(d.kids, path, tombstone, i, Truncate(PathAt(d, dir, trail)));
    OpsOfChild(d.kids, path, tombstone, i, Unlink(PathAt(d, dir, trail)));
  }

  /** The item loadItemsFrom tracks for the end of a trail that no group hides. */
  function ItemAt(n: Node, dir: Path, level: nat, trail: Trail, tomb: bool): Item
    requires Leads(n, trail)
  {
    if trail == [] then ItemsOf(n, dir, level, tomb)[0]
    else ItemAt(n.kids[trail[0]], dir + [n.name], level + 1, trail[1..], tomb || n.st.tombstoneAttr)
  }

  lemma {:induction false} ItemTracked(n: Node, dir: Path, level: nat, trail: Trail, tomb: bool)
    requires Leads(n, trail) && !GroupAbove(n, trail)
    ensures var it, x := ItemAt(n, dir, level, trail, tomb), At(n, trail);
            && it in ItemsOf(n, dir, level, tomb)
            && it.path == PathAt(n, dir, trail) && it.level == level + |trail|
            && it.directory == (x.kind == Directory) && it.modified == Newest(x)
            && (it.size == if x.kind == Directory && x.st.groupAttr then TotalBlocks(Nodes(x)) * BLOCK else x.st.blocks * BLOCK)
            && it.tombstone == (tomb || TombstoneAbove(n, trail) || (x.kind == Directory && x.st.tombstoneAttr))
    decreases trail
  {
    if trail != [] {
      var i := trail[0];
      ItemTracked(n.kids[i], dir + [n.name], level + 1, trail[1..], tomb || n.st.tombstoneAttr);
      ChildItems(n.kids, dir + [n.name], level + 1, tomb || n.st.tombstoneAttr, i);
    }
  }

  lemma {:induction false} ChildItems(kids: seq<Node>, dir: Path, level: nat, tomb: bool, i: nat)
    requires i < |kids|
    ensures forall x <- ItemsOf(kids[i], dir, level, tomb) :: x in ItemsOfAll(kids, dir, level, tomb)
    decreases kids
  {
    if i > 0 {
      ChildItems(kids[1..], dir, level, tomb, i - 1);
    }
  }

  lemma {:induction false} TrailSplit(n: Node, dir: Path, a: Trail, b: Trail)
    requires Leads(n, a + b)
    ensures Leads(n, a) && Leads(At(n, a), b) && At(n, a + b) == At(At(n, a), b)
    ensures PathAt(n, dir, a) != []
    ensures PathAt(n, dir, a + b) == PathAt(At(n, a), DirName(PathAt(n, dir, a)), b)
    ensures TombstoneAbove(n, a + b) == (TombstoneAbove(n, a) || TombstoneAbove(At(n, a), b))
    decreases a
  {
    if a == [] {
      assert a + b == b;
      assert DirName(dir + [n.name]) == dir;
    } else {
      assert (a + b)[1..] == a[1..] + b;
      TrailSplit(n.kids[a[0]], dir + [n.name], a[1..], b);
    }
  }

  /** The two routes.  A file at the end of trail `a + b` below child `n` of the cache root can be
      purged as its own item, or with the tracked directory `d` at the end of `a`.  If it is
      regular, either way it is truncated exactly when a directory above it and below the
      cache root carries the tombstone attribute, and unlinked otherwise. */
  lemma RoutesAgree(n: Node, root: Path, a: Trail, b: Trail)
    requires root != [] && WellFormed(n) && Leads(n, a + b) && b != []
    requires At(n, a + b).kind == Regular && Leads(n, a) && !GroupAbove(n, a)
    ensures var d, p := At(n, a), PathAt(n, root, a + b);
            var item := ItemAt(n, root, 1, a, false);
            var fate := if TombstoneAbove(n, a + b) then Truncate(p) else Unlink(p);
            && item in ItemsOf(n, root, 1, false) && item.directory && item.path != []
            && (forall op <- {Truncate(p), Unlink(p)} ::
                  op in TreeOps(d, DirName(item.path), item.tombstone) <==> op == fate)
            && (!GroupAbove(n, a + b) ==>
                  var own := ItemAt(n, root, 1, a + b, false);
                  own in ItemsOf(n, root, 1, false) && ItemOp(own) == fate)
  {
    TrailSplit(n, root, a, b);
    ItemTracked(n, root, 1, a, false);
    var d, item := At(n, a), ItemAt(n, root, 1, a, false);
    WellFormedAt(n, a);
    FateInTree(d, DirName(item.path), item.tombstone, b);
    if !GroupAbove(n, a + b) {
      ItemTracked(n, root, 1, a + b, false);
    }
  }

  /** For anything else that is not a directory the routes part exactly when it is marked: on its own it
      is truncated (through a symbolic link, its target is), with its directory it is unlinked. */
  lemma RoutesPart(n: Node, root: Path, a: Trail, b: Trail)
    requires root != [] && WellFormed(n) && Leads(n, a + b) && b != []
    requires At(n, a + b).kind != Directory && At(n, a + b).kind != Regular && !GroupAbove(n, a + b)
    ensures Leads(n, a)
    ensures var item, own := ItemAt(n, root, 1, a, false), ItemAt(n, root, 1, a + b, false);
            && own in ItemsOf(n, root, 1, false) && item.path != []
            && (ItemOp(own) in TreeOps(At(n, a), DirName(item.path), item.tombstone) <==> !TombstoneAbove(n, a + b))
  {
    TrailSplit(n, root, a, b);
    GroupSplit(n, a, b);
    ItemTracked(n, root, 1, a, false);
    ItemTracked(n, root, 1, a + b, false);
    WellFormedAt(n, a);
    var item := ItemAt(n, root, 1, a, false);
    FateInTree(At(n, a), DirName(item.path), item.tombstone, b);
  }

  /** A symbolic link in a marked directory is such a case. */
  lemma MarkedLink()
    ensures var st := Stat(0, 0, 0, 0, 0, false, false, 0, 0);
            var n := Node("d", Directory, st.(tombstoneAttr := true), [Node("link", Symlink, st, [])]);
            && Leads(n, [0]) && ItemOp(ItemAt(n, ["cache"], 1, [0], false)) == Truncate(["cache", "d", "link"])
            && TreeOps(n, ["cache"], ItemAt(n, ["cache"], 1, [], false).tombstone)
               == [Unlink(["cache", "d", "link"]), Rmdir(["cache", "d"])]
  {
    var st := Stat(0, 0, 0, 0, 0, false, false, 0, 0);
    var link := Node("link", Symlink, st, []);
    var n := Node("d", Directory, st.(tombstoneAttr := true), [link]);
    assert [0][1..] == [] && n.kids[1..] == [];
    assert ["cache"] + ["d"] == ["cache", "d"] && ["cache", "d"] + ["link"] == ["cache", "d", "link"];
    assert SubtreesOps(n.kids, ["cache", "d"], true) == SubtreeOps(link, ["cache", "d"], true);
  }

  lemma {:induction false} GroupSplit(n: Node, a: Trail, b: Trail)
    requires Leads(n, a + b) && Leads(n, a) && !GroupAbove(n, a + b)
    ensures !GroupAbove(n, a)
    decreases a
  {
    if a != [] {
      assert (a + b)[1..] == a[1..] + b;
      GroupSplit(n.kids[a[0]], a[1..], b);
    }
  }
}
