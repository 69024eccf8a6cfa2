/** What CacheTracker::loadItemsFrom makes of a directory tree, twice: as a recursive definition
    over the tree, and as the machine that consumes the fts entries one at a time.  The lemmas
    show that the machine computes the recursive definition, and what that definition guarantees. */
module CacheItems {
  import opened Fts

  const BLOCK := 512

  /** The value of one CacheItem; `path` is what buildPath() yields, unrendered. */
  datatype Item = Item(
    path: Path, level: nat, directory: bool, group: bool, tombstone: bool,
    size: nat, modified: int)

  function Max(a: int, b: int): int { if a < b then b else a }

  // ---------- the recursive definition ----------

  /** The newest modification time in the subtree. */
  function Newest(n: Node): int
    decreases n, 1
  {
    if n.kind == Directory then NewestOf(n.st.mtime, n.kids) else n.st.mtime
  }

  /** The newest of `m` and everything in the subtrees `kids`. */
  function NewestOf(m: int, kids: seq<Node>): int
    decreases kids, 0
  {
    if kids == [] then m else NewestOf(Max(m, Newest(kids[0])), kids[1..])
  }

  function TotalBlocks(ns: seq<Node>): nat {
    if ns == [] then 0 else ns[0].st.blocks + TotalBlocks(ns[1..])
  }

  /** The items tracked for subtree `n`, in walk order; `tomb` tells whether an enclosing tracked
      directory carries the tombstone attribute. */
  function ItemsOf(n: Node, dir: Path, level: nat, tomb: bool): (r: seq<Item>)
    decreases n, 1
  {
    var path := dir + [n.name];
    if n.kind != Directory then
      [Item(path, level, false, false, tomb, n.st.blocks * BLOCK, n.st.mtime)]
    else if n.st.groupAttr then
      [Item(path, level, true, true, tomb || n.st.tombstoneAttr, TotalBlocks(Nodes(n)) * BLOCK, Newest(n))]
    else
      [Item(path, level, true, false, tomb || n.st.tombstoneAttr, n.st.blocks * BLOCK, Newest(n))]
      + ItemsOfAll(n.kids, path, level + 1, tomb || n.st.tombstoneAttr)
  }

  function ItemsOfAll(kids: seq<Node>, dir: Path, level: nat, tomb: bool): (r: seq<Item>)
    decreases kids, 0
  {
    if kids == [] then []
    else ItemsOf(kids[0], dir, level, tomb) + ItemsOfAll(kids[1..], dir, level, tomb)
  }

  // ---------- the machine ----------

  /** `ptr` is the item each entry's fts_pointer refers to (absent: null) as an index into `items`;
      `group` is the group directory whose contents are being collected, if any. */
  datatype Loader = Loader(items: seq<Item>, ptr: map<Path, nat>, group: Group)
  datatype Group = NoGroup | InGroup(index: nat)

  ghost predicate Valid(m: Loader) {
    && (forall p <- m.ptr :: m.ptr[p] < |m.items|)
    && (m.group.InGroup? ==> m.group.index < |m.items|)
  }

  predicate Tracked(m: Loader, p: Path) {
    p in m.ptr && m.ptr[p] < |m.items|
  }

  /** The CacheItem constructor applied to entry `e`: flags are inherited from the parent's item. */
  function NewItem(m: Loader, e: Entry): Item
    requires e.path != []
  {
    var up := DirName(e.path);
    var inherits := Tracked(m, up);
    Item(e.path, e.level, e.node.kind == Directory,
         inherits && m.items[m.ptr[up]].group, inherits && m.items[m.ptr[up]].tombstone,
         e.node.st.blocks * BLOCK, e.node.st.mtime)
  }

  /** The new item, with the attributes loadItemsFrom reads from a directory. */
  function Created(m: Loader, e: Entry): Item
    requires e.path != []
  {
    var it := NewItem(m, e);
    if e.info == D then
      it.(group := it.group || e.node.st.groupAttr, tombstone := it.tombstone || e.node.st.tombstoneAttr)
    else it
  }

  /** Raise the modification time of the item tracked for directory `dir`, if there is one. */
  function Touched(m: Loader, dir: Path, time: int): (items: seq<Item>)
    ensures |items| == |m.items|
  {
    if Tracked(m, dir) then
      var i := m.ptr[dir];
      m.items[i := m.items[i].(modified := Max(m.items[i].modified, time))]
    else m.items
  }

  function Create(m: Loader, e: Entry): Loader
    requires e.path != []
  {
    m.(items := m.items + [Created(m, e)], ptr := m.ptr[e.path := |m.items|])
  }

  function Bubble(m: Loader, path: Path): Loader
    requires path != [] && Tracked(m, path)
  {
    m.(items := Touched(m, DirName(path), m.items[m.ptr[path]].modified))
  }

  datatype Outcome = Crash | Running(m: Loader)

  /** One fts_read and everything done with its entry.  A crash is a null item dereferenced. */
  function Step(m: Loader, e: Entry): Outcome {
    if e.path == [] then Crash
    else if m.group.InGroup? && m.group.index < |m.items| then
      var i := m.group.index;
      if e.info == DP && e.level == m.items[i].level then
        if Tracked(m, e.path) then Running(Bubble(m.(group := NoGroup), e.path)) else Crash
      else if e.info != DP then
        var it := m.items[i];
        Running(m.(items := m.items[i := it.(size := it.size + e.node.st.blocks * BLOCK,
                                             modified := Max(it.modified, e.node.st.mtime))]))
      else Running(m)
    else if e.level == 0 then Running(m)
    else if e.info == DP then
      if Tracked(m, e.path) then Running(Bubble(m, e.path)) else Crash
    else if e.info == D then
      var c := Create(m, e);
      Running(if c.items[|m.items|].group then c.(group := InGroup(|m.items|)) else c)
    else Running(Bubble(Create(m, e), e.path))
  }

  function Load(m: Loader, ev: seq<Entry>): Outcome
    decreases |ev|
  {
    if ev == [] then Running(m)
    else match Step(m, ev[0])
      case Crash => Crash
      case Running(m') => Load(m', ev[1..])
  }

  /** A run that does not crash takes its first step and goes on. */
  lemma LoadStep(m: Loader, ev: seq<Entry>, pos: nat, done: Loader)
    requires pos < |ev| && Load(m, ev[pos..]) == Running(done)
    ensures Step(m, ev[pos]).Running? && Load(Step(m, ev[pos]).m, ev[pos + 1..]) == Running(done)
  {
    assert ev[pos..][1..] == ev[pos + 1..];
  }

  lemma {:induction false} LoadAppend(m: Loader, a: seq<Entry>, b: seq<Entry>)
    ensures Load(m, a + b) == match Load(m, a) case Crash => Crash case Running(m') => Load(m', b)
    decreases |a|
  {
    if a == [] {
      assert a + b == b;
    } else {
      assert (a + b)[1..] == a[1..] + b;
      match Step(m, a[0]) {
        case Crash =>
        case Running(m') => LoadAppend(m', a[1..], b);
      }
    }
  }

  /** No group is being collected, and the directory being read is not part of one. */
  ghost predicate Ready(m: Loader, dir: Path) {
    && Valid(m) && m.group.NoGroup?
    && (Tracked(m, dir) ==> !m.items[m.ptr[dir]].group)
  }

  predicate Tomb(m: Loader, dir: Path) {
    Tracked(m, dir) && m.items[m.ptr[dir]].tombstone
  }

  function TouchedByAll(m: Loader, dir: Path, kids: seq<Node>): seq<Item> {
    if Tracked(m, dir) then
      var i := m.ptr[dir];
      m.items[i := m.items[i].(modified := NewestOf(m.items[i].modified, kids))]
    else m.items
  }

  // ---------- arithmetic of the recursive definition ----------

  lemma {:induction false} NewestOfMax(a: int, b: int, kids: seq<Node>)
    ensures NewestOf(Max(a, b), kids) == Max(a, NewestOf(b, kids))
    decreases |kids|
  {
    if kids != [] {
      var k := Newest(kids[0]);
      assert Max(Max(a, b), k) == Max(a, Max(b, k));
      NewestOfMax(a, Max(b, k), kids[1..]);
    }
  }

  lemma {:induction false} TotalBlocksAppend(a: seq<Node>, b: seq<Node>)
    ensures TotalBlocks(a + b) == TotalBlocks(a) + TotalBlocks(b)
  {
    if a == [] {
      assert a + b == b;
    } else {
      assert (a + b)[1..] == a[1..] + b;
      TotalBlocksAppend(a[1..], b);
    }
  }

  // ---------- the machine inside a group directory ----------

  function Absorb(it: Item, blocks: nat, time: int): Item {
    it.(size := it.size + blocks * BLOCK, modified := Max(it.modified, time))
  }

  ghost predicate Collecting(m: Loader, level: nat) {
    Valid(m) && m.group.InGroup? && m.items[m.group.index].level < level
  }

  function Collected(m: Loader, blocks: nat, time: int): Loader
    requires m.group.InGroup? && m.group.index < |m.items|
  {
    m.(items := m.items[m.group.index := Absorb(m.items[m.group.index], blocks, time)])
  }

  lemma {:induction false} CollectNode(n: Node, parent: Node, dir: Path, level: nat, m: Loader)
    requires Collecting(m, level)
    ensures Load(m, Walk(n, parent, dir, level)) == Running(Collected(m, TotalBlocks(Nodes(n)), Newest(n)))
    decreases n, 1
  {
    if n.kind == Directory {
      CollectDirectory(n, parent, dir, level, m);
    } else {
      var e := Entry(LeafInfo(n.kind), level, dir + [n.name], n, parent);
      CollectStep(m, e, []);
      assert [e] + [] == Walk(n, parent, dir, level);
      assert Nodes(n)[1..] == [];
    }
  }

  /** An entry inside a group that does not end it. */
  lemma {:induction false} CollectStep(m: Loader, e: Entry, rest: seq<Entry>)
    requires Collecting(m, e.level) && e.path != []
    ensures Load(m, [e] + rest) == Load(if e.info == DP then m else Collected(m, e.node.st.blocks, e.node.st.mtime), rest)
  {
    assert ([e] + rest)[1..] == rest;
  }

  lemma {:induction false} CollectDirectory(n: Node, parent: Node, dir: Path, level: nat, m: Loader)
    requires Collecting(m, level) && n.kind == Directory
    ensures Load(m, Walk(n, parent, dir, level)) == Running(Collected(m, TotalBlocks(Nodes(n)), Newest(n)))
    decreases n, 0
  {
    hide Step, Load;
    var path := dir + [n.name];
    var pre, post := Entry(D, level, path, n, parent), Entry(DP, level, path, n, parent);
    var inner := WalkAll(n.kids, n, path, level + 1);
    var m1 := Collected(m, n.st.blocks, n.st.mtime);
    assert Walk(n, parent, dir, level) == [pre] + (inner + [post]);
    CollectStep(m, pre, inner + [post]);
    CollectAll(n.kids, n, path, level + 1, m1);
    LoadAppend(m1, inner, [post]);
    var it := m1.items[m.group.index];
    var m2 := Collected(m1, TotalBlocks(NodesAll(n.kids)), NewestOf(it.modified, n.kids));
    CollectStep(m2, post, []);
    assert [post] + [] == [post];
    LoadEmpty(m2);
    CollectSums(n, m);
  }

  lemma LoadEmpty(m: Loader)
    ensures Load(m, []) == Running(m)
  {}

  /** A directory and then its contents are the whole subtree. */
  lemma CollectSums(n: Node, m: Loader)
    requires m.group.InGroup? && m.group.index < |m.items| && n.kind == Directory
    ensures var m1 := Collected(m, n.st.blocks, n.st.mtime);
            Collected(m1, TotalBlocks(NodesAll(n.kids)), NewestOf(m1.items[m.group.index].modified, n.kids))
            == Collected(m, TotalBlocks(Nodes(n)), Newest(n))
  {
    assert Nodes(n)[1..] == NodesAll(n.kids);
    NewestOfMax(m.items[m.group.index].modified, n.st.mtime, n.kids);
    NewestOfMax(n.st.mtime, n.st.mtime, n.kids);
  }

  lemma {:induction false} CollectAll(kids: seq<Node>, parent: Node, dir: Path, level: nat, m: Loader)
    requires Collecting(m, level)
    ensures var it := m.items[m.group.index];
            Load(m, WalkAll(kids, parent, dir, level)) ==
            Running(Collected(m, TotalBlocks(NodesAll(kids)), NewestOf(it.modified, kids)))
    decreases kids, 0
  {
    var it := m.items[m.group.index];
    if kids == [] {
      assert m.items[m.group.index := it] == m.items;
    } else {
      CollectNode(kids[0], parent, dir, level, m);
      var m1 := Collected(m, TotalBlocks(Nodes(kids[0])), Newest(kids[0]));
      LoadAppend(m, Walk(kids[0], parent, dir, level), WalkAll(kids[1..], parent, dir, level));
      CollectAll(kids[1..], parent, dir, level, m1);
      TotalBlocksAppend(Nodes(kids[0]), NodesAll(kids[1..]));
      var top := m1.items[m.group.index].modified;
      NewestOfMax(it.modified, top, kids[1..]);
      NewestOfMax(top, top, kids[1..]);
    }
  }

  // ---------- the machine computes the recursive definition ----------

  lemma {:induction false} LoadNode(n: Node, parent: Node, dir: Path, level: nat, m: Loader)
    returns (r: Loader)
    requires Ready(m, dir) && level >= 1
    ensures Load(m, Walk(n, parent, dir, level)) == Running(r)
    ensures Ready(r, dir) && SameUpTo(m.ptr, r.ptr, |dir|)
    ensures r.items == Touched(m, dir, Newest(n)) + ItemsOf(n, dir, level, Tomb(m, dir))
    decreases n, 1
  {
    var ev := Walk(n, parent, dir, level);
    var path := dir + [n.name];
    assert DirName(path) == dir;
    var e := ev[0];
    var c := Create(m, e);
    if n.kind != Directory {
      r := Bubble(c, path);
      assert Step(m, e) == Running(r);
      assert ev[1..] == [];
    } else if n.st.groupAttr {
      r := LoadGroup(n, parent, dir, level, m);
    } else {
      assert Step(m, e) == Running(c);
      r := LoadDirectory(n, parent, dir, level, m, c);
    }
  }

  lemma {:induction false} LoadDirectory(n: Node, parent: Node, dir: Path, level: nat, m: Loader, c: Loader)
    returns (r: Loader)
    requires Ready(m, dir) && level >= 1 && n.kind == Directory && !n.st.groupAttr
    requires var e := Walk(n, parent, dir, level)[0]; Step(m, e) == Running(c) && c == Create(m, e)
    ensures Load(m, Walk(n, parent, dir, level)) == Running(r)
    ensures Ready(r, dir) && SameUpTo(m.ptr, r.ptr, |dir|)
    ensures r.items == Touched(m, dir, Newest(n)) + ItemsOf(n, dir, level, Tomb(m, dir))
    decreases n, 0
  {
    hide Step;
    var ev := Walk(n, parent, dir, level);
    var path := dir + [n.name];
    assert DirName(path) == dir;
    var post := Entry(DP, level, path, n, parent);
    var inner := WalkAll(n.kids, n, path, level + 1);
    assert ev[1..] == inner + [post];
    var k := LoadAll(n.kids, n, path, level + 1, c);
    LoadAppend(c, inner, [post]);
    DirectoryItems(n, dir, level, m, ev[0], k);
    r := Bubble(k, path);
    LoadPost(k, post);
  }

  /** The directory's item, raised by its children and passed on to the directory above it. */
  lemma DirectoryItems(n: Node, dir: Path, level: nat, m: Loader, e: Entry, k: Loader)
    requires Ready(m, dir) && n.kind == Directory && !n.st.groupAttr
    requires e.info == D && e.level == level && e.path == dir + [n.name] && e.node == n
    requires Ready(k, e.path) && SameUpTo(Create(m, e).ptr, k.ptr, |e.path|)
    requires k.items == TouchedByAll(Create(m, e), e.path, n.kids)
                        + ItemsOfAll(n.kids, e.path, level + 1, Tomb(Create(m, e), e.path))
    ensures Tracked(k, e.path)
    ensures var r := Bubble(k, e.path);
            && Ready(r, dir) && SameUpTo(m.ptr, r.ptr, |dir|)
            && r.items == Touched(m, dir, Newest(n)) + ItemsOf(n, dir, level, Tomb(m, dir))
  {
    hide ItemsOfAll, NewestOf, ItemsOf;
    assert DirName(e.path) == dir;
    DirectoryOwn(n, dir, level, m, e, k);
    DirectoryPasses(dir, m, e, k, Newest(n), ItemsOf(n, dir, level, Tomb(m, dir)));
  }

  /** Before it is passed on: the items of the subtree follow those there were. */
  lemma DirectoryOwn(n: Node, dir: Path, level: nat, m: Loader, e: Entry, k: Loader)
    requires Ready(m, dir) && n.kind == Directory && !n.st.groupAttr
    requires e.info == D && e.level == level && e.path == dir + [n.name] && e.node == n
    requires SameUpTo(Create(m, e).ptr, k.ptr, |e.path|)
    requires k.items == TouchedByAll(Create(m, e), e.path, n.kids)
                        + ItemsOfAll(n.kids, e.path, level + 1, Tomb(Create(m, e), e.path))
    ensures e.path in k.ptr && k.ptr[e.path] == |m.items|
    ensures var own := ItemsOf(n, dir, level, Tomb(m, dir));
            k.items == m.items + own && own != [] && own[0].modified == Newest(n)
  {
    hide ItemsOfAll, NewestOf;
    assert DirName(e.path) == dir;
    var own := Created(m, e).(modified := Newest(n));
    var c := Create(m, e);
    assert c.ptr[e.path] == |m.items| && c.items == m.items + [Created(m, e)];
    assert TouchedByAll(c, e.path, n.kids) == m.items + [own];
    assert !Created(m, e).group && Tomb(c, e.path) == (Tomb(m, dir) || n.st.tombstoneAttr);
    assert ItemsOf(n, dir, level, Tomb(m, dir)) == [own] + ItemsOfAll(n.kids, e.path, level + 1, Tomb(c, e.path));
    Assoc(m.items, [own], ItemsOfAll(n.kids, e.path, level + 1, Tomb(c, e.path)));
  }

  /** Passing the time of the item at `e.path` on to the directory above it. */
  lemma DirectoryPasses(dir: Path, m: Loader, e: Entry, k: Loader, time: int, own: seq<Item>)
    requires Ready(m, dir) && Ready(k, e.path) && e.path != [] && DirName(e.path) == dir
    requires SameUpTo(Create(m, e).ptr, k.ptr, |e.path|)
    requires e.path in k.ptr && k.ptr[e.path] == |m.items|
    requires k.items == m.items + own && own != [] && own[0].modified == time
    ensures Tracked(k, e.path)
    ensures var r := Bubble(k, e.path);
            Ready(r, dir) && SameUpTo(m.ptr, r.ptr, |dir|) && r.items == Touched(m, dir, time) + own
  {
    assert SameUpTo(m.ptr, k.ptr, |dir|) by {
      assert forall x: Path | |x| <= |dir| :: x != e.path;
    }
    if Tracked(m, dir) {
      var i := m.ptr[dir];
      assert (m.items + own)[i] == m.items[i];
      assert (m.items + own)[|m.items|] == own[0];
    }
  }

  lemma LoadPost(m: Loader, e: Entry)
    requires m.group.NoGroup? && e.level >= 1 && e.info == DP && e.path != [] && Tracked(m, e.path)
    ensures Load(m, [e]) == Running(Bubble(m, e.path))
  {
    assert [e][1..] == [];
  }

  lemma LoadGroupPost(m: Loader, e: Entry)
    requires m.group.InGroup? && m.group.index < |m.items| && m.items[m.group.index].level == e.level
    requires e.info == DP && e.path != [] && Tracked(m, e.path)
    ensures Load(m, [e]) == Running(Bubble(m.(group := NoGroup), e.path))
  {
    assert [e][1..] == [];
  }

  lemma {:induction false} LoadGroup(n: Node, parent: Node, dir: Path, level: nat, m: Loader)
    returns (r: Loader)
    requires Ready(m, dir) && level >= 1 && n.kind == Directory && n.st.groupAttr
    ensures Load(m, Walk(n, parent, dir, level)) == Running(r)
    ensures Ready(r, dir) && SameUpTo(m.ptr, r.ptr, |dir|)
    ensures r.items == Touched(m, dir, Newest(n)) + ItemsOf(n, dir, level, Tomb(m, dir))
  {
    hide Step, SameUpTo, ItemsOf, Touched, Bubble, NodesAll, NewestOf;
    var ev := Walk(n, parent, dir, level);
    var path := dir + [n.name];
    assert DirName(path) == dir;
    var c := Create(m, ev[0]).(group := InGroup(|m.items|));
    EnterGroup(m, ev[0], dir);
    var post := Entry(DP, level, path, n, parent);
    var inner := WalkAll(n.kids, n, path, level + 1);
    assert ev[1..] == inner + [post];
    CollectAll(n.kids, n, path, level + 1, c);
    LoadAppend(c, inner, [post]);
    var g := Collected(c, TotalBlocks(NodesAll(n.kids)), NewestOf(n.st.mtime, n.kids));
    GroupItems(n, dir, level, m, ev[0], g);
    r := Bubble(g.(group := NoGroup), path);
    LoadGroupPost(g, post);
  }

  lemma EnterGroup(m: Loader, e: Entry, dir: Path)
    requires Ready(m, dir) && e.info == D && e.level >= 1 && e.path != [] && DirName(e.path) == dir && e.node.st.groupAttr
    ensures Step(m, e) == Running(Create(m, e).(group := InGroup(|m.items|)))
  {}

  /** The group directory's item, which stands for everything in it. */
  lemma GroupItems(n: Node, dir: Path, level: nat, m: Loader, e: Entry, g: Loader)
    requires Ready(m, dir) && n.kind == Directory && n.st.groupAttr
    requires e.info == D && e.level == level && e.path == dir + [n.name] && e.node == n
    requires g == Collected(Create(m, e).(group := InGroup(|m.items|)),
                            TotalBlocks(NodesAll(n.kids)), NewestOf(n.st.mtime, n.kids))
    ensures Tracked(g, e.path)
    ensures var r := Bubble(g.(group := NoGroup), e.path);
            && Ready(r, dir) && SameUpTo(m.ptr, r.ptr, |dir|)
            && r.items == Touched(m, dir, Newest(n)) + ItemsOf(n, dir, level, Tomb(m, dir))
  {
    assert DirName(e.path) == dir;
    assert Nodes(n)[1..] == NodesAll(n.kids);
    NewestOfMax(n.st.mtime, n.st.mtime, n.kids);
    assert g.items == m.items + ItemsOf(n, dir, level, Tomb(m, dir));
  }

  lemma {:induction false} LoadAll(kids: seq<Node>, parent: Node, dir: Path, level: nat, m: Loader)
    returns (r: Loader)
    requires Ready(m, dir) && level >= 1
    ensures Load(m, WalkAll(kids, parent, dir, level)) == Running(r)
    ensures Ready(r, dir) && SameUpTo(m.ptr, r.ptr, |dir|)
    ensures r.items == TouchedByAll(m, dir, kids) + ItemsOfAll(kids, dir, level, Tomb(m, dir))
    decreases kids, 1
  {
    if kids == [] {
      r := m;
      assert TouchedByAll(m, dir, kids) == m.items;
    } else {
      r := LoadMore(kids, parent, dir, level, m);
    }
  }

  lemma {:induction false} LoadMore(kids: seq<Node>, parent: Node, dir: Path, level: nat, m: Loader)
    returns (r: Loader)
    requires Ready(m, dir) && level >= 1 && kids != []
    ensures Load(m, WalkAll(kids, parent, dir, level)) == Running(r)
    ensures Ready(r, dir) && SameUpTo(m.ptr, r.ptr, |dir|)
    ensures r.items == TouchedByAll(m, dir, kids) + ItemsOfAll(kids, dir, level, Tomb(m, dir))
    decreases kids, 0
  {
    hide Step, Load, Walk, ItemsOf, Touched, TouchedByAll;
    var first, rest := ItemsOf(kids[0], dir, level, Tomb(m, dir)), ItemsOfAll(kids[1..], dir, level, Tomb(m, dir));
    var m1 := LoadNode(kids[0], parent, dir, level, m);
    LoadAppend(m, Walk(kids[0], parent, dir, level), WalkAll(kids[1..], parent, dir, level));
    TouchedTwice(m, m1, dir, kids, first);
    r := LoadAll(kids[1..], parent, dir, level, m1);
    assert r.items == TouchedByAll(m, dir, kids) + (first + rest);
  }

  /** Raising the time by the first child, then by the others, is raising it by all of them. */
  lemma TouchedTwice(m: Loader, m1: Loader, dir: Path, kids: seq<Node>, new': seq<Item>)
    requires kids != [] && Valid(m) && SameUpTo(m.ptr, m1.ptr, |dir|)
    requires m1.items == Touched(m, dir, Newest(kids[0])) + new'
    ensures TouchedByAll(m1, dir, kids[1..]) == TouchedByAll(m, dir, kids) + new'
    ensures Tomb(m1, dir) == Tomb(m, dir)
  {
    if Tracked(m, dir) {
      var i := m.ptr[dir];
      assert m1.items[i] == m.items[i].(modified := Max(m.items[i].modified, Newest(kids[0])));
    }
  }

  /** The items loadItemsFrom appends for one cache directory; the root itself is not tracked. */
  function ItemsBelow(root: Node): seq<Item> {
    if root.kind == Directory then ItemsOfAll(root.kids, [root.name], 1, false) else []
  }

  /** The whole event loop, from a null fts_pointer in every entry, appends exactly the recursive
      definition and never dereferences a missing item nor runs out of entries inside a group. */
  lemma {:induction false} LoadRoot(items: seq<Item>, root: Node) returns (r: Loader)
    ensures Load(Loader(items, map[], NoGroup), Walk(root, root, [], 0)) == Running(r)
    ensures r.group.NoGroup? && r.items == items + ItemsBelow(root)
  {
    var m := Loader(items, map[], NoGroup);
    var ev := Walk(root, root, [], 0);
    assert [] + [root.name] == [root.name];
    assert Step(m, ev[0]) == Running(m);
    if root.kind != Directory {
      assert ev[1..] == [];
      r := m;
    } else {
      var inner := WalkAll(root.kids, root, [root.name], 1);
      var post := Entry(DP, 0, [root.name], root, root);
      assert ev[1..] == inner + [post];
      r := LoadAll(root.kids, root, [root.name], 1, m);
      LoadAppend(m, inner, [post]);
      assert Load(r, [post]) == Running(r);
    }
  }

  // ---------- what the definition guarantees ----------

  function TotalSize(items: seq<Item>): nat {
    if items == [] then 0 else items[0].size + TotalSize(items[1..])
  }

  lemma {:induction false} TotalSizeAppend(a: seq<Item>, b: seq<Item>)
    ensures TotalSize(a + b) == TotalSize(a) + TotalSize(b)
  {
    if a == [] {
      assert a + b == b;
    } else {
      assert (a + b)[1..] == a[1..] + b;
      TotalSizeAppend(a[1..], b);
    }
  }

  lemma {:induction false} SizesOf(n: Node, dir: Path, level: nat, tomb: bool)
    ensures TotalSize(ItemsOf(n, dir, level, tomb)) == TotalBlocks(Nodes(n)) * BLOCK
    decreases n, 1
  {
    assert Nodes(n)[1..] == if n.kind == Directory then NodesAll(n.kids) else [];
    var items := ItemsOf(n, dir, level, tomb);
    if n.kind == Directory && !n.st.groupAttr {
      SizesOfAll(n.kids, dir + [n.name], level + 1, tomb || n.st.tombstoneAttr);
      assert items[1..] == ItemsOfAll(n.kids, dir + [n.name], level + 1, tomb || n.st.tombstoneAttr);
    } else {
      assert items[1..] == [];
    }
  }

  lemma {:induction false} SizesOfAll(kids: seq<Node>, dir: Path, level: nat, tomb: bool)
    ensures TotalSize(ItemsOfAll(kids, dir, level, tomb)) == TotalBlocks(NodesAll(kids)) * BLOCK
    decreases kids, 0
  {
    if kids != [] {
      SizesOf(kids[0], dir, level, tomb);
      SizesOfAll(kids[1..], dir, level, tomb);
      TotalSizeAppend(ItemsOf(kids[0], dir, level, tomb), ItemsOfAll(kids[1..], dir, level, tomb));
      TotalBlocksAppend(Nodes(kids[0]), NodesAll(kids[1..]));
    }
  }

  /** Collapsing groups neither loses nor double counts a byte. */
  lemma SizesConserved(root: Node)
    requires root.kind == Directory
    ensures TotalSize(ItemsBelow(root)) == TotalBlocks(NodesAll(root.kids)) * 512
  {
    SizesOfAll(root.kids, [root.name], 1, false);
  }

  /** Newest is the maximum over the subtree: an upper bound, and attained. */
  lemma {:induction false} NewestIsMaximum(n: Node)
    ensures forall x <- Nodes(n) :: x.st.mtime <= Newest(n)
    ensures exists x <- Nodes(n) :: x.st.mtime == Newest(n)
    decreases n, 1
  {
    if n.kind == Directory {
      NewestOfIsMaximum(n.st.mtime, n.kids);
      assert n in Nodes(n);
    } else {
      assert n in Nodes(n);
    }
  }

  lemma {:induction false} NewestOfIsMaximum(m: int, kids: seq<Node>)
    ensures m <= NewestOf(m, kids)
    ensures forall x <- NodesAll(kids) :: x.st.mtime <= NewestOf(m, kids)
    ensures NewestOf(m, kids) == m || exists x <- NodesAll(kids) :: x.st.mtime == NewestOf(m, kids)
    decreases kids, 0
  {
    if kids != [] {
      NewestIsMaximum(kids[0]);
      NewestOfIsMaximum(Max(m, Newest(kids[0])), kids[1..]);
    }
  }

  // ---------- purge order ----------

  /** Every item of `n` lies at or below its path, no shallower than it, and is no newer. */
  lemma {:induction false} ItemsWithin(n: Node, dir: Path, level: nat, tomb: bool)
    ensures forall x <- ItemsOf(n, dir, level, tomb) ::
              dir + [n.name] <= x.path && level <= x.level && x.modified <= Newest(n)
    decreases n, 1
  {
    if n.kind == Directory && !n.st.groupAttr {
      ItemsWithinAll(n.kids, dir + [n.name], level + 1, tomb || n.st.tombstoneAttr, n.st.mtime);
    }
  }

  lemma {:induction false} ItemsWithinAll(kids: seq<Node>, dir: Path, level: nat, tomb: bool, m: int)
    ensures forall x <- ItemsOfAll(kids, dir, level, tomb) ::
              && dir < x.path && level <= x.level && x.modified <= NewestOf(m, kids)
              && exists k <- kids :: k.name == x.path[|dir|]
    decreases kids, 0
  {
    if kids != [] {
      ItemsWithin(kids[0], dir, level, tomb);
      ItemsWithinAll(kids[1..], dir, level, tomb, Max(m, Newest(kids[0])));
      NewestOfIsMaximum(Max(m, Newest(kids[0])), kids[1..]);
      forall x <- ItemsOf(kids[0], dir, level, tomb)
        ensures x.path[|dir|] == kids[0].name
      {
        assert (dir + [kids[0].name])[|dir|] == kids[0].name;
      }
    }
  }

  /** The order the items are meant to be sorted in: newest first, then shallowest, then
      directories.  Purging pops from the back, so it runs through this order in reverse. */
  predicate Before(a: Item, b: Item) {
    if a.modified != b.modified then a.modified > b.modified
    else if a.level != b.level then a.level < b.level
    else a.directory && !b.directory
  }

  /** The comparator as written. */
  predicate Compare(left: Item, right: Item) {
    if left.modified != right.modified then left.modified > right.modified
    else if left.level != right.level then left.level < right.level
    else left.directory
  }

  /** The comparator departs from the order exactly on two directories with the same time and level
      (an item compared with itself included), where it puts each before the other. */
  lemma ComparatorDefect(a: Item, b: Item)
    ensures Compare(a, b) != Before(a, b) <==>
            a.modified == b.modified && a.level == b.level && a.directory && b.directory
    ensures Compare(a, b) && Compare(b, a) <==>
            a.modified == b.modified && a.level == b.level && a.directory && b.directory
  {}

  /** `a` is a directory on the way to `b`. */
  predicate Above(a: Item, b: Item) {
    a.path < b.path
  }

  lemma {:induction false} AncestorsFirst(n: Node, dir: Path, level: nat, tomb: bool, a: Item, b: Item)
    requires WellFormed(n)
    requires a in ItemsOf(n, dir, level, tomb) && b in ItemsOf(n, dir, level, tomb) && Above(a, b)
    ensures Before(a, b)
    decreases n, 1
  {
    if n.kind == Directory && !n.st.groupAttr {
      var path, t := dir + [n.name], tomb || n.st.tombstoneAttr;
      var items := ItemsOf(n, dir, level, tomb);
      ItemsWithinAll(n.kids, path, level + 1, t, n.st.mtime);
      if a != items[0] {
        AncestorsFirstAll(n.kids, path, level + 1, t, a, b);
      }
    }
  }

  lemma {:induction false} AncestorsFirstAll(kids: seq<Node>, dir: Path, level: nat, tomb: bool, a: Item, b: Item)
    requires WellFormedAll(kids)
    requires a in ItemsOfAll(kids, dir, level, tomb) && b in ItemsOfAll(kids, dir, level, tomb) && Above(a, b)
    ensures Before(a, b)
    decreases kids, 0
  {
    var first, rest := ItemsOf(kids[0], dir, level, tomb), ItemsOfAll(kids[1..], dir, level, tomb);
    ItemsWithin(kids[0], dir, level, tomb);
    ItemsWithinAll(kids[1..], dir, level, tomb, 0);
    assert a in first ==> a.path[|dir|] == (dir + [kids[0].name])[|dir|];
    assert b in first ==> b.path[|dir|] == (dir + [kids[0].name])[|dir|];
    assert a.path[|dir|] == b.path[|dir|];
    if a in first {
      AncestorsFirst(kids[0], dir, level, tomb, a, b);
    } else {
      AncestorsFirstAll(kids[1..], dir, level, tomb, a, b);
    }
  }
}
