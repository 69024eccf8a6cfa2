/** CacheTracker as an object: the fts loop that builds the items in place, the sort, lazy loading
    and the quota ratio. */
module CacheTracking {
  import opened Fts
  import opened CacheItems
  import opened CacheOrder

  /** What a tracker amounts to: `pending` are the items it can still offer, loaded or not. */
  datatype State = State(used: int, quota: int, loaded: bool, pending: seq<Item>) {
    function Ratio(): int {
      CacheRatio(used, quota)
    }
  }

  /** What the system knows about one app's usage: whether there are quotas and a cache GID, what they
      account for (-1 for an error), and the size of any tree. */
  datatype Usage = Usage(quotas: bool, byGid: int, external: int, treeSize: Node -> int) {
    predicate Known() {
      quotas && byGid != -1 && external != -1
    }
  }

  function TreeSizes(roots: seq<Node>, treeSize: Node -> int): int {
    if roots == [] then 0 else TreeSizes(roots[..|roots| - 1], treeSize) + treeSize(roots[|roots| - 1])
  }

  /** The sizes add up, whichever way the directories are divided. */
  lemma {:induction false} TreeSizesAdd(a: seq<Node>, b: seq<Node>, treeSize: Node -> int)
    ensures TreeSizes(a + b, treeSize) == TreeSizes(a, treeSize) + TreeSizes(b, treeSize)
    ensures |b| == 1 ==> TreeSizes(b, treeSize) == treeSize(b[0])
    decreases |b|
  {
    if b == [] {
      assert a + b == a;
    } else {
      assert (a + b)[..|a + b| - 1] == a + b[..|b| - 1];
      TreeSizesAdd(a, b[..|b| - 1], treeSize);
    }
  }

  /** An app's data path, by its two cache directories as found when they are read. */
  datatype DataPath = DataPath(cache: Node, codeCache: Node)

  /** The cache directories of all data paths, in the order they are loaded. */
  function RootsOf(paths: seq<DataPath>): seq<Node> {
    if paths == [] then []
    else RootsOf(paths[..|paths| - 1]) + [paths[|paths| - 1].cache, paths[|paths| - 1].codeCache]
  }

  /** No data path and neither of its directories is left out. */
  lemma {:induction false} BothOfEach(paths: seq<DataPath>, k: nat)
    requires k < |paths|
    ensures var roots := RootsOf(paths);
            |roots| == 2 * |paths| && roots[2 * k] == paths[k].cache && roots[2 * k + 1] == paths[k].codeCache
    decreases |paths|
  {
    var init := paths[..|paths| - 1];
    if k < |init| {
      BothOfEach(init, k);
    } else if init != [] {
      BothOfEach(init, 0);
    }
  }

  /** All of an app's quota usage if both accounts of it are known, and no part of it otherwise. */
  function Measured(roots: seq<Node>, usage: Usage): int {
    if usage.Known() then usage.byGid + usage.external else TreeSizes(roots, usage.treeSize)
  }

  /** What is measured: the two quota accounts together if there are quotas and neither account is in error;
      otherwise, for any way of dividing the data paths, the sizes of both cache directories of each. */
  lemma MeasuredMeans(a: seq<DataPath>, b: seq<DataPath>, p: DataPath, usage: Usage)
    ensures if usage.quotas && usage.byGid != -1 && usage.external != -1
            then Measured(RootsOf(a + b), usage) == usage.byGid + usage.external
            else && Measured(RootsOf(a + b), usage) == Measured(RootsOf(a), usage) + Measured(RootsOf(b), usage)
                 && Measured(RootsOf([p]), usage) == usage.treeSize(p.cache) + usage.treeSize(p.codeCache)
  {
    RootsAppend(a, b);
    TreeSizesAdd(RootsOf(a), RootsOf(b), usage.treeSize);
    assert [p][..0] == [];
    assert RootsOf([p]) == [] + [p.cache, p.codeCache];
    TwoMoreSizes([], p.cache, p.codeCache, usage.treeSize);
  }

  lemma {:induction false} RootsAppend(a: seq<DataPath>, b: seq<DataPath>)
    ensures RootsOf(a + b) == RootsOf(a) + RootsOf(b)
    decreases |b|
  {
    if b == [] {
      assert a + b == a;
    } else {
      var init, last := b[..|b| - 1], b[|b| - 1];
      assert (a + b)[..|a + b| - 1] == a + init;
      RootsAppend(a, init);
      Assoc(RootsOf(a), RootsOf(init), [last.cache, last.codeCache]);
    }
  }

  class CacheTracker {
    var cacheUsed: int
    var cacheQuota: int
    var items: seq<Item>
    var itemsLoaded: bool
    const paths: seq<DataPath>

    constructor (paths: seq<DataPath>)
      ensures this.paths == paths && cacheUsed == 0 && cacheQuota == 0
      ensures items == [] && !itemsLoaded
    {
      this.paths := paths;
      cacheUsed := 0;
      cacheQuota := 0;
      items := [];
      itemsLoaded := false;
    }

    /** loadStats: the space the quotas account for, or else the size of the cache directories. */
    method LoadStats(usage: Usage)
      modifies this`cacheUsed
      ensures cacheUsed == Measured(RootsOf(paths), usage)
    {
      cacheUsed := 0;
      var known := LoadQuotaStats(usage);
      if known {
        return;
      }
      cacheUsed := 0;
      var k := 0;
      while k < |paths|
        invariant 0 <= k <= |paths| && cacheUsed == TreeSizes(RootsOf(paths[..k]), usage.treeSize)
      {
        assert paths[..k + 1][..k] == paths[..k];
        TwoMoreSizes(RootsOf(paths[..k]), paths[k].cache, paths[k].codeCache, usage.treeSize);
        cacheUsed := cacheUsed + usage.treeSize(paths[k].cache);
        cacheUsed := cacheUsed + usage.treeSize(paths[k].codeCache);
        k := k + 1;
      }
      assert paths[..k] == paths;
    }

    /** loadQuotaStats: a failure may leave part of the sum behind. */
    method LoadQuotaStats(usage: Usage) returns (known: bool)
      modifies this`cacheUsed
      ensures known == usage.Known()
      ensures known ==> cacheUsed == old(cacheUsed) + usage.byGid + usage.external
    {
      if !usage.quotas {
        return false;
      }
      if usage.byGid == -1 {
        return false;
      }
      cacheUsed := cacheUsed + usage.byGid;
      if usage.external == -1 {
        return false;
      }
      cacheUsed := cacheUsed + usage.external;
      return true;
    }

    /** loadItemsFrom: the outer fts_read loop.  `ptr` holds the fts_pointer of every entry, as an
        index into `items`. */
    method LoadItemsFrom(root: Node)
      modifies this`items
      ensures items == old(items) + ItemsBelow(root)
    {
      hide Load, Step, Bubble;
      var ev := Walk(root, root, [], 0);
      var pos := 0;
      var ptr: map<Path, nat> := map[];
      ghost var done := LoadRoot(items, root);
      assert ev[0..] == ev;
      while pos < |ev|
        invariant 0 <= pos <= |ev|
        invariant forall q <- ptr :: ptr[q] < |items|
        invariant Load(Loader(items, ptr, NoGroup), ev[pos..]) == Running(done)
      {
        var p := ev[pos];
        ghost var m := Loader(items, ptr, NoGroup);
        LoadStep(m, ev, pos, done);
        StepOutside(m, p);
        pos := pos + 1;
        if p.level == 0 {
          continue;
        }

        if p.info != DP {
          items, ptr := items + [NewItem(Loader(items, ptr, NoGroup), p)], ptr[p.path := |items|];
        }

        if p.info == D {
          var i := ptr[p.path];
          items := items[i := items[i].(group := items[i].group || p.node.st.groupAttr,
                                        tombstone := items[i].tombstone || p.node.st.tombstoneAttr)];
          assert items == Create(m, p).items;

          if items[i].group {
            p, pos := CollectGroup(ev, pos, i, ptr, done);
          }
        }

        if p.info != D {
          BubbleUp(p.path, ptr);
        }
      }
      LoadNothing(Loader(items, ptr, NoGroup), ev[pos..]);
    }

    method BubbleUp(path: Path, ptr: map<Path, nat>)
      requires path != [] && path in ptr && (forall q <- ptr :: ptr[q] < |items|)
      modifies this`items
      ensures |items| == |old(items)|
      ensures Loader(items, ptr, NoGroup) == Bubble(Loader(old(items), ptr, NoGroup), path)
    {
      var i := ptr[path];
      if DirName(path) in ptr {
        var up := ptr[DirName(path)];
        items := items[up := items[up].(modified := Max(items[up].modified, items[i].modified))];
      }
    }

    /** The inner fts_read loop, which ends at the second entry `p` of the group directory itself. */
    method CollectGroup(ev: seq<Entry>, start: nat, i: nat, ghost ptr: map<Path, nat>, ghost done: Loader)
      returns (p: Entry, pos: nat)
      requires start <= |ev| && i < |items| && (forall q <- ptr :: ptr[q] < |items|)
      requires done.group.NoGroup? && Load(Loader(items, ptr, InGroup(i)), ev[start..]) == Running(done)
      modifies this`items
      ensures start < pos <= |ev| && p == ev[pos - 1] && p.info == DP
      ensures |items| == |old(items)| && p.path != [] && p.path in ptr
      ensures Load(Bubble(Loader(items, ptr, NoGroup), p.path), ev[pos..]) == Running(done)
    {
      hide Load, Step;
      GroupNotOver(Loader(items, ptr, InGroup(i)), ev[start..], done);
      pos := start;
      p := ev[pos];
      while !(p.info == DP && p.level == items[i].level)
        invariant start <= pos < |ev| && p == ev[pos] && |items| == |old(items)|
        invariant Load(Loader(items, ptr, InGroup(i)), ev[pos..]) == Running(done)
        decreases |ev| - pos
      {
        GroupStep(Loader(items, ptr, InGroup(i)), ev, pos, done);
        if p.info != DP {
          items := items[i := items[i].(size := items[i].size + p.node.st.blocks * BLOCK,
                                        modified := Max(items[i].modified, p.node.st.mtime))];
        }
        pos := pos + 1;
        GroupNotOver(Loader(items, ptr, InGroup(i)), ev[pos..], done);
        p := ev[pos];
      }
      GroupStep(Loader(items, ptr, InGroup(i)), ev, pos, done);
      pos := pos + 1;
    }

    /** std::stable_sort of the items. */
    method SortItems()
      modifies this`items
      ensures items == StableSort(old(items))
    {
      var s, k := items, |items|;
      items := [];
      assert s[k..] == [];
      while k > 0
        invariant 0 <= k <= |s| && items == StableSort(s[k..])
      {
        k := k - 1;
        assert s[k..][1..] == s[k + 1..];
        items := InsertItem(s[k], items);
      }
      assert s[0..] == s;
    }

    static method InsertItem(x: Item, s: seq<Item>) returns (r: seq<Item>)
      ensures r == Insert(x, s)
    {
      var j := 0;
      assert s[0..] == s;
      while j < |s| && Before(s[j], x)
        invariant 0 <= j <= |s| && Insert(x, s) == s[..j] + Insert(x, s[j..])
      {
        assert s[j..][1..] == s[j + 1..];
        j := j + 1;
      }
      r := s[..j] + ([x] + s[j..]);
    }

    /** Every cache directory, loaded and sorted. */
    method LoadItems()
      modifies this`items
      ensures items == StableSort(AllItems(RootsOf(paths)))
    {
      items := [];
      var k := 0;
      while k < |paths|
        invariant 0 <= k <= |paths| && items == AllItems(RootsOf(paths[..k]))
      {
        assert paths[..k + 1][..k] == paths[..k];
        TwoMoreRoots(RootsOf(paths[..k]), paths[k].cache, paths[k].codeCache);
        LoadItemsFrom(paths[k].cache);
        LoadItemsFrom(paths[k].codeCache);
        k := k + 1;
      }
      assert paths[..k] == paths;
      SortItems();
    }

    /** The items this tracker can still offer, whether or not they have been loaded yet. */
    ghost function Pending(): seq<Item>
      reads this
    {
      if itemsLoaded then items else StableSort(AllItems(RootsOf(paths)))
    }

    method EnsureItems()
      modifies this`items, this`itemsLoaded
      ensures itemsLoaded && items == old(Pending())
    {
      if !itemsLoaded {
        LoadItems();
        itemsLoaded := true;
      }
    }

    /** This tracker as a value. */
    ghost function Now(): State
      reads this
    {
      State(cacheUsed, cacheQuota, itemsLoaded, Pending())
    }

    function Ratio(): int
      reads this
    {
      CacheRatio(cacheUsed, cacheQuota)
    }
  }

  lemma TwoMoreRoots(roots: seq<Node>, a: Node, b: Node)
    ensures AllItems(roots + [a, b]) == AllItems(roots) + ItemsBelow(a) + ItemsBelow(b)
  {
    var two := roots + [a, b];
    assert two[..|two| - 1] == roots + [a] && (roots + [a])[..|roots|] == roots;
  }

  lemma TwoMoreSizes(roots: seq<Node>, a: Node, b: Node, treeSize: Node -> int)
    ensures TreeSizes(roots + [a, b], treeSize) == TreeSizes(roots, treeSize) + treeSize(a) + treeSize(b)
  {
    var two := roots + [a, b];
    assert two[..|two| - 1] == roots + [a] && (roots + [a])[..|roots|] == roots;
  }

  /** One entry inside a group: the group's own second entry ends it, others are added to its item. */
  lemma GroupStep(m: Loader, ev: seq<Entry>, pos: nat, done: Loader)
    requires m.group.InGroup? && m.group.index < |m.items|
    requires pos < |ev| && Load(m, ev[pos..]) == Running(done)
    ensures var i, p := m.group.index, ev[pos];
            var it := m.items[i];
            if p.info == DP && p.level == it.level then
              && p.path != [] && Tracked(m, p.path)
              && Load(Bubble(m.(group := NoGroup), p.path), ev[pos + 1..]) == Running(done)
            else
              var absorbed := it.(size := it.size + p.node.st.blocks * BLOCK, modified := Max(it.modified, p.node.st.mtime));
              Load(m.(items := if p.info != DP then m.items[i := absorbed] else m.items), ev[pos + 1..]) == Running(done)
  {
    hide Load, Step, Bubble;
    LoadStep(m, ev, pos, done);
    StepInGroup(m, ev[pos]);
  }

  /** One entry outside any group. */
  lemma StepOutside(m: Loader, e: Entry)
    requires m.group.NoGroup? && Step(m, e).Running?
    ensures e.path != []
    ensures var r, c := Step(m, e).m, Create(m, e);
            if e.level == 0 then r == m
            else if e.info == DP then Tracked(m, e.path) && r == Bubble(m, e.path)
            else if e.info == D then r == if Created(m, e).group then c.(group := InGroup(|m.items|)) else c
            else Tracked(c, e.path) && r == Bubble(c, e.path)
  {
    hide Bubble;
  }

  lemma StepInGroup(m: Loader, e: Entry)
    requires m.group.InGroup? && m.group.index < |m.items| && Step(m, e).Running?
    ensures var i := m.group.index;
            var it := m.items[i];
            if e.info == DP && e.level == it.level then
              e.path != [] && Tracked(m, e.path) && Step(m, e).m == Bubble(m.(group := NoGroup), e.path)
            else
              var absorbed := it.(size := it.size + e.node.st.blocks * BLOCK, modified := Max(it.modified, e.node.st.mtime));
              Step(m, e).m == m.(items := if e.info != DP then m.items[i := absorbed] else m.items)
  {}

  /** The entries do not run out inside a group. */
  lemma GroupNotOver(m: Loader, ev: seq<Entry>, done: Loader)
    requires m.group.InGroup? && done.group.NoGroup? && Load(m, ev) == Running(done)
    ensures ev != []
  {}

  lemma LoadNothing(m: Loader, ev: seq<Entry>)
    requires ev == []
    ensures Load(m, ev) == Running(m)
  {}

  // ---------- the quota ratio ----------

  /** C++ division truncates toward zero. */
  function Quotient(a: int, b: int): int
    requires b != 0
  {
    if (a >= 0) == (b > 0) then Abs(a) / Abs(b) else -(Abs(a) / Abs(b))
  }

  function Abs(a: int): nat { if a < 0 then -a else a }

  /** Conversion of a 64-bit value to the 32-bit int that getCacheRatio returns. */
  function ToInt32(x: int): int {
    (x + 0x8000_0000) % 0x1_0000_0000 - 0x8000_0000
  }

  const FULL := 10000

  /** getCacheRatio: FULL stands for a cache exactly as large as its quota. */
  function CacheRatio(used: int, quota: int): int {
    if quota == 0 then 0 else ToInt32(Quotient(used * FULL, quota))
  }

  lemma Monotone(x: int, y: int, b: nat)
    requires x <= y
    ensures x * b <= y * b
  {}

  lemma DivAtLeast(a: nat, b: nat, c: nat)
    requires b > 0
    ensures a / b >= c <==> a >= c * b
  {
    var q := a / b;
    assert q * b <= a < q * b + b;
    if q >= c {
      Monotone(c, q, b);
    } else {
      Monotone(q + 1, c, b);
      assert (q + 1) * b == q * b + b;
    }
  }

  lemma ProductAgainstQuota(used: int, quota: int)
    requires quota > 0
    ensures Quotient(used * FULL, quota) >= FULL <==> used >= quota
  {
    if used >= 0 {
      DivAtLeast(used * FULL, quota, FULL);
    } else {
      assert Abs(used * FULL) / quota >= 0;
    }
  }

  lemma WrappedAtLeast(x: int)
    ensures ToInt32(x) >= FULL <==> FULL <= x % 0x1_0000_0000 < 0x8000_0000
    ensures -0x8000_0000 <= x < 0x8000_0000 ==> ToInt32(x) == x
  {}

  /** The quotient fits in an int if the usage is within 214748 quotas either way. */
  lemma RatioFits(used: int, quota: int)
    requires quota > 0 && -0x8000_0000 * quota < used * FULL < 0x8000_0000 * quota
    ensures -0x8000_0000 < Quotient(used * FULL, quota) < 0x8000_0000
  {
    DivAtLeast(Abs(used * FULL), quota, 0x8000_0000);
  }

  /** For a positive quota an app is at or over it exactly if the quotient is 10000 or more, and the ratio is
      exactly if the low 32 bits of the quotient, read as an int, are.  So the ratio tells apps at or
      over their quota from the others wherever the quotient fits in an int. */
  lemma RatioMeansOverQuota(used: int, quota: int)
    requires quota > 0
    ensures var q, over := Quotient(used * FULL, quota), CacheRatio(used, quota) >= FULL;
            && (over <==> FULL <= q % 0x1_0000_0000 < 0x8000_0000)
            && (used >= quota <==> q >= FULL)
            && (-0x8000_0000 <= q < 0x8000_0000 ==> (over <==> used >= quota))
    ensures -0x8000_0000 * quota < used * FULL < 0x8000_0000 * quota ==>
              (CacheRatio(used, quota) >= FULL <==> used >= quota)
  {
    ProductAgainstQuota(used, quota);
    WrappedAtLeast(Quotient(used * FULL, quota));
    if -0x8000_0000 * quota < used * FULL < 0x8000_0000 * quota {
      RatioFits(used, quota);
    }
  }

  lemma NonNegativeOrder(a: nat, p: nat, b: nat, q: nat)
    requires p > 0 && q > 0 && a * q <= b * p
    ensures a / p <= b / q
  {
    var x := a / p;
    assert x * p <= a;
    calc {
      x * q * p;
    ==
      x * p * q;
    <= { Monotone(x * p, a, q); }
      a * q;
    <=
      b * p;
    }
    if x * q > b {
      Monotone(b + 1, x * q, p);
    }
    DivAtLeast(b, q, x);
  }

  /** As long as ratios fit in an int, an app that uses at least as large a share of its quota has at least
      as large a ratio. */
  lemma RatioOrder(used1: int, quota1: int, used2: int, quota2: int)
    requires quota1 > 0 && -0x8000_0000 * quota1 < used1 * FULL < 0x8000_0000 * quota1
    requires quota2 > 0 && -0x8000_0000 * quota2 < used2 * FULL < 0x8000_0000 * quota2
    requires used1 * quota2 <= used2 * quota1
    ensures CacheRatio(used1, quota1) <= CacheRatio(used2, quota2)
  {
    RatioFits(used1, quota1);
    RatioFits(used2, quota2);
    WrappedAtLeast(Quotient(used1 * FULL, quota1));
    WrappedAtLeast(Quotient(used2 * FULL, quota2));
    QuotientOrder(used1, quota1, used2, quota2);
  }

  lemma QuotientOrder(used1: int, quota1: int, used2: int, quota2: int)
    requires quota1 > 0 && quota2 > 0 && used1 * quota2 <= used2 * quota1
    ensures Quotient(used1 * FULL, quota1) <= Quotient(used2 * FULL, quota2)
  {
    hide Quotient;
    Scaled(used1, quota2, used2, quota1);
    ShareOrder(used1 * FULL, quota1, used2 * FULL, quota2);
  }

  lemma Scaled(a: int, q: int, b: int, p: int)
    requires a * q <= b * p
    ensures (a * FULL) * q <= (b * FULL) * p
  {
    assert (a * FULL) * q == (a * q) * FULL && (b * FULL) * p == (b * p) * FULL;
  }

  lemma ShareOrder(a: int, p: int, b: int, q: int)
    requires p > 0 && q > 0 && a * q <= b * p
    ensures Quotient(a, p) <= Quotient(b, q)
  {
    QuotientIs(a, p);
    QuotientIs(b, q);
    hide Quotient;
    if a >= 0 {
      SameSign(a, q, b, p);
      NonNegativeOrder(a, p, b, q);
    } else if b < 0 {
      assert (-b) * p == -(b * p) && (-a) * q == -(a * q);
      NonNegativeOrder(-b, q, -a, p);
    }
  }

  lemma QuotientIs(a: int, b: int)
    requires b > 0
    ensures a >= 0 ==> Quotient(a, b) == a / b && Quotient(a, b) >= 0
    ensures a < 0 ==> Quotient(a, b) == -((-a) / b) && Quotient(a, b) <= 0
  {}

  lemma SameSign(a: int, q: int, b: int, p: int)
    requires a >= 0 && q > 0 && p > 0 && a * q <= b * p
    ensures b >= 0
  {
    if b < 0 {
      Monotone(b, -1, p);
      Monotone(0, a, q);
    }
  }

  /** It fails both ways: an app 214749 times over a 64 MB quota has a negative ratio, and one whose usage
      was taken far below zero looks over its quota.  Without a quota nothing looks over it. */
  lemma RatioWraps()
    ensures var quota, used := 67108864, 214749 * 67108864;
            used >= quota && CacheRatio(used, quota) < 0
    ensures CacheRatio(-300000, 1) >= FULL
    ensures forall used :: CacheRatio(used, 0) == 0
  {
    assert Quotient(214749 * 67108864 * 10000, 67108864) == 2147490000;
    assert Quotient(-300000 * 10000, 1) == -3000000000;
  }
}
