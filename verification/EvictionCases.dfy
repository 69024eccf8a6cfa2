/** What the rules of eviction amount to: purges without defying quotas only hit apps over their quota,
    and an eviction that stops although another app is over its own. */
module EvictionCases {
  import opened Fts
  import opened CacheItems
  import opened CacheOrder
  import opened CacheTracking
  import opened Eviction

  lemma {:induction false} ReplayKeepsQuotas(v0: seq<State>, log: seq<Purge>, i: Index)
    requires i < |v0|
    ensures Replay(v0, log)[i].quota == v0[i].quota
    decreases |log|
  {
    if log != [] {
      ReplayKeepsQuotas(v0, log[..|log| - 1], i);
    }
  }

  /** If quotas are positive and are not to be defied, an app that is purged from uses at least its quota,
      provided that its ratio fits in an int. */
  lemma PurgedIsOverQuota(r: Request, v0: seq<State>, log: seq<Purge>, k: nat)
    requires Lawful(r, v0, log) && k < |log| && !r.defy
    requires forall x <- v0 :: x.quota > 0
    ensures log[k].tracker < |log[k].all|
    ensures var x := log[k].all[log[k].tracker];
            -0x8000_0000 * x.quota < x.used * FULL < 0x8000_0000 * x.quota ==> x.used >= x.quota
  {
    hide CacheRatio, Replay, Demand, Quotient;
    assert Recorded(r, v0, log, k) && Allowed(r, Used(v0), log[k]);
    var i := log[k].tracker;
    ReplayKeepsQuotas(v0, log[..k], i);
    var x := log[k].all[i];
    RatioMeansOverQuota(x.used, x.quota);
  }

  // ---------- an eviction that stops early ----------

  /** A data path with one file in its cache directory and an empty code cache. */
  function OneFile(blocks: nat): DataPath {
    var st := Stat(0, 0, 0, blocks, 0, false, false, 0, 0);
    DataPath(Node("cache", Directory, st, [Node("file", Regular, st, [])]), Node("code_cache", Directory, st, []))
  }

  lemma OneItem(blocks: nat) returns (x: Item)
    ensures StableSort(AllItems(RootsOf([OneFile(blocks)]))) == [x] && x.size == blocks * BLOCK
  {
    var path := OneFile(blocks);
    var file := path.cache.kids[0];
    assert [path][..0] == [];
    assert RootsOf([path]) == [] + [path.cache, path.codeCache];
    TwoMoreRoots([], path.cache, path.codeCache);
    var items := ItemsOf(file, ["cache"], 1, false);
    assert [file][1..] == [];
    assert ItemsOfAll([file], ["cache"], 1, false) == items;
    x := items[0];
    assert AllItems(RootsOf([path])) == [x] && [x][1..] == [];
  }

  /** Two apps with a quota of 100 bytes, one using 1024 in one file and the other 512 in one file. */
  ghost predicate TwoApps(v: seq<State>, x: Item, y: Item) {
    && |v| == 2 && x.size == 1024 && y.size == 512
    && v[0].used == 1024 && v[0].quota == 100 && v[0].pending == [x]
    && v[1].used == 512 && v[1].quota == 100 && v[1].pending == [y]
  }

  lemma Ratios()
    ensures CacheRatio(1024, 100) == 102400 && CacheRatio(512, 100) == 51200 && CacheRatio(0, 100) == 0
  {}

  /** After a purge from the first app it uses nothing. */
  lemma AfterFirstPurge(r: Request, v0: seq<State>, x: Item, y: Item, log: seq<Purge>)
    requires TwoApps(v0, x, y) && |log| > 1 && log[0].tracker == 0 && Recorded(r, v0, log, 1)
    ensures log[1].all != [] && log[1].all[0].Ratio() == 0
  {
    hide Demand;
    assert log[..1][..0] == [] && log[..1][0] == log[0];
    assert Replay(v0, log[..1]) == v0[0 := Popped(v0[0])];
  }

  /** The first app is purged from and is then under its quota, so nothing more is. */
  lemma OnePurge(r: Request, v0: seq<State>, x: Item, y: Item, log: seq<Purge>)
    requires TwoApps(v0, x, y) && Lawful(r, v0, log) && !r.defy && log != []
    ensures |log| == 1 && log[0].tracker == 0
  {
    hide CacheRatio, Demand;
    Ratios();
    assert Recorded(r, v0, log, 0) && Allowed(r, Used(v0), log[0]);
    assert log[..0] == [];
    assert Replay(v0, log[..0]) == v0;
    var all := log[0].all;
    assert all[0].Ratio() == 102400 && all[1].Ratio() == 51200;
    if |log| > 1 {
      AfterFirstPurge(r, v0, x, y, log);
    }
  }

  /** With nothing in reserve and never enough space, that is the only way it can end. */
  lemma OnlyEnd(r: Request, stop: Stop, v0: seq<State>, x: Item, y: Item, v: seq<State>, active: int, log: seq<Purge>)
    requires TwoApps(v0, x, y) && !r.defy && r.reserved == 0 && forall k :: r.diskFree(k) < r.target
    requires Lawful(r, v0, log) && Alike(v, Replay(v0, log)) && StopMeans(r, stop, Used(v0), v, active, log)
    ensures stop == UnderQuota && active == 0 && |v| == 2 && Over(v[1]) && v[1].Ratio() == 51200
    ensures v[0].used == 0 && v[1].used == 512
  {
    hide CacheRatio, Demand, Lawful, SomeOver, BrokeOff;
    Ratios();
    if log != [] {
      OnePurge(r, v0, x, y, log);
      assert log[..0] == [];
      assert Replay(v0, log) == v0[0 := Popped(v0[0])];
      assert v[1].Ratio() == 51200;
    }
  }

  /** The two apps as they are found and measured. */
  lemma Found(ts: seq<CacheTracker>, before: seq<State>, v0: seq<State>, usage: Index -> Usage) returns (x: Item, y: Item)
    requires Weighed(ts, before, v0, usage) && |ts| == 2 && before[0].quota == before[1].quota == 100
    requires before[0].pending == StableSort(AllItems(RootsOf([OneFile(2)])))
    requires before[1].pending == StableSort(AllItems(RootsOf([OneFile(1)])))
    requires usage(0) == Usage(true, 1000, 24, usage(0).treeSize) && usage(1) == Usage(true, 500, 12, usage(1).treeSize)
    ensures TwoApps(v0, x, y)
  {
    x := OneItem(2);
    y := OneItem(1);
    hide StableSort, AllItems, OneFile, CacheRatio;
  }

  lemma StatesOfTwo(ts: seq<CacheTracker>)
    requires |ts| == 2
    ensures States(ts) == [ts[0].Now(), ts[1].Now()]
  {
    hide StableSort, AllItems;
    assert Are(ts, [ts[0].Now(), ts[1].Now()]);
    StatesAre(ts, [ts[0].Now(), ts[1].Now()]);
  }

  /** One app is purged from until it is under its quota.  The loop looks at that before it looks for
      another app, so it stops, although the other one is over its quota. */
  method StopsEarly() returns (stop: Stop, used: seq<int>, ghost v: seq<State>)
    ensures stop == UnderQuota && used == [0, 512] && |v| == 2 && Over(v[1]) && v[1].Ratio() == 51200
  {
    hide StableSort, AllItems, OneFile, States, CacheRatio, Alike, Lawful, StopMeans, History, Ledger, Replay, Demand,
      Weighed, Over, Items, Bytes;
    var first := new CacheTracker([OneFile(2)]);
    var second := new CacheTracker([OneFile(1)]);
    first.cacheQuota, second.cacheQuota := 100, 100;
    var ts := [first, second];
    StatesOfTwo(ts);
    ghost var before := States(ts);
    var r := Request(1000000, 0, false, false, k => 0);
    var usage := i => if i == 0 then Usage(true, 1000, 24, n => 0) else Usage(true, 500, 12, n => 0);
    var cleared, active, call, purged;
    ghost var v0, log;
    cleared, stop, active, call, purged, v0, v, log := Bounce(ts, r, usage);
    ghost var x, y := Found(ts, before, v0, usage);
    OnlyEnd(r, stop, v0, x, y, v, active, log);
    used := [first.cacheUsed, second.cacheUsed];
    assert ts[0].Now() == v[0] && ts[1].Now() == v[1];
  }
}
