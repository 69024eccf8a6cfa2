/** InstalldNativeService::freeCache: bouncing between the apps that are most over their quota. */
module Eviction {
  import opened Fts
  import opened CacheItems
  import opened CacheOrder
  import opened CacheTracking

  /** Trackers are referred to by their position. */
  type Index = nat

  /** The std::priority_queue: each queued tracker with its key at the time it was pushed. */
  type Queue = map<Index, int>

  /** One purge, with everything the loop knew when it decided on it: what every tracker was at the
      time, which ones were queued, and the totals so far. */
  datatype Purge = Purge(tracker: Index, item: Item, all: seq<State>, queued: set<Index>, needed: int, cleared: int)

  datatype Stop = UnderQuota | ReservedSpace | EnoughFree | NothingLeft

  /** What freeCache is asked for; `diskFree(k)` is the k-th answer of the free-space query. */
  datatype Request = Request(target: int, reserved: int, defy: bool, noop: bool, diskFree: nat -> int)

  // ---------- sums and histories ----------

  function Used(v: seq<State>): int {
    if v == [] then 0 else Used(v[..|v| - 1]) + v[|v| - 1].used
  }

  function Left(v: seq<State>): nat {
    if v == [] then 0 else Left(v[..|v| - 1]) + |v[|v| - 1].pending|
  }

  lemma {:induction false} SumsUpdate(v: seq<State>, i: Index, x: State)
    requires i < |v|
    ensures Used(v[i := x]) == Used(v) - v[i].used + x.used
    ensures Left(v[i := x]) == Left(v) - |v[i].pending| + |x.pending|
  {
    var t := v[i := x];
    if i == |v| - 1 {
      assert t[..i] == v[..i];
    } else {
      assert t[..|v| - 1] == v[..|v| - 1][i := x];
      SumsUpdate(v[..|v| - 1], i, x);
    }
  }

  function Reverse(s: seq<Item>): seq<Item> {
    if s == [] then [] else [s[|s| - 1]] + Reverse(s[..|s| - 1])
  }

  /** What was purged from tracker `i`, in order. */
  function PurgedFrom(log: seq<Purge>, i: Index): seq<Item> {
    if log == [] then []
    else PurgedFrom(log[..|log| - 1], i)
         + if log[|log| - 1].tracker == i then [log[|log| - 1].item] else []
  }

  function Bytes(log: seq<Purge>): nat {
    if log == [] then 0 else Bytes(log[..|log| - 1]) + log[|log| - 1].item.size
  }

  function Items(log: seq<Purge>): seq<Item> {
    if log == [] then [] else Items(log[..|log| - 1]) + [log[|log| - 1].item]
  }

  // ---------- what a log amounts to ----------

  /** One item less. */
  function Popped(x: State): State {
    if x.pending == [] then x
    else x.(used := x.used - x.pending[|x.pending| - 1].size, pending := x.pending[..|x.pending| - 1])
  }

  /** What the trackers are after the purges of `log`, whose items are taken from the back. */
  function Replay(v0: seq<State>, log: seq<Purge>): (v: seq<State>)
    ensures |v| == |v0|
  {
    if log == [] then v0
    else
      var v, i := Replay(v0, log[..|log| - 1]), log[|log| - 1].tracker;
      if i < |v| then v[i := Popped(v[i])] else v
  }

  /** How much is believed to be still needed after those purges, and how many free-space queries that
      took: the system is asked again whenever the purges seem to have been enough. */
  function Demand(r: Request, log: seq<Purge>): (d: (int, nat))
    ensures d.1 >= 1 && (d.0 <= 0 ==> r.diskFree(d.1 - 1) >= r.target)
  {
    if log == [] then (r.target - r.diskFree(0), 1)
    else
      var d := Demand(r, log[..|log| - 1]);
      var needed := d.0 - log[|log| - 1].item.size;
      if needed > 0 then (needed, d.1) else (r.target - r.diskFree(d.1), d.1 + 1)
  }

  /** The system was last asked after the first `k` purges, because the last of them made up for all that was
      needed, and no purge since did; so what is needed is what that answer left to be freed, less what
      was purged since. */
  ghost predicate LastAsked(r: Request, log: seq<Purge>, k: nat) {
    var needed, calls := Demand(r, log).0, Demand(r, log).1;
    && k <= |log| && needed == r.target - r.diskFree(calls - 1) - (Bytes(log) - Bytes(log[..k]))
    && (if k == 0 then calls == 1
        else Demand(r, log[..k - 1]).1 == calls - 1 && Demand(r, log[..k - 1]).0 <= log[k - 1].item.size)
    && forall m | k < m <= |log| :: Demand(r, log[..m]).1 == calls && Demand(r, log[..m]).0 > 0
  }

  lemma {:induction false} DemandMeans(r: Request, log: seq<Purge>) returns (k: nat)
    ensures LastAsked(r, log, k)
    decreases |log|
  {
    hide LastAsked, Demand;
    if log == [] {
      k := 0;
      NeverAskedAgain(r);
    } else {
      var init, p := log[..|log| - 1], log[|log| - 1];
      assert log == init + [p];
      k := DemandMeans(r, init);
      if Demand(r, init).0 > p.item.size {
        NotAsked(r, init, p, k);
      } else {
        k := |log|;
        Asked(r, init, p);
      }
    }
  }

  lemma NeverAskedAgain(r: Request)
    ensures LastAsked(r, [], 0)
  {}

  lemma {:induction false} Asked(r: Request, log: seq<Purge>, p: Purge)
    requires Demand(r, log).0 <= p.item.size
    ensures LastAsked(r, log + [p], |log| + 1)
  {
    DemandGrows(r, log, p);
    hide Demand;
    assert (log + [p])[..|log|] == log && (log + [p])[..|log| + 1] == log + [p];
  }

  lemma {:induction false} NotAsked(r: Request, log: seq<Purge>, p: Purge, k: nat)
    requires LastAsked(r, log, k) && Demand(r, log).0 > p.item.size
    ensures LastAsked(r, log + [p], k)
  {
    DemandGrows(r, log, p);
    BytesGrow(log, p);
    hide Demand, Bytes;
    var more := log + [p];
    forall m | 0 <= m <= |log| ensures more[..m] == log[..m] {}
    assert more[..|more|] == more;
    assert log[..|log|] == log;
  }

  lemma BytesGrow(log: seq<Purge>, p: Purge)
    ensures Bytes(log + [p]) == Bytes(log) + p.item.size
  {
    assert (log + [p])[..|log|] == log;
  }

  /** The same but for which items have been loaded. */
  ghost predicate Alike(v: seq<State>, w: seq<State>) {
    |v| == |w| && forall i | 0 <= i < |v| :: v[i] == w[i].(loaded := v[i].loaded)
  }

  /** The k-th purge took the last item of its tracker, and what is recorded with it is what the purges
      before it amount to. */
  ghost predicate Recorded(r: Request, v0: seq<State>, log: seq<Purge>, k: nat)
    requires k < |log|
  {
    var purge, before := log[k], log[..k];
    && Alike(purge.all, Replay(v0, before)) && purge.tracker < |purge.all| && purge.all[purge.tracker].pending != []
    && purge.item == purge.all[purge.tracker].pending[|purge.all[purge.tracker].pending| - 1]
    && purge.needed == Demand(r, before).0 && purge.cleared == Bytes(before)
  }

  // ---------- what every run keeps ----------

  /** A purge the policy allows: space is still needed, the reserve is untouched, the app is over its
      quota unless quotas are to be defied, and no queued app is further over its own. */
  ghost predicate Allowed(r: Request, total: int, p: Purge) {
    && p.needed > 0
    && (r.reserved > 0 ==> p.cleared < total - r.reserved)
    && p.tracker < |p.all| && (r.defy || p.all[p.tracker].Ratio() >= FULL)
    && (forall i <- p.queued :: i < |p.all| && p.all[i].Ratio() <= p.all[p.tracker].Ratio())
    && (forall i: Index | i < |p.all| && i !in p.queued && i != p.tracker :: p.all[i].pending == [])
  }

  /** Tracker `i` of `v` may have other purges after it. */
  ghost predicate Continues(r: Request, v: seq<State>, i: Index) {
    i < |v| && (r.defy || v[i].Ratio() >= FULL)
  }

  /** Every purge is recorded truly and allowed, and none follows one that took its app under its quota. */
  ghost predicate Lawful(r: Request, v0: seq<State>, log: seq<Purge>) {
    && (forall k | 0 <= k < |log| :: Recorded(r, v0, log, k) && Allowed(r, Used(v0), log[k]))
    && (forall k | 0 < k < |log| :: Continues(r, log[k].all, log[k - 1].tracker))
  }

  /** The active tracker, if any, is not queued; every key in the queue is the present ratio of its
      tracker; and whoever is neither queued nor active has nothing left to purge. */
  ghost predicate InPlay(v: seq<State>, active: int, queue: Queue) {
    && (forall i <- queue :: i < |v| && queue[i] == v[i].Ratio())
    && (active >= 0 ==> active < |v| && active !in queue && v[active].loaded)
    && (forall i | 0 <= i < |v| :: i in queue || i == active || (v[i].loaded && v[i].pending == []))
  }

  /** Each tracker's items, last one first, are what was purged from it followed by what it can
      still offer: purges go strictly from the back, and nothing is purged twice or skipped. */
  ghost predicate History(v0: seq<State>, v: seq<State>, log: seq<Purge>) {
    && |v| == |v0|
    && (forall i: Index | i < |v| ::
          v[i].quota == v0[i].quota && v0[i].pending == v[i].pending + Reverse(PurgedFrom(log, i)))
  }

  /** Conservation: what is still used plus what was cleared is what was used at the start. */
  ghost predicate Ledger(v0: seq<State>, v: seq<State>, log: seq<Purge>) {
    Used(v) + Bytes(log) == Used(v0)
  }

  /** Some queued tracker is more over its quota than the active one, or there is no active one. */
  ghost predicate SwapPending(v: seq<State>, active: int, queue: Queue) {
    active < 0 || active >= |v| || exists i <- queue :: v[active].Ratio() < queue[i]
  }

  /** The last purge left its tracker active or over its quota, unless quotas are to be defied. */
  ghost predicate Unbroken(r: Request, v: seq<State>, active: int, log: seq<Purge>) {
    log != [] ==> var i := log[|log| - 1].tracker; i < |v| && (i == active || Continues(r, v, i))
  }

  lemma {:induction false} LawfulGrows(r: Request, v0: seq<State>, log: seq<Purge>, p: Purge)
    requires Lawful(r, v0, log)
    requires Allowed(r, Used(v0), p) && Recorded(r, v0, log + [p], |log|)
    requires log != [] ==> Continues(r, p.all, log[|log| - 1].tracker)
    ensures Lawful(r, v0, log + [p]) && Bytes(log + [p]) == Bytes(log) + p.item.size
  {
    hide Recorded, Allowed, Continues, Used;
    var new' := log + [p];
    assert new'[..|log|] == log;
    forall k | 0 <= k < |new'| ensures Recorded(r, v0, new', k) && Allowed(r, Used(v0), new'[k]) {
      if k < |log| {
        RecordedAgain(r, v0, log, p, k);
      }
    }
    forall k | 0 < k < |new'| ensures Continues(r, new'[k].all, new'[k - 1].tracker) {
      assert k < |log| ==> Continues(r, log[k].all, log[k - 1].tracker);
    }
  }

  /** A later purge does not change what is recorded with an earlier one. */
  lemma RecordedAgain(r: Request, v0: seq<State>, log: seq<Purge>, p: Purge, k: nat)
    requires k < |log| && Recorded(r, v0, log, k)
    ensures Recorded(r, v0, log + [p], k)
  {
    hide Alike, Replay, Demand, Bytes;
    assert (log + [p])[..k] == log[..k];
  }

  /** One more purge in the replay. */
  lemma ReplayGrows(v0: seq<State>, v: seq<State>, log: seq<Purge>, p: Purge, x: State)
    requires Alike(v, Replay(v0, log)) && p.tracker < |v| && v[p.tracker].pending == x.pending + [p.item]
    requires x == v[p.tracker].(used := x.used, pending := x.pending) && x.used == v[p.tracker].used - p.item.size
    ensures Alike(v[p.tracker := x], Replay(v0, log + [p]))
  {
    assert (log + [p])[..|log|] == log;
    assert (x.pending + [p.item])[..|x.pending|] == x.pending;
  }

  lemma ReverseGrows(s: seq<Item>, x: Item)
    ensures Reverse(s + [x]) == [x] + Reverse(s)
  {
    assert (s + [x])[..|s|] == s;
  }

  /** Popping the last item of tracker `k` moves it from the pending items to the log. */
  lemma HistoryGrows(v0: seq<State>, v: seq<State>, log: seq<Purge>, p: Purge, k: Index, x: State)
    requires History(v0, v, log) && k < |v| && v[k].pending != [] && p.tracker == k
    requires v[k].pending == x.pending + [p.item] && x.quota == v[k].quota
    ensures History(v0, v[k := x], log + [p])
  {
    var w := v[k := x];
    forall i: Index | i < |w|
      ensures w[i].quota == v0[i].quota && v0[i].pending == w[i].pending + Reverse(PurgedFrom(log + [p], i))
    {
      assert (log + [p])[..|log|] == log;
      if i == k {
        var purged := PurgedFrom(log, k);
        ReverseGrows(purged, p.item);
        assert (x.pending + [p.item]) + Reverse(purged) == x.pending + ([p.item] + Reverse(purged));
      } else {
        assert PurgedFrom(log, i) + [] == PurgedFrom(log, i);
      }
    }
  }

  // ---------- the objects ----------

  ghost predicate DistinctTrackers(ts: seq<CacheTracker>) {
    forall i, j | 0 <= i < j < |ts| :: ts[i] != ts[j]
  }

  ghost predicate Are(ts: seq<CacheTracker>, v: seq<State>)
    reads ts
  {
    |v| == |ts| && forall i | 0 <= i < |ts| :: ts[i].Now() == v[i]
  }

  ghost function States(ts: seq<CacheTracker>): (v: seq<State>)
    reads ts
    ensures Are(ts, v)
  {
    if ts == [] then [] else States(ts[..|ts| - 1]) + [ts[|ts| - 1].Now()]
  }

  /** top(): a queued tracker whose key at push time is the largest. */
  method Top(queue: Queue) returns (t: Index)
    requires queue.Keys != {}
    ensures t in queue && forall u <- queue :: queue[u] <= queue[t]
  {
    t :| t in queue;
    var rest := queue.Keys - {t};
    while rest != {}
      invariant t in queue && rest <= queue.Keys
      invariant forall u <- queue.Keys - rest :: queue[u] <= queue[t]
      decreases rest
    {
      var u :| u in rest;
      rest := rest - {u};
      if queue[t] < queue[u] {
        t := u;
      }
    }
  }

  /** The trackers as they were, with their usage measured. */
  ghost predicate Weighed(ts: seq<CacheTracker>, before: seq<State>, v: seq<State>, usage: Index -> Usage) {
    && |before| == |v| == |ts|
    && forall i: Index | i < |ts| :: v[i] == before[i].(used := Measured(RootsOf(ts[i].paths), usage(i)))
  }

  method Weigh(ts: seq<CacheTracker>, i: Index, usage: Usage, ghost v: seq<State>) returns (ghost w: seq<State>)
    requires DistinctTrackers(ts) && Are(ts, v) && i < |ts|
    modifies ts[i]
    ensures w == v[i := v[i].(used := Measured(RootsOf(ts[i].paths), usage))] && Are(ts, w)
    ensures ts[i].Ratio() == w[i].Ratio() && ts[i].cacheUsed == w[i].used
  {
    hide CacheRatio, StableSort, Measured, RootsOf;
    ts[i].LoadStats(usage);
    w := v[i := v[i].(used := Measured(RootsOf(ts[i].paths), usage))];
  }

  /** Step 2 of freeCache: every tracker loads its stats and is pushed with its ratio as key. */
  method Populate(ts: seq<CacheTracker>, usage: Index -> Usage)
    returns (queue: Queue, total: int, ghost v: seq<State>)
    requires DistinctTrackers(ts)
    modifies ts
    ensures Are(ts, v) && Weighed(ts, old(States(ts)), v, usage)
    ensures InPlay(v, -1, queue) && total == Used(v)
  {
    hide CacheRatio, StableSort, States, Measured, Are, Used, RootsOf;
    queue, total := map[], 0;
    ghost var before := States(ts);
    v := before;
    AreAsMany(ts, v);
    UsedGrows(v, 0);
    var i := 0;
    while i < |ts|
      invariant 0 <= i <= |ts| == |v| && Are(ts, v) && total == Used(v[..i])
      invariant forall k: Index | k < |ts| ::
                  v[k] == if k < i then before[k].(used := Measured(RootsOf(ts[k].paths), usage(k))) else before[k]
      invariant forall k <- queue :: k < i && queue[k] == v[k].Ratio()
      invariant forall k | 0 <= k < i :: k in queue
    {
      ghost var w := Weigh(ts, i, usage(i), v);
      assert w[..i] == v[..i];
      UsedGrows(w, i);
      v := w;
      queue := queue[i := ts[i].Ratio()];
      total := total + ts[i].cacheUsed;
      i := i + 1;
    }
    assert v[..i] == v;
  }

  lemma UsedGrows(v: seq<State>, i: nat)
    ensures Used([]) == 0 && v[..0] == []
    ensures i < |v| ==> Used(v[..i + 1]) == Used(v[..i]) + v[i].used
  {
    if i < |v| {
      assert v[..i + 1][..i] == v[..i];
    }
  }

  lemma AreAsMany(ts: seq<CacheTracker>, v: seq<State>)
    requires Are(ts, v)
    ensures |ts| == |v|
  {}

  lemma SwapInPlay(v: seq<State>, active: int, queue: Queue, q: Queue, top: Index)
    requires InPlay(v, active, queue) && top in q && (forall i <- q :: q[i] <= q[top])
    requires q == if active < 0 then queue else queue[active := v[active].Ratio()]
    ensures top < |v|
    ensures var v', queue' := v[top := v[top].(loaded := true)], q - {top};
            InPlay(v', top, queue') && !SwapPending(v', top, queue')
    ensures |q - {top}| + 1 == |queue| + if active < 0 then 0 else 1
  {
    hide CacheRatio;
    SwapSize(q, top);
    if active >= 0 {
      assert q - {active} == queue;
      SwapSize(q, active);
    }
  }

  lemma SwapSize(q: Queue, i: Index)
    requires i in q
    ensures |q - {i}| + 1 == |q|
  {
    assert q.Keys == (q - {i}).Keys + {i};
    assert |q.Keys| == |(q - {i}).Keys| + 1;
  }

  /** Put the active tracker, if any, back and install the one that is most over its quota. */
  method Swap(ts: seq<CacheTracker>, active: int, queue: Queue, ghost v: seq<State>)
    returns (active': Index, queue': Queue, ghost v': seq<State>)
    requires DistinctTrackers(ts) && Are(ts, v) && InPlay(v, active, queue) && queue.Keys != {}
    modifies ts
    ensures Are(ts, v') && InPlay(v', active', queue') && !SwapPending(v', active', queue')
    ensures |queue'| + 1 == |queue| + if active < 0 then 0 else 1
    ensures active' < |v| && v' == v[active' := v[active'].(loaded := true)]
  {
    hide CacheRatio, StableSort, SwapPending;
    var q := queue;
    if active >= 0 {
      q := q[active := ts[active].Ratio()];
    }
    active' := Top(q);
    queue' := q - {active'};
    SwapInPlay(v, active, queue, q, active');
    hide InPlay;
    ts[active'].EnsureItems();
    v' := v[active' := v[active'].(loaded := true)];
  }

  /** Pop the last item of the active tracker and account for it. */
  method PurgeBack(ts: seq<CacheTracker>, active: Index, ghost v: seq<State>)
    returns (item: Item, ghost x: State)
    requires DistinctTrackers(ts) && Are(ts, v) && active < |ts| && v[active].loaded && v[active].pending != []
    modifies ts[active]
    ensures v[active].pending == x.pending + [item] && x == v[active].(used := x.used, pending := x.pending)
    ensures x.used == v[active].used - item.size && Are(ts, v[active := x])
  {
    hide StableSort;
    var t := ts[active];
    item := t.items[|t.items| - 1];
    t.items := t.items[..|t.items| - 1];
    t.cacheUsed := t.cacheUsed - item.size;
    x := t.Now();
  }

  /** Whether the active tracker's ratio is known to be the largest; it may not be right after a purge. */
  ghost predicate Leading(v: seq<State>, active: int, queue: Queue, log: seq<Purge>) {
    active >= 0 ==> !SwapPending(v, active, queue) || (log != [] && log[|log| - 1].tracker == active)
  }

  /** An app that the policy would let purge from. */
  ghost predicate Over(x: State) {
    x.pending != [] && x.Ratio() >= FULL
  }

  ghost predicate SomeOver(v: seq<State>) {
    exists i: Index | i < |v| :: Over(v[i])
  }

  ghost predicate OtherOver(v: seq<State>, i: int) {
    exists j: Index | j < |v| :: j != i && Over(v[j])
  }

  /** The last purge was from tracker `i`, and some other one was over its quota then. */
  ghost predicate BrokeOff(log: seq<Purge>, i: int) {
    log != [] && log[|log| - 1].tracker == i && OtherOver(log[|log| - 1].all, i)
  }

  /** Why the loop stopped.  Running out of trackers means that everything was purged.  Stopping at an
      app under its quota leaves an app over its own if and only if the very last purge took the
      first one under while the other one was over. */
  ghost predicate StopMeans(r: Request, stop: Stop, total: int, v: seq<State>, active: int, log: seq<Purge>) {
    && (stop == EnoughFree <==> Demand(r, log).0 <= 0)
    && (stop == NothingLeft ==> forall i: Index | i < |v| :: v[i].loaded && v[i].pending == [])
    && (stop == ReservedSpace ==> r.reserved > 0 && Bytes(log) >= total - r.reserved)
    && (stop == UnderQuota ==>
          !r.defy && 0 <= active < |v| && v[active].Ratio() < FULL && (SomeOver(v) <==> BrokeOff(log, active)))
  }

  /** What the loop keeps between rounds. */
  ghost predicate Running(r: Request, v0: seq<State>, v: seq<State>, active: int, queue: Queue, log: seq<Purge>) {
    && InPlay(v, active, queue) && Leading(v, active, queue, log) && Unbroken(r, v, active, log)
    && History(v0, v, log) && Ledger(v0, v, log) && Lawful(r, v0, log) && Alike(v, Replay(v0, log))
  }

  lemma StartKeeps(r: Request, v: seq<State>, queue: Queue)
    requires InPlay(v, -1, queue)
    ensures Running(r, v, v, -1, queue, []) && Bytes([]) == 0
  {
    Untouched(r, v);
  }

  /** Loading the items of the tracker that is swapped in changes no account. */
  lemma SwapKeeps(r: Request, v0: seq<State>, v: seq<State>, active: int, queue: Queue, log: seq<Purge>,
                  active': Index, queue': Queue)
    requires Running(r, v0, v, active, queue, log) && active' < |v|
    requires active >= 0 ==> r.defy || v[active].Ratio() >= FULL
    requires var v' := v[active' := v[active'].(loaded := true)];
             InPlay(v', active', queue') && !SwapPending(v', active', queue')
    ensures var v' := v[active' := v[active'].(loaded := true)];
            Running(r, v0, v', active', queue', log) && Left(v') == Left(v)
  {
    hide Lawful, CacheRatio, InPlay, SwapPending, Replay, PurgedFrom, Reverse, Used, Left, Bytes;
    SumsUpdate(v, active', v[active'].(loaded := true));
    assert Unbroken(r, v[active' := v[active'].(loaded := true)], active', log);
  }

  lemma DropKeeps(r: Request, v0: seq<State>, v: seq<State>, active: int, queue: Queue, log: seq<Purge>)
    requires Running(r, v0, v, active, queue, log) && active >= 0 && v[active].pending == []
    requires r.defy || v[active].Ratio() >= FULL
    ensures Running(r, v0, v, -1, queue, log)
  {
    hide Lawful, CacheRatio;
  }

  lemma PurgeKeeps(r: Request, v0: seq<State>, v: seq<State>, active: int, queue: Queue, log: seq<Purge>,
                   p: Purge, x: State)
    requires Running(r, v0, v, active, queue, log) && active >= 0 && !SwapPending(v, active, queue)
    requires v[active].pending == x.pending + [p.item] && x == v[active].(used := x.used, pending := x.pending)
    requires x.used == v[active].used - p.item.size
    requires p.tracker == active && p.all == v && p.queued == queue.Keys
    requires p.needed == Demand(r, log).0 && p.cleared == Bytes(log) && p.needed > 0
    requires r.reserved > 0 ==> p.cleared < Used(v0) - r.reserved
    requires r.defy || v[active].Ratio() >= FULL
    ensures Running(r, v0, v[active := x], active, queue, log + [p])
    ensures Left(v[active := x]) < Left(v) && Bytes(log + [p]) == Bytes(log) + p.item.size
  {
    hide CacheRatio, History, Lawful, Bytes, Used, Left, Demand, Replay, Alike;
    PurgeIsLawful(r, v0, v, active, queue, log, p);
    HistoryGrows(v0, v, log, p, active, x);
    SumsUpdate(v, active, x);
    ReplayGrows(v0, v, log, p, x);
  }

  lemma PurgeIsLawful(r: Request, v0: seq<State>, v: seq<State>, active: int, queue: Queue, log: seq<Purge>, p: Purge)
    requires Running(r, v0, v, active, queue, log) && active >= 0 && !SwapPending(v, active, queue)
    requires v[active].pending != [] && p.item == v[active].pending[|v[active].pending| - 1]
    requires p.tracker == active && p.all == v && p.queued == queue.Keys
    requires p.needed == Demand(r, log).0 && p.cleared == Bytes(log) && p.needed > 0
    requires r.reserved > 0 ==> p.cleared < Used(v0) - r.reserved
    requires r.defy || v[active].Ratio() >= FULL
    ensures Lawful(r, v0, log + [p]) && Bytes(log + [p]) == Bytes(log) + p.item.size
  {
    hide CacheRatio, History, Lawful, Bytes, Used, Left, Demand, Replay, Alike, Ledger, Leading;
    assert Allowed(r, Used(v0), p);
    assert (log + [p])[..|log|] == log;
    LawfulGrows(r, v0, log, p);
  }

  /** Comparing with the top of the queue is comparing with everything in it. */
  lemma TopDecides(v: seq<State>, active: Index, queue: Queue, top: Index)
    requires InPlay(v, active, queue) && top in queue && forall i <- queue :: queue[i] <= queue[top]
    ensures SwapPending(v, active, queue) <==> v[active].Ratio() < v[top].Ratio()
  {
    hide CacheRatio;
  }

  lemma NothingToCompare(v: seq<State>, active: int, queue: Queue)
    requires InPlay(v, active, queue) && (active < 0 || queue.Keys == {})
    ensures SwapPending(v, active, queue) <==> active < 0
  {}

  /** After the last purge nothing but its tracker is different. */
  lemma AfterLast(r: Request, v0: seq<State>, v: seq<State>, log: seq<Purge>)
    requires Lawful(r, v0, log) && Alike(v, Replay(v0, log)) && log != []
    ensures var last := log[|log| - 1];
            |last.all| == |v| && forall i: Index | i < |v| && i != last.tracker :: Over(v[i]) == Over(last.all[i])
  {
    hide CacheRatio;
    assert Recorded(r, v0, log, |log| - 1);
  }

  lemma StoppedUnderQuota(r: Request, v0: seq<State>, v: seq<State>, active: int, queue: Queue, log: seq<Purge>)
    requires Running(r, v0, v, active, queue, log) && active >= 0 && v[active].Ratio() < FULL
    ensures SomeOver(v) <==> BrokeOff(log, active)
  {
    hide CacheRatio, Lawful, Replay, History, Ledger, Alike;
    if log != [] {
      AfterLast(r, v0, v, log);
    }
    if SomeOver(v) {
      var i: Index :| i < |v| && Over(v[i]);
      assert i in queue && SwapPending(v, active, queue);
    }
  }

  lemma Stopped(r: Request, stop: Stop, v0: seq<State>, v: seq<State>, active: int, queue: Queue, log: seq<Purge>)
    requires Running(r, v0, v, active, queue, log)
    requires stop == EnoughFree <==> Demand(r, log).0 <= 0
    requires stop == NothingLeft ==> active < 0 && queue.Keys == {}
    requires stop == ReservedSpace ==> r.reserved > 0 && Bytes(log) >= Used(v0) - r.reserved
    requires stop == UnderQuota ==> !r.defy && active >= 0 && v[active].Ratio() < FULL
    ensures StopMeans(r, stop, Used(v0), v, active, log)
    ensures History(v0, v, log) && Ledger(v0, v, log) && Lawful(r, v0, log) && Alike(v, Replay(v0, log))
  {
    hide CacheRatio, Demand, Lawful, Replay, SomeOver, BrokeOff;
    if stop == UnderQuota {
      StoppedUnderQuota(r, v0, v, active, queue, log);
    }
  }

  /** The part of the invariant that the code itself relies on. */
  lemma Facts(r: Request, ts: seq<CacheTracker>, v0: seq<State>, v: seq<State>, active: int, queue: Queue, log: seq<Purge>)
    requires Are(ts, v) && Running(r, v0, v, active, queue, log)
    ensures |v| == |ts| && InPlay(v, active, queue) && (forall i <- queue :: i < |ts|)
    ensures forall i | 0 <= i < |ts| :: ts[i].Ratio() == v[i].Ratio()
    ensures active >= 0 ==> active < |ts| && v[active].loaded && ts[active].items == v[active].pending
  {
    hide CacheRatio, StableSort, Lawful, History, Alike, Replay;
  }

  lemma DemandStart(r: Request)
    ensures Demand(r, []) == (r.target - r.diskFree(0), 1) && Items([]) == []
  {}

  lemma {:induction false} DemandGrows(r: Request, log: seq<Purge>, p: Purge)
    ensures Items(log + [p]) == Items(log) + [p.item]
    ensures var d, e := Demand(r, log), Demand(r, log + [p]);
            var needed := d.0 - p.item.size;
            e == if needed > 0 then (needed, d.1) else (r.target - r.diskFree(d.1), d.1 + 1)
  {
    assert (log + [p])[..|log|] == log;
  }

  /** Whether some queued tracker is further over its quota than the active one. */
  method NextBetter(ts: seq<CacheTracker>, active: int, queue: Queue, ghost v: seq<State>) returns (better: bool)
    requires |v| == |ts| && InPlay(v, active, queue)
    requires forall i | 0 <= i < |ts| :: ts[i].Ratio() == v[i].Ratio()
    ensures SwapPending(v, active, queue) <==> active < 0 || better
    ensures better ==> queue.Keys != {}
  {
    hide CacheRatio, SwapPending;
    better := false;
    if active >= 0 && queue.Keys != {} {
      var top := Top(queue);
      better := ts[active].Ratio() < ts[top].Ratio();
      TopDecides(v, active, queue, top);
    } else {
      NothingToCompare(v, active, queue);
    }
  }

  /** Purge from the active tracker, which nothing queued exceeds. */
  method PurgeOne(ts: seq<CacheTracker>, r: Request, active: Index, queue: Queue,
                  ghost v0: seq<State>, ghost v: seq<State>, ghost log: seq<Purge>)
    returns (item: Item, ghost v': seq<State>, ghost log': seq<Purge>)
    requires DistinctTrackers(ts) && Are(ts, v) && Running(r, v0, v, active, queue, log)
    requires active < |ts| && ts[active].items != [] && !SwapPending(v, active, queue)
    requires Demand(r, log).0 > 0 && (r.reserved > 0 ==> Bytes(log) < Used(v0) - r.reserved)
    requires r.defy || ts[active].Ratio() >= FULL
    modifies ts[active]
    ensures Are(ts, v') && Running(r, v0, v', active, queue, log') && Left(v') < Left(v)
    ensures Bytes(log') == Bytes(log) + item.size && Items(log') == Items(log) + [item]
    ensures var needed, calls := Demand(r, log).0 - item.size, Demand(r, log).1;
            if needed > 0 then Demand(r, log').0 == needed && Demand(r, log').1 == calls
            else Demand(r, log').0 == r.target - r.diskFree(calls) && Demand(r, log').1 == calls + 1
  {
    hide CacheRatio, StableSort, History, Ledger, Lawful, Leading, SwapPending, Bytes, Used, Left,
      Are, InPlay, Running, Items, Demand, Replay, Alike;
    Facts(r, ts, v0, v, active, queue, log);
    ghost var x;
    item, x := PurgeBack(ts, active, v);
    ghost var p := Purge(active, item, v, queue.Keys, Demand(r, log).0, Bytes(log));
    PurgeKeeps(r, v0, v, active, queue, log, p, x);
    DemandGrows(r, log, p);
    log', v' := log + [p], v[active := x];
  }

  /** Steps 2 and 3 of freeCache.  `purged` are the items whose files are deleted. */
  method Bounce(ts: seq<CacheTracker>, r: Request, usage: Index -> Usage)
    returns (cleared: int, stop: Stop, active: int, call: nat, purged: seq<Item>,
             ghost v0: seq<State>, ghost v: seq<State>, ghost log: seq<Purge>)
    requires DistinctTrackers(ts) && r.target > r.diskFree(0)
    modifies ts
    ensures Are(ts, v) && Weighed(ts, old(States(ts)), v0, usage)
    ensures cleared == Bytes(log) && call == Demand(r, log).1 && purged == if r.noop then [] else Items(log)
    ensures Alike(v, Replay(v0, log)) && History(v0, v, log) && Ledger(v0, v, log) && Lawful(r, v0, log)
    ensures StopMeans(r, stop, Used(v0), v, active, log)
  {
    hide CacheRatio, StableSort, History, Ledger, Lawful, Leading, SwapPending, Bytes, Used, Left,
      Are, InPlay, Running, Weighed, Measured, Items, Demand, Replay, Alike, StopMeans;
    cleared, log, call, active, stop, purged := 0, [], 1, -1, NothingLeft, [];
    var queue, total;
    queue, total, v := Populate(ts, usage);
    v0 := v;
    StartKeeps(r, v, queue);
    var needed := r.target - r.diskFree(0);
    DemandStart(r);
    while active >= 0 || queue.Keys != {}
      invariant Are(ts, v) && Running(r, v0, v, active, queue, log)
      invariant cleared == Bytes(log) && needed == Demand(r, log).0 > 0 && call == Demand(r, log).1
      invariant stop == NothingLeft
      invariant purged == if r.noop then [] else Items(log)
      decreases Left(v), |queue| + (if active < 0 then 0 else 1), if SwapPending(v, active, queue) then 1 else 0
    {
      Facts(r, ts, v0, v, active, queue, log);
      if active >= 0 && ts[active].Ratio() < FULL && !r.defy {
        assert v[active].Ratio() < FULL;
        stop := UnderQuota;
        break;
      }

      if r.reserved > 0 && cleared >= total - r.reserved {
        stop := ReservedSpace;
        break;
      }

      var nextBetter := NextBetter(ts, active, queue, v);
      if active < 0 || nextBetter {
        ghost var old_active, old_queue, w := active, queue, v;
        active, queue, v := Swap(ts, active, queue, v);
        SwapKeeps(r, v0, w, old_active, old_queue, log, active, queue);
        continue;
      }

      if ts[active].items == [] {
        DropKeeps(r, v0, v, active, queue, log);
        active := -1;
        continue;
      }
      var item;
      item, v, log := PurgeOne(ts, r, active, queue, v0, v, log);
      if !r.noop {
        purged := purged + [item];
      }
      needed := needed - item.size;
      cleared := cleared + item.size;

      if needed <= 0 {
        needed := r.target - r.diskFree(call);
        call := call + 1;
        if needed <= 0 {
          stop := EnoughFree;
          break;
        }
      }
    }
    Stopped(r, stop, v0, v, active, queue, log);
  }

  /** The outcome of freeCache. */
  datatype Outcome = Success | NoFreeSpaceInfo | LegacyUnsupported | NotEnoughFreed

  /** How the loop ended, if it was entered. */
  datatype End = NotStarted | Stopped(stop: Stop, active: int)

  /** freeCache once the trackers are known; the first and the last free-space query decide between
      doing nothing, success and failure, whatever the loop did in between. */
  method FreeCache(ts: seq<CacheTracker>, r: Request, v2: bool, usage: Index -> Usage)
    returns (result: Outcome, call: nat, end: End, purged: seq<Item>, ghost v0: seq<State>, ghost log: seq<Purge>)
    requires DistinctTrackers(ts)
    modifies ts
    ensures result == NoFreeSpaceInfo <==> r.diskFree(0) < 0
    ensures result == LegacyUnsupported <==> 0 <= r.diskFree(0) < r.target && !v2
    ensures call == Demand(r, log).1 + if end == NotStarted then 0 else 1
    ensures result == Success <==>
              r.diskFree(0) >= 0 && (r.diskFree(0) >= r.target || (v2 && r.diskFree(call - 1) >= r.target))
    ensures end.Stopped? <==> v2 && 0 <= r.diskFree(0) < r.target
    ensures if end.Stopped? then Weighed(ts, old(States(ts)), v0, usage)
            else v0 == old(States(ts)) == States(ts) && log == []
    ensures Alike(States(ts), Replay(v0, log)) && History(v0, States(ts), log) && Ledger(v0, States(ts), log)
    ensures Lawful(r, v0, log) && purged == if r.noop then [] else Items(log)
    ensures end.Stopped? ==> StopMeans(r, end.stop, Used(v0), States(ts), end.active, log)
  {
    hide CacheRatio, StableSort, Lawful, Ledger, History, Used, Are, States, StopMeans, Replay, Alike, Weighed, Measured,
      Demand, Items;
    DemandStart(r);
    call, end, purged, v0, log := 1, NotStarted, [], States(ts), [];
    Untouched(r, v0);
    var free := r.diskFree(0);
    if free < 0 {
      result := NoFreeSpaceInfo;
      return;
    }
    if free >= r.target {
      result := Success;
      return;
    }
    if !v2 {
      result := LegacyUnsupported;
      return;
    }
    var cleared, stop, active;
    ghost var v;
    cleared, stop, active, call, purged, v0, v, log := Bounce(ts, r, usage);
    StatesAre(ts, v);
    end := End.Stopped(stop, active);
    free := r.diskFree(call);
    call := call + 1;
    result := if free >= r.target then Success else NotEnoughFreed;
  }

  lemma StatesAre(ts: seq<CacheTracker>, v: seq<State>)
    requires Are(ts, v)
    ensures States(ts) == v
  {}

  lemma Untouched(r: Request, v: seq<State>)
    ensures History(v, v, []) && Ledger(v, v, []) && Lawful(r, v, []) && Alike(v, Replay(v, []))
  {
    forall i: Index | i < |v| ensures v[i].pending == v[i].pending + Reverse(PurgedFrom([], i)) {
      assert v[i].pending + [] == v[i].pending;
    }
  }

  // ---------- the order of purges within one app ----------

  lemma {:induction false} ReverseAt(s: seq<Item>, k: Index)
    requires k < |s|
    ensures |Reverse(s)| == |s| && Reverse(s)[|s| - 1 - k] == s[k]
  {
    if k == |s| - 1 {
      if k > 0 {
        ReverseAt(s[..k], 0);
      }
    } else {
      ReverseAt(s[..|s| - 1], k);
    }
  }

  /** In every run, an app whose items were not loaded before has them purged oldest first, and
      every directory only after everything tracked beneath it; of items equally old the deepest go
      first, and of those at the same depth directories go last. */
  lemma EvictionOrder(roots: seq<Node>, v0: seq<State>, v: seq<State>, log: seq<Purge>, i: Index, a: nat, b: nat)
    requires WellFormedRoots(roots) && History(v0, v, log) && i < |v|
    requires v0[i].pending == StableSort(AllItems(roots))
    requires a < b < |PurgedFrom(log, i)|
    ensures var first, second := PurgedFrom(log, i)[a], PurgedFrom(log, i)[b];
            && first.modified <= second.modified && !Above(first, second)
            && (first.modified == second.modified ==>
                  && first.level >= second.level
                  && (first.level == second.level && first.directory ==> second.directory))
  {
    hide StableSort, AllItems, PurgedFrom, Reverse, WellFormedRoots, Sorted, Peers, Above;
    var purged, all := PurgedFrom(log, i), StableSort(AllItems(roots));
    assert all == v[i].pending + Reverse(purged);
    StableSortSorts(AllItems(roots));
    ReverseAt(purged, a);
    ReverseAt(purged, b);
    var last := |all| - 1;
    assert all[last - a] == purged[a] && all[last - b] == purged[b];
    PurgeOrder(roots, all, last - b, last - a);
  }
}
