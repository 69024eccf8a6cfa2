/** CacheTracker::loadItems: the items of all cache directories of an app, sorted for purging. */
module CacheOrder {
  import opened Fts
  import opened CacheItems

  /** The items of every cache directory, in the order the directories are loaded. */
  function AllItems(roots: seq<Node>): seq<Item> {
    if roots == [] then [] else AllItems(roots[..|roots| - 1]) + ItemsBelow(roots[|roots| - 1])
  }

  ghost predicate WellFormedRoots(roots: seq<Node>) {
    && (forall r <- roots :: WellFormed(r))
    && (forall i, j | 0 <= i < j < |roots| :: roots[i].name != roots[j].name)
  }

  lemma {:induction false} RootOf(roots: seq<Node>, x: Item) returns (r: Node)
    requires x in AllItems(roots)
    ensures r in roots && x in ItemsBelow(r) && [r.name] < x.path
  {
    var last := roots[|roots| - 1];
    if x in ItemsBelow(last) {
      r := last;
      ItemsWithinAll(last.kids, [last.name], 1, false, 0);
    } else {
      r := RootOf(roots[..|roots| - 1], x);
    }
  }

  /** Any directory item comes before every item tracked anywhere beneath it. */
  lemma {:induction false} AncestorsBefore(roots: seq<Node>, a: Item, b: Item)
    requires WellFormedRoots(roots)
    requires a in AllItems(roots) && b in AllItems(roots) && Above(a, b)
    ensures Before(a, b)
  {
    var ra := RootOf(roots, a);
    var rb := RootOf(roots, b);
    assert ra.name == a.path[0] == b.path[0] == rb.name;
    assert ra == rb;
    AncestorsFirstAll(ra.kids, [ra.name], 1, false, a, b);
  }

  // ---------- the sort ----------

  ghost predicate Sorted(s: seq<Item>) {
    forall i, j | 0 <= i < j < |s| :: !Before(s[j], s[i])
  }

  /** `x`, which preceded all of `s`, takes its place among them. */
  function Insert(x: Item, s: seq<Item>): seq<Item> {
    if s == [] || !Before(s[0], x) then [x] + s else [s[0]] + Insert(x, s[1..])
  }

  function StableSort(s: seq<Item>): seq<Item> {
    if s == [] then [] else Insert(s[0], StableSort(s[1..]))
  }

  /** The items that compare equal to `k`, in order. */
  function Peers(k: Item, s: seq<Item>): seq<Item> {
    if s == [] then []
    else (if !Before(k, s[0]) && !Before(s[0], k) then [s[0]] else []) + Peers(k, s[1..])
  }

  lemma {:induction false} InsertSorts(x: Item, s: seq<Item>)
    requires Sorted(s)
    ensures Sorted(Insert(x, s)) && multiset(Insert(x, s)) == multiset{x} + multiset(s)
  {
    hide Sorted;
    if s != [] && Before(s[0], x) {
      SortedTail(s);
      InsertSorts(x, s[1..]);
      InsertBehind(x, s);
    } else {
      InsertInFront(x, s);
    }
  }

  lemma SortedTail(s: seq<Item>)
    requires Sorted(s) && s != []
    ensures Sorted(s[1..]) && (forall y <- s[1..] :: !Before(y, s[0])) && multiset(s) == multiset{s[0]} + multiset(s[1..])
  {
    hide Before;
    assert s == [s[0]] + s[1..];
  }

  lemma InsertBehind(x: Item, s: seq<Item>)
    requires s != [] && Sorted(s) && Before(s[0], x)
    requires var r := Insert(x, s[1..]); Sorted(r) && multiset(r) == multiset{x} + multiset(s[1..])
    ensures Sorted(Insert(x, s)) && multiset(Insert(x, s)) == multiset{x} + multiset(s)
  {
    hide Before, Sorted;
    var r := Insert(x, s[1..]);
    SortedTail(s);
    NotBoth(s[0], x);
    forall y <- r ensures !Before(y, s[0]) {
      assert y in multiset(r);
      assert y == x || y in s[1..];
    }
    ConsSorted(s[0], r);
  }

  lemma InsertInFront(x: Item, s: seq<Item>)
    requires Sorted(s) && (s != [] ==> !Before(s[0], x))
    ensures Sorted(Insert(x, s)) && multiset(Insert(x, s)) == multiset{x} + multiset(s)
  {
    hide Before, Sorted;
    if s != [] {
      SortedTail(s);
      forall y <- s ensures !Before(y, x) {
        if y != s[0] {
          assert y in s[1..];
          NotAfter(x, s[0], y);
        }
      }
    }
    ConsSorted(x, s);
  }

  lemma NotBoth(a: Item, b: Item)
    requires Before(a, b)
    ensures !Before(b, a)
  {}

  lemma NotAfter(x: Item, a: Item, b: Item)
    requires !Before(a, x) && !Before(b, a)
    ensures !Before(b, x)
  {}

  lemma ConsSorted(x: Item, s: seq<Item>)
    requires Sorted(s) && forall y <- s :: !Before(y, x)
    ensures Sorted([x] + s) && multiset([x] + s) == multiset{x} + multiset(s)
  {
    hide Before;
    var t := [x] + s;
    forall i, j | 0 <= i < j < |t| ensures !Before(t[j], t[i]) {
      assert t[j] == s[j - 1];
      if i > 0 {
        assert t[i] == s[i - 1];
      }
    }
  }

  lemma {:induction false} InsertStable(k: Item, x: Item, s: seq<Item>)
    ensures Peers(k, Insert(x, s)) == Peers(k, [x] + s)
  {
    assert ([x] + s)[1..] == s;
    if s != [] && Before(s[0], x) {
      var r := Insert(x, s[1..]);
      InsertStable(k, x, s[1..]);
      assert ([x] + s[1..])[1..] == s[1..];
      assert ([s[0]] + r)[1..] == r;
    }
  }

  /** The sort is a stable sort: in order, a permutation, and peers keep their relative order. */
  lemma {:induction false} StableSortSorts(s: seq<Item>)
    ensures Sorted(StableSort(s)) && multiset(StableSort(s)) == multiset(s)
    ensures forall k :: Peers(k, StableSort(s)) == Peers(k, s)
  {
    if s != [] {
      StableSortSorts(s[1..]);
      InsertSorts(s[0], StableSort(s[1..]));
      assert s == [s[0]] + s[1..];
      forall k ensures Peers(k, StableSort(s)) == Peers(k, s) {
        var t := StableSort(s[1..]);
        InsertStable(k, s[0], t);
        assert ([s[0]] + t)[1..] == t;
      }
    }
  }

  /** Whatever order the items end up in, as long as it is a permutation without an inversion, popping
      from the back takes the oldest first and every directory after everything beneath it; of items
      equally old, the deepest first, and of those at the same depth, directories last. */
  lemma PurgeOrder(roots: seq<Node>, s: seq<Item>, i: nat, j: nat)
    requires WellFormedRoots(roots)
    requires Sorted(s) && multiset(s) == multiset(AllItems(roots))
    requires i < j < |s|
    ensures s[j].modified <= s[i].modified && !Above(s[j], s[i])
    ensures s[j].modified == s[i].modified ==> s[j].level >= s[i].level
    ensures s[j].modified == s[i].modified && s[j].level == s[i].level && s[j].directory ==> s[i].directory
  {
    assert s[i] in multiset(s) && s[j] in multiset(s);
    if Above(s[j], s[i]) {
      AncestorsBefore(roots, s[j], s[i]);
    }
  }
}
