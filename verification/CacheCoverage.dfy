/** What an app's tracker has to offer after loadItems: everything in all of its cache directories. */
module CacheCoverage {
  import opened Fts
  import opened Trails
  import opened CacheItems
  import opened CacheOrder
  import opened Purging

  /** All nodes below the roots. */
  function NodesBelow(roots: seq<Node>): seq<Node> {
    if roots == [] then []
    else (if roots[0].kind == Directory then NodesAll(roots[0].kids) else []) + NodesBelow(roots[1..])
  }

  lemma {:induction false} AllItemsFront(roots: seq<Node>)
    requires roots != []
    ensures AllItems(roots) == ItemsBelow(roots[0]) + AllItems(roots[1..])
    decreases |roots|
  {
    var init, last := roots[..|roots| - 1], roots[|roots| - 1];
    if |roots| == 1 {
      assert init == [] && roots[1..] == [];
      assert AllItems(init) + ItemsBelow(last) == ItemsBelow(last) + AllItems(roots[1..]);
    } else {
      AllItemsFront(init);
      assert init[0] == roots[0] && init[1..] == roots[1..][..|roots| - 2];
      Assoc(ItemsBelow(roots[0]), AllItems(init[1..]), ItemsBelow(last));
    }
  }

  lemma {:induction false} AllSizes(roots: seq<Node>)
    ensures TotalSize(AllItems(roots)) == TotalBlocks(NodesBelow(roots)) * BLOCK
    decreases |roots|
  {
    if roots != [] {
      AllItemsFront(roots);
      AllSizes(roots[1..]);
      TotalSizeAppend(ItemsBelow(roots[0]), AllItems(roots[1..]));
      if roots[0].kind == Directory {
        SizesConserved(roots[0]);
        TotalBlocksAppend(NodesAll(roots[0].kids), NodesBelow(roots[1..]));
      } else {
        assert [] + NodesBelow(roots[1..]) == NodesBelow(roots[1..]);
      }
    }
  }

  lemma {:induction false} SizeInsert(x: Item, s: seq<Item>)
    ensures TotalSize(Insert(x, s)) == x.size + TotalSize(s)
  {
    hide Before;
    if s != [] && Before(s[0], x) {
      SizeInsert(x, s[1..]);
      assert ([s[0]] + Insert(x, s[1..]))[1..] == Insert(x, s[1..]);
    } else {
      assert ([x] + s)[1..] == s;
    }
  }

  lemma {:induction false} SizeSort(s: seq<Item>)
    ensures TotalSize(StableSort(s)) == TotalSize(s)
  {
    if s != [] {
      SizeSort(s[1..]);
      SizeInsert(s[0], StableSort(s[1..]));
    }
  }

  /** Every byte in every cache directory of the app is accounted for by an item, once. */
  lemma AllBytesOffered(roots: seq<Node>)
    ensures TotalSize(StableSort(AllItems(roots))) == TotalBlocks(NodesBelow(roots)) * 512
  {
    SizeSort(AllItems(roots));
    AllSizes(roots);
  }

  lemma {:induction false} FromEveryRoot(roots: seq<Node>, k: nat, x: Item)
    requires k < |roots| && x in ItemsBelow(roots[k])
    ensures x in AllItems(roots)
    decreases k
  {
    AllItemsFront(roots);
    if k > 0 {
      FromEveryRoot(roots[1..], k - 1, x);
    }
  }

  /** Everything in every cache directory that no group hides has its item among those offered: with its own
      path, depth, size and mark, and with the newest time below it. */
  lemma EverythingOffered(roots: seq<Node>, k: nat, i: nat, trail: Trail)
    requires k < |roots| && roots[k].kind == Directory && i < |roots[k].kids|
    requires Leads(roots[k].kids[i], trail) && !GroupAbove(roots[k].kids[i], trail)
    ensures var top, dir := roots[k].kids[i], [roots[k].name];
            var x := At(top, trail);
            exists it <- StableSort(AllItems(roots)) ::
              && it.path == PathAt(top, dir, trail) && it.level == 1 + |trail|
              && it.directory == (x.kind == Directory) && it.modified == Newest(x)
              && (it.size == if x.kind == Directory && x.st.groupAttr then TotalBlocks(Nodes(x)) * 512 else x.st.blocks * 512)
              && it.tombstone == (TombstoneAbove(top, trail) || (x.kind == Directory && x.st.tombstoneAttr))
  {
    var root := roots[k];
    var top, dir := root.kids[i], [root.name];
    ItemTracked(top, dir, 1, trail, false);
    var it := ItemAt(top, dir, 1, trail, false);
    ChildItems(root.kids, dir, 1, false, i);
    FromEveryRoot(roots, k, it);
    StableSortSorts(AllItems(roots));
    assert it in multiset(AllItems(roots)) && it in multiset(StableSort(AllItems(roots)));
  }
}
