/** Ways down a file hierarchy, used to speak about one node of it. */
module Trails {
  import opened Fts

  /** A way down the tree: which child to take at each directory. */
  type Trail = seq<nat>

  predicate Leads(n: Node, trail: Trail) {
    trail == [] || (n.kind == Directory && trail[0] < |n.kids| && Leads(n.kids[trail[0]], trail[1..]))
  }

  function At(n: Node, trail: Trail): Node
    requires Leads(n, trail)
  {
    if trail == [] then n else At(n.kids[trail[0]], trail[1..])
  }

  function PathAt(n: Node, dir: Path, trail: Trail): Path
    requires Leads(n, trail)
  {
    if trail == [] then dir + [n.name] else PathAt(n.kids[trail[0]], dir + [n.name], trail[1..])
  }

  lemma {:induction false} PathWithin(n: Node, dir: Path, trail: Trail)
    requires Leads(n, trail)
    ensures dir + [n.name] <= PathAt(n, dir, trail) && |PathAt(n, dir, trail)| == |dir| + 1 + |trail|
  {
    if trail != [] {
      PathWithin(n.kids[trail[0]], dir + [n.name], trail[1..]);
    }
  }

  lemma {:induction false} WellFormedChild(kids: seq<Node>, i: nat)
    requires WellFormedAll(kids) && i < |kids|
    ensures WellFormed(kids[i])
    decreases kids
  {
    if i > 0 {
      WellFormedChild(kids[1..], i - 1);
    }
  }

  lemma {:induction false} WellFormedAt(n: Node, trail: Trail)
    requires WellFormed(n) && Leads(n, trail)
    ensures WellFormed(At(n, trail))
    decreases trail
  {
    if trail != [] {
      WellFormedChild(n.kids, trail[0]);
      WellFormedAt(n.kids[trail[0]], trail[1..]);
    }
  }

  lemma WellFormedSingle(n: Node)
    requires WellFormed(n)
    ensures WellFormedAll([n])
  {
    assert [n][1..] == [];
  }
}
