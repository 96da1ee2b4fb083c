/** The breadth-first order of a fetch: which nodes are requested, and that none is missed. */
module FetchOrder {
  import opened Types
  import opened Arithmetic
  import opened PartitionSpec
  import opened FetchSpec
  import opened FetchProofs

  function Parent(node: Req, p: nat): Req
    requires node.level > 0 && p > 0
  {
    Req(node.level - 1, node.index / p)
  }

  function ChildOf(node: Req, c: nat, p: nat): Req {
    Req(node.level + 1, Child(node.index, c, p))
  }

  lemma ChildHasParent(node: Req, c: nat, p: nat)
    requires c < p
    ensures Parent(ChildOf(node, c, p), p) == node
  {
    ParentOfChild(node.index, c, p);
  }

  lemma ChildrenDiffer(node: Req, c: nat, d: nat, p: nat)
    requires c < p && d < p && c != d
    ensures ChildOf(node, c, p) != ChildOf(node, d, p)
  {
    ParentOfChild(node.index, c, p);
    ParentOfChild(node.index, d, p);
  }

  predicate Differs(dm: Dims, a: seq<Digest>, b: seq<Digest>, node: Req) {
    node.level < dm.levels && DigestAt(dm, a, node) != DigestAt(dm, b, node)
  }

  /** Below a differing node there is a differing block. */
  lemma BlockBelow(dm: Dims, a: seq<Digest>, b: seq<Digest>, node: Req) returns (x: nat)
    requires dm.Valid() && |a| == |b| == dm.numBlocks && Differs(dm, a, b, node)
    ensures x < dm.numBlocks && a[x] != b[x] && Above(x, dm.p, dm.levels - 1 - node.level) == node.index
    ensures HasBlock(dm, node)
  {
    var h := dm.levels - 1 - node.level;
    NodeDeterminesLeaves(a, b, dm.p, h, node.index);
    x :| 0 <= x < |a| && Above(x, dm.p, h) == node.index && a[x] != b[x];
    BlocksAreBelow(x, dm.numBlocks, dm.p, h);
  }

  /** The nodes above a differing block differ. */
  lemma AboveDiffers(dm: Dims, a: seq<Digest>, b: seq<Digest>, x: nat, h: nat)
    requires dm.Valid() && |a| == |b| == dm.numBlocks && h < dm.levels && x < dm.numBlocks && a[x] != b[x]
    ensures Differs(dm, a, b, Req(dm.levels - 1 - h, Above(x, dm.p, h)))
  {
    NodeDeterminesLeaves(a, b, dm.p, h, Above(x, dm.p, h));
  }

  /** A differing internal node has a differing child. */
  lemma SomeChildDiffers(dm: Dims, a: seq<Digest>, b: seq<Digest>, node: Req) returns (c: nat)
    requires dm.Valid() && |a| == |b| == dm.numBlocks
    requires Differs(dm, a, b, node) && !dm.IsLeafLevel(node.level)
    ensures c < dm.p && Differs(dm, a, b, ChildOf(node, c, dm.p))
  {
    var x := BlockBelow(dm, a, b, node);
    var h := dm.levels - 2 - node.level;
    c := Branch(x, dm.p, h);
    BranchIs(x, dm.p, h);
    AboveDiffers(dm, a, b, x, h);
  }

  /** The differing children of a node among its first `c`, in order. */
  function NewNodes(dm: Dims, a: seq<Digest>, b: seq<Digest>, node: Req, c: nat): seq<Req> {
    if c == 0 then []
    else
      var rest := NewNodes(dm, a, b, node, c - 1);
      var child := ChildOf(node, c - 1, dm.p);
      if Differs(dm, a, b, child) then rest + [child] else rest
  }

  lemma {:induction false} NewNodesAre(dm: Dims, a: seq<Digest>, b: seq<Digest>, node: Req, c: nat, r: Req)
    ensures r in NewNodes(dm, a, b, node, c) <==>
            exists d: nat :: d < c && r == ChildOf(node, d, dm.p) && Differs(dm, a, b, r)
  {
    if c > 0 {
      NewNodesAre(dm, a, b, node, c - 1, r);
      if r in NewNodes(dm, a, b, node, c - 1) {
        var d: nat :| d < c - 1 && r == ChildOf(node, d, dm.p) && Differs(dm, a, b, r);
        assert d < c;
      }
    }
  }

  /** What the requests made so far are, `k` of them answered: the root, then differing
      nodes whose parents were answered before, level by level, each once, and every
      differing child of an answered node. */
  ghost predicate Order(dm: Dims, a: seq<Digest>, b: seq<Digest>, order: seq<Req>, k: nat) {
    && dm.Valid() && |a| == |b| == dm.numBlocks
    && k <= |order| && |order| >= 1 && order[0] == Req(0, 0)
    && Distinct(order)
    && Levelled(order, k)
    && (forall j | 1 <= j < |order| :: Wanted(dm, a, b, order, k, j))
    && (forall i | 0 <= i < k :: Expanded(dm, a, b, order, i))
  }

  ghost predicate Distinct(order: seq<Req>) {
    forall i, j | 0 <= i < j < |order| :: order[i] != order[j]
  }

  ghost predicate Levelled(order: seq<Req>, k: nat) {
    && (forall i, j | 0 <= i < j < |order| :: order[i].level <= order[j].level)
    && (k < |order| ==> forall j | 0 <= j < |order| :: order[j].level <= order[k].level + 1)
  }

  ghost predicate Wanted(dm: Dims, a: seq<Digest>, b: seq<Digest>, order: seq<Req>, k: nat, j: nat)
    requires dm.p > 0 && j < |order|
  {
    && order[j].level > 0
    && Differs(dm, a, b, order[j])
    && exists i :: 0 <= i < k && i < |order| && order[i] == Parent(order[j], dm.p)
  }

  ghost predicate Expanded(dm: Dims, a: seq<Digest>, b: seq<Digest>, order: seq<Req>, i: nat)
    requires i < |order|
  {
    forall c: nat | c < dm.p && Differs(dm, a, b, ChildOf(order[i], c, dm.p)) :: ChildOf(order[i], c, dm.p) in order
  }

  lemma RootHasBlock(dm: Dims)
    requires dm.Valid()
    ensures HasBlock(dm, Req(0, 0))
  {
    BlocksAreBelow(0, dm.numBlocks, dm.p, dm.levels - 1);
    AboveZero(dm.p, dm.levels - 1);
  }

  lemma {:induction false} AboveZero(p: nat, h: nat)
    requires p > 0
    ensures Above(0, p, h) == 0
  {
    if h > 0 {
      AboveZero(p, h - 1);
    }
  }

  lemma OrderHasBlocks(dm: Dims, a: seq<Digest>, b: seq<Digest>, order: seq<Req>, k: nat, j: nat)
    requires Order(dm, a, b, order, k) && j < |order|
    ensures HasBlock(dm, order[j])
  {
    if j == 0 {
      RootHasBlock(dm);
    } else {
      assert Wanted(dm, a, b, order, k, j);
      var x := BlockBelow(dm, a, b, order[j]);
    }
  }

  /** The children of the next node are all new. */
  lemma {:induction false} NewAreDistinct(dm: Dims, a: seq<Digest>, b: seq<Digest>, order: seq<Req>, k: nat, c: nat)
    requires Order(dm, a, b, order, k) && k < |order| && c <= dm.p
    ensures Distinct(order + NewNodes(dm, a, b, order[k], c))
  {
    if c > 0 {
      NewAreDistinct(dm, a, b, order, k, c - 1);
      var rest, child := NewNodes(dm, a, b, order[k], c - 1), ChildOf(order[k], c - 1, dm.p);
      if Differs(dm, a, b, child) {
        NewNodesAre(dm, a, b, order[k], c - 1, child);
        forall d: nat | d < c - 1
          ensures ChildOf(order[k], d, dm.p) != child
        {
          ChildrenDiffer(order[k], d, c - 1, dm.p);
        }
        NotYetRequested(dm, a, b, order, k, c - 1);
        assert order + NewNodes(dm, a, b, order[k], c) == (order + rest) + [child];
        assert forall j | 0 <= j < |order + rest| :: (order + rest)[j] in order || (order + rest)[j] in rest;
      }
    }
  }

  lemma NotYetRequested(dm: Dims, a: seq<Digest>, b: seq<Digest>, order: seq<Req>, k: nat, c: nat)
    requires Order(dm, a, b, order, k) && k < |order| && c < dm.p
    ensures ChildOf(order[k], c, dm.p) !in order
  {
    var child := ChildOf(order[k], c, dm.p);
    ChildHasParent(order[k], c, dm.p);
    forall j | 0 <= j < |order|
      ensures order[j] != child
    {
      if j > 0 {
        assert Wanted(dm, a, b, order, k, j);
        var i :| 0 <= i < k && order[i] == Parent(order[j], dm.p);
        assert order[i] != order[k];
      }
    }
  }

  /** At most 2 * numBlocks - 1 requests, and with them the next node's new children. */
  lemma OrderIsShort(dm: Dims, a: seq<Digest>, b: seq<Digest>, order: seq<Req>, k: nat, c: nat)
    requires Order(dm, a, b, order, k) && k < |order| && c <= dm.p && dm.p >= 3
    ensures |order| + |NewNodes(dm, a, b, order[k], c)| <= 2 * dm.numBlocks - 1
  {
    var all := order + NewNodes(dm, a, b, order[k], c);
    NewAreDistinct(dm, a, b, order, k, c);
    forall j | 0 <= j < |all|
      ensures HasBlock(dm, all[j])
    {
      if j < |order| {
        OrderHasBlocks(dm, a, b, order, k, j);
      } else {
        NewNodesAre(dm, a, b, order[k], c, all[j]);
        var x := BlockBelow(dm, a, b, all[j]);
      }
    }
    FewRequests(dm, all);
  }

  // ------------------------------------------------------------- making progress

  lemma NewLevels(dm: Dims, a: seq<Digest>, b: seq<Digest>, node: Req, c: nat)
    ensures forall j | 0 <= j < |NewNodes(dm, a, b, node, c)| :: NewNodes(dm, a, b, node, c)[j].level == node.level + 1
  {
    forall j | 0 <= j < |NewNodes(dm, a, b, node, c)|
      ensures NewNodes(dm, a, b, node, c)[j].level == node.level + 1
    {
      NewNodesAre(dm, a, b, node, c, NewNodes(dm, a, b, node, c)[j]);
    }
  }

  lemma ExtendLevels(order: seq<Req>, added: seq<Req>, k: nat)
    requires Levelled(order, k) && k < |order|
    requires forall j | 0 <= j < |added| :: added[j].level == order[k].level + 1
    ensures Levelled(order + added, k + 1)
  {
    var all := order + added;
    if k + 1 < |all| {
      assert order[k].level <= all[k + 1].level by {
        if k + 1 < |order| {
          assert order[k].level <= order[k + 1].level;
        }
      }
    }
  }

  lemma WantedStays(dm: Dims, a: seq<Digest>, b: seq<Digest>, order: seq<Req>, more: seq<Req>, k: nat, j: nat)
    requires dm.p > 0 && 1 <= j < |order| && Wanted(dm, a, b, order, k, j)
    ensures Wanted(dm, a, b, order + more, k + 1, j)
  {
    var i :| 0 <= i < k && i < |order| && order[i] == Parent(order[j], dm.p);
    assert (order + more)[i] == Parent((order + more)[j], dm.p);
  }

  lemma NewAreWanted(dm: Dims, a: seq<Digest>, b: seq<Digest>, order: seq<Req>, k: nat, j: nat)
    requires dm.p > 0 && k < |order| && j < |NewNodes(dm, a, b, order[k], dm.p)|
    ensures Wanted(dm, a, b, order + NewNodes(dm, a, b, order[k], dm.p), k + 1, |order| + j)
  {
    var added := NewNodes(dm, a, b, order[k], dm.p);
    NewNodesAre(dm, a, b, order[k], dm.p, added[j]);
    var d: nat :| d < dm.p && added[j] == ChildOf(order[k], d, dm.p) && Differs(dm, a, b, added[j]);
    ChildHasParent(order[k], d, dm.p);
    assert (order + added)[k] == Parent((order + added)[|order| + j], dm.p);
  }

  lemma ExpandedStays(dm: Dims, a: seq<Digest>, b: seq<Digest>, order: seq<Req>, more: seq<Req>, i: nat)
    requires i < |order| && Expanded(dm, a, b, order, i)
    ensures Expanded(dm, a, b, order + more, i)
  {
    forall c: nat | c < dm.p && Differs(dm, a, b, ChildOf((order + more)[i], c, dm.p))
      ensures ChildOf((order + more)[i], c, dm.p) in order + more
    {
      assert ChildOf(order[i], c, dm.p) in order;
    }
  }

  lemma NextIsExpanded(dm: Dims, a: seq<Digest>, b: seq<Digest>, order: seq<Req>, k: nat)
    requires k < |order|
    ensures Expanded(dm, a, b, order + NewNodes(dm, a, b, order[k], dm.p), k)
  {
    var all := order + NewNodes(dm, a, b, order[k], dm.p);
    forall c: nat | c < dm.p && Differs(dm, a, b, ChildOf(all[k], c, dm.p))
      ensures ChildOf(all[k], c, dm.p) in all
    {
      NewNodesAre(dm, a, b, order[k], dm.p, ChildOf(order[k], c, dm.p));
    }
  }

  /** Answering the next request and adding its differing children keeps the order. */
  lemma OrderGoesOn(dm: Dims, a: seq<Digest>, b: seq<Digest>, order: seq<Req>, k: nat)
    requires Order(dm, a, b, order, k) && k < |order|
    ensures Order(dm, a, b, order + NewNodes(dm, a, b, order[k], dm.p), k + 1)
  {
    var added := NewNodes(dm, a, b, order[k], dm.p);
    var all := order + added;
    NewAreDistinct(dm, a, b, order, k, dm.p);
    NewLevels(dm, a, b, order[k], dm.p);
    ExtendLevels(order, added, k);
    var next := k + 1;
    forall j | 1 <= j < |all|
      ensures Wanted(dm, a, b, all, next, j)
    {
      if j < |order| {
        assert Wanted(dm, a, b, order, k, j);
        WantedStays(dm, a, b, order, added, k, j);
      } else {
        NewAreWanted(dm, a, b, order, k, j - |order|);
      }
    }
    forall i | 0 <= i < k + 1
      ensures Expanded(dm, a, b, all, i)
    {
      if i < k {
        assert Expanded(dm, a, b, order, i);
        ExpandedStays(dm, a, b, order, added, i);
      } else {
        NextIsExpanded(dm, a, b, order, k);
      }
    }
  }

  lemma {:induction false} LeavesHaveNone(dm: Dims, a: seq<Digest>, b: seq<Digest>, node: Req, c: nat)
    requires node.level + 1 >= dm.levels
    ensures NewNodes(dm, a, b, node, c) == []
  {
    if c > 0 {
      LeavesHaveNone(dm, a, b, node, c - 1);
    }
  }

  /** Once every request has been answered, every differing block was among them. */
  lemma {:induction false} NoneIsMissed(dm: Dims, a: seq<Digest>, b: seq<Digest>, order: seq<Req>, x: nat, h: nat)
    requires Order(dm, a, b, order, |order|) && h < dm.levels && x < dm.numBlocks && a[x] != b[x]
    ensures Req(dm.levels - 1 - h, Above(x, dm.p, h)) in order
    decreases dm.levels - h
  {
    if h == dm.levels - 1 {
      TopIsRoot(dm, x);
      assert order[0] in order;
    } else {
      NoneIsMissed(dm, a, b, order, x, h + 1);
      var i :| 0 <= i < |order| && order[i] == Req(dm.levels - 2 - h, Above(x, dm.p, h + 1));
      assert Expanded(dm, a, b, order, i);
      AboveDiffers(dm, a, b, x, h);
      BranchIs(x, dm.p, h);
      assert ChildOf(order[i], Branch(x, dm.p, h), dm.p) == Req(dm.levels - 1 - h, Above(x, dm.p, h));
    }
  }

  lemma TopIsRoot(dm: Dims, x: nat)
    requires dm.Valid() && x < dm.numBlocks
    ensures Above(x, dm.p, dm.levels - 1) == 0
  {
    BelowPower(x, dm.p, dm.levels - 1, dm.levels - 1);
  }

  lemma {:induction false} BelowPower(x: nat, p: nat, h: nat, n: nat)
    requires p > 0 && h <= n && x < Pow(p, n)
    ensures Above(x, p, h) < Pow(p, n - h)
  {
    if h > 0 {
      BelowPower(x, p, h - 1, n);
      assert Pow(p, n - h + 1) == Pow(p, n - h) * p;
      ParentInRange(Above(x, p, h - 1), p, Pow(p, n - h));
    }
  }
}
