/** The fetch converges: against one honest, quiescent replier over a loss-free channel that
    keeps the order, it ends, and ends with the replier's state. */
module FetchProofs {
  import opened Types
  import opened Quorums
  import opened Arithmetic
  import opened PartitionSpec
  import opened FetchSpec

  // -------------------------------------------- how many nodes can be enqueued

  /** The number of nodes at height `h` with a block below them. */
  function Width(blocks: nat, p: nat, h: nat): nat
    requires p > 0
  {
    if h == 0 then blocks else CeilDiv(Width(blocks, p, h - 1), p)
  }

  lemma {:induction false} BlocksAreBelow(b: nat, blocks: nat, p: nat, h: nat)
    requires p > 0 && b < blocks
    ensures Above(b, p, h) < Width(blocks, p, h)
  {
    if h > 0 {
      BlocksAreBelow(b, blocks, p, h - 1);
      DivGrows(Above(b, p, h - 1), Width(blocks, p, h - 1) - 1, p);
    }
  }

  /** The nodes with a block below them, at heights up to `h`. */
  function Total(blocks: nat, p: nat, h: nat): nat
    requires p > 0
    decreases h
  {
    if h == 0 then blocks else blocks + Total(CeilDiv(blocks, p), p, h - 1)
  }

  lemma CeilFits(blocks: nat, p: nat, top: nat)
    requires p > 0 && blocks <= p * top
    ensures CeilDiv(blocks, p) <= top
  {
    var c := CeilDiv(blocks, p);
    CeilDivBounds(blocks, p);
    assert (top - c) * p == top * p - c * p;
    FactorFrom(top - c, p);
  }

  lemma CeilExceeds(blocks: nat, p: nat, below: nat)
    requires p > 0 && p * below < blocks
    ensures below < CeilDiv(blocks, p)
  {
    var c := CeilDiv(blocks, p);
    CeilDivBounds(blocks, p);
    assert (c - below - 1) * p == c * p - below * p - p;
    FactorFrom(c - below - 1, p);
  }

  /** One level fewer suffices for, and is needed by, the parents. */
  lemma ParentsNeedOneLevelLess(blocks: nat, p: nat, levels: nat)
    requires p >= 2 && levels >= 2 && LeastLevels(levels, blocks, p)
    ensures LeastLevels(levels - 1, CeilDiv(blocks, p), p)
  {
    CeilFits(blocks, p, Pow(p, levels - 2));
    if levels >= 3 {
      CeilExceeds(blocks, p, Pow(p, levels - 3));
    }
  }

  lemma TwoThirds(blocks: nat, p: nat)
    requires p >= 3 && blocks >= 2
    ensures 1 <= CeilDiv(blocks, p) && 2 * CeilDiv(blocks, p) <= blocks
  {
    var q := (blocks - 1) / p;
    Sign(-q, p - 3);
    assert q * p <= blocks - 1;
    assert 3 * q <= blocks - 1;
  }

  /** With at least three children and the least number of levels, fewer than twice as many
      nodes as there are blocks. */
  lemma {:induction false} FewNodes(blocks: nat, p: nat, levels: nat)
    requires p >= 3 && blocks >= 1 && LeastLevels(levels, blocks, p)
    ensures Total(blocks, p, levels - 1) <= 2 * blocks - 1
    decreases levels
  {
    if levels >= 2 {
      ParentsNeedOneLevelLess(blocks, p, levels);
      if blocks >= 2 {
        TwoThirds(blocks, p);
        FewNodes(CeilDiv(blocks, p), p, levels - 1);
      }
    }
  }

  lemma {:induction false} WidthOfParents(blocks: nat, p: nat, h: nat)
    requires p > 0
    ensures Width(CeilDiv(blocks, p), p, h) == Width(blocks, p, h + 1)
  {
    if h > 0 {
      WidthOfParents(blocks, p, h - 1);
    }
  }

  /** The number of nodes with a block below them at heights below `h`. */
  function Before(blocks: nat, p: nat, h: nat): nat
    requires p > 0
  {
    if h == 0 then 0 else Before(blocks, p, h - 1) + Width(blocks, p, h - 1)
  }

  lemma {:induction false} BeforeGrows(blocks: nat, p: nat, j: nat, k: nat)
    requires p > 0 && j <= k
    ensures Before(blocks, p, j) <= Before(blocks, p, k)
  {
    if j < k {
      BeforeGrows(blocks, p, j, k - 1);
    }
  }

  lemma {:induction false} BeforeIsTotal(blocks: nat, p: nat, h: nat)
    requires p > 0
    ensures Before(blocks, p, h + 1) == Total(blocks, p, h)
    ensures Before(blocks, p, h + 2) == blocks + Before(CeilDiv(blocks, p), p, h + 1)
    decreases h
  {
    WidthOfParents(blocks, p, h);
    if h > 0 {
      BeforeIsTotal(blocks, p, h - 1);
      BeforeIsTotal(CeilDiv(blocks, p), p, h - 1);
    } else {
      assert Before(blocks, p, 1) == blocks;
    }
  }

  /** A number for every node with a block below it, leaves first. */
  function Number(dm: Dims, node: Req): nat
    requires dm.p > 0 && node.level < dm.levels
  {
    Before(dm.numBlocks, dm.p, dm.levels - 1 - node.level) + node.index
  }

  lemma NumbersFit(dm: Dims, node: Req, h: nat)
    requires dm.p > 0 && HasBlock(dm, node) && dm.levels - 1 - node.level < h
    ensures Number(dm, node) < Before(dm.numBlocks, dm.p, h)
  {
    BeforeGrows(dm.numBlocks, dm.p, dm.levels - node.level, h);
  }

  lemma NumbersDiffer(dm: Dims, a: Req, b: Req)
    requires dm.p > 0 && HasBlock(dm, a) && HasBlock(dm, b) && a != b
    ensures Number(dm, a) != Number(dm, b)
  {
    if a.level > b.level {
      NumbersFit(dm, a, dm.levels - 1 - b.level);
    } else if b.level > a.level {
      NumbersFit(dm, b, dm.levels - 1 - a.level);
    }
  }

  ghost predicate HasBlock(dm: Dims, node: Req)
    requires dm.p > 0
  {
    node.level < dm.levels && node.index < Width(dm.numBlocks, dm.p, dm.levels - 1 - node.level)
  }

  /** Distinct nodes with a block below them are fewer than twice the blocks. */
  lemma FewRequests(dm: Dims, order: seq<Req>)
    requires dm.Valid() && dm.p >= 3
    requires forall j | 0 <= j < |order| :: HasBlock(dm, order[j])
    requires forall i, j | 0 <= i < j < |order| :: order[i] != order[j]
    ensures |order| <= 2 * dm.numBlocks - 1
  {
    var numbers := seq(|order|, j requires 0 <= j < |order| && order[j].level < dm.levels => Number(dm, order[j]));
    var total := Before(dm.numBlocks, dm.p, dm.levels);
    forall i, j | 0 <= i < j < |numbers|
      ensures numbers[i] != numbers[j]
    {
      NumbersDiffer(dm, order[i], order[j]);
    }
    DistinctCount(numbers);
    forall x | x in Elements(numbers)
      ensures x in Upto(total)
    {
      var j :| 0 <= j < |numbers| && numbers[j] == x;
      NumbersFit(dm, order[j], dm.levels);
    }
    SubsetSize(Elements(numbers), Upto(total));
    BeforeIsTotal(dm.numBlocks, dm.p, dm.levels - 1);
    FewNodes(dm.numBlocks, dm.p, dm.levels);
  }
}
