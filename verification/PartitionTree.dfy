/** The partition tree as a function of its leaves. */
module PartitionSpec {
  import opened Types
  import opened Arithmetic

  /** An internal node: zero if all children are, otherwise their hash. */
  function Combine(kids: seq<Digest>): Digest {
    if forall j | 0 <= j < |kids| :: kids[j] == Zero then Zero else OfNode(kids)
  }

  /** The digest of node `i` at height `h`, computed from scratch from the leaf vector. */
  function Node(leaves: seq<Digest>, p: nat, h: nat, i: nat): Digest
    decreases h, 0
  {
    if h == 0 then
      if i < |leaves| then leaves[i] else Zero
    else Combine(Children(leaves, p, h, i))
  }

  function Children(leaves: seq<Digest>, p: nat, h: nat, i: nat): (kids: seq<Digest>)
    requires h > 0
    ensures |kids| == p
    decreases h - 1, 1
  {
    seq(p, j requires 0 <= j < p => Node(leaves, p, h - 1, Child(i, j, p)))
  }

  /** The index of the node at height `h` above block `b`. */
  function Above(b: nat, p: nat, h: nat): nat
    requires p > 0
  {
    if h == 0 then b else Above(b, p, h - 1) / p
  }

  /** Which child of its parent the node at height `h` above block `b` is. */
  function Branch(b: nat, p: nat, h: nat): (j: nat)
    requires p > 0
    ensures j < p
  {
    Above(b, p, h) % p
  }

  lemma BranchIs(b: nat, p: nat, h: nat)
    requires p > 0
    ensures Above(b, p, h) == Child(Above(b, p, h + 1), Branch(b, p, h), p)
  {
    ChildOfParent(Above(b, p, h), p);
  }

  /** A leaf matters only to the nodes above it. */
  lemma {:induction false} OthersUnaffected(leaves: seq<Digest>, b: nat, d: Digest, p: nat, h: nat, i: nat)
    requires p > 0 && b < |leaves| && Above(b, p, h) != i
    ensures Node(leaves[b := d], p, h, i) == Node(leaves, p, h, i)
  {
    if h > 0 {
      forall j: nat | j < p
        ensures Children(leaves[b := d], p, h, i)[j] == Children(leaves, p, h, i)[j]
      {
        ParentOfChild(i, j, p);
        OthersUnaffected(leaves, b, d, p, h - 1, Child(i, j, p));
      }
      assert Children(leaves[b := d], p, h, i) == Children(leaves, p, h, i);
    }
  }

  /** The two trees have the same leaves below node `i` at height `h`. */
  ghost predicate SameBelow(a: seq<Digest>, b: seq<Digest>, p: nat, h: nat, i: nat)
    requires p > 0 && |a| == |b|
  {
    forall k | 0 <= k < |a| :: Above(k, p, h) == i ==> a[k] == b[k]
  }

  lemma CombineIsInjective(x: seq<Digest>, y: seq<Digest>)
    requires |x| == |y| && Combine(x) == Combine(y)
    ensures x == y
  {
  }

  /** Equal digests at a node mean equal leaves below it, and conversely: skipping equal
      subtrees loses nothing. */
  lemma {:induction false} NodeDeterminesLeaves(a: seq<Digest>, b: seq<Digest>, p: nat, h: nat, i: nat)
    requires p > 0 && |a| == |b|
    ensures Node(a, p, h, i) == Node(b, p, h, i) <==> SameBelow(a, b, p, h, i)
  {
    if h == 0 {
      if i < |a| {
        assert Above(i, p, 0) == i;
      }
    } else {
      forall j: nat | j < p
        ensures Children(a, p, h, i)[j] == Children(b, p, h, i)[j] <==> SameBelow(a, b, p, h - 1, Child(i, j, p))
      {
        NodeDeterminesLeaves(a, b, p, h - 1, Child(i, j, p));
      }
      if Node(a, p, h, i) == Node(b, p, h, i) {
        CombineIsInjective(Children(a, p, h, i), Children(b, p, h, i));
        SameFromBelow(a, b, p, h, i);
      }
      if SameBelow(a, b, p, h, i) {
        SameToBelow(a, b, p, h, i);
        assert Children(a, p, h, i) == Children(b, p, h, i);
      }
    }
  }

  lemma SameFromBelow(a: seq<Digest>, b: seq<Digest>, p: nat, h: nat, i: nat)
    requires p > 0 && |a| == |b| && h > 0
    requires forall j: nat | j < p :: SameBelow(a, b, p, h - 1, Child(i, j, p))
    ensures SameBelow(a, b, p, h, i)
  {
    forall k | 0 <= k < |a|
      ensures Above(k, p, h) == i ==> a[k] == b[k]
    {
      if Above(k, p, h) == i {
        BranchIs(k, p, h - 1);
        assert SameBelow(a, b, p, h - 1, Child(i, Branch(k, p, h - 1), p));
      }
    }
  }

  lemma SameToBelow(a: seq<Digest>, b: seq<Digest>, p: nat, h: nat, i: nat)
    requires p > 0 && |a| == |b| && h > 0 && SameBelow(a, b, p, h, i)
    ensures forall j: nat | j < p :: SameBelow(a, b, p, h - 1, Child(i, j, p))
  {
    forall j: nat | j < p
      ensures SameBelow(a, b, p, h - 1, Child(i, j, p))
    {
      ParentOfChild(i, j, p);
    }
  }

  /** A subtree is zero exactly when nothing was ever stored below it. */
  lemma ZeroMeansUntouched(leaves: seq<Digest>, p: nat, h: nat, i: nat)
    requires p > 0
    ensures Node(leaves, p, h, i) == Zero <==>
            forall k | 0 <= k < |leaves| :: Above(k, p, h) == i ==> leaves[k] == Zero
  {
    NodeDeterminesLeaves(leaves, Unwritten(|leaves|), p, h, i);
    EmptyIsZero(|leaves|, p, h, i);
  }

  /** The leaves of a fresh tree. */
  function Unwritten(n: nat): seq<Digest> { seq(n, _ => Zero) }

  lemma {:induction false} EmptyIsZero(n: nat, p: nat, h: nat, i: nat)
    ensures Node(Unwritten(n), p, h, i) == Zero
  {
    if h > 0 {
      forall j: nat | j < p
        ensures Children(Unwritten(n), p, h, i)[j] == Zero
      {
        EmptyIsZero(n, p, h - 1, Child(i, j, p));
      }
    }
  }

  /** A path from a leaf that was stored is non-zero all the way up. */
  lemma PathIsTouched(leaves: seq<Digest>, b: nat, p: nat, h: nat)
    requires p > 0 && b < |leaves| && leaves[b] != Zero
    ensures Node(leaves, p, h, Above(b, p, h)) != Zero
  {
    ZeroMeansUntouched(leaves, p, h, Above(b, p, h));
  }

  // ---------------------------------------------------------------- dimensions

  const MAX_NODES := 1_000_000

  /** The least number of levels whose bottom one has room for all blocks. */
  ghost predicate LeastLevels(levels: nat, numBlocks: int, p: nat) {
    && levels >= 1
    && numBlocks <= Pow(p, levels - 1)
    && (levels >= 2 ==> Pow(p, levels - 2) < numBlocks)
  }

  lemma LeastIsLeast(levels: nat, numBlocks: int, p: nat, k: nat)
    requires p >= 1 && LeastLevels(levels, numBlocks, p)
    requires 1 <= k && numBlocks <= Pow(p, k - 1)
    ensures levels <= k
  {
    if k < levels {
      PowGrows(p, k - 1, levels - 2);
    }
  }

  /** tbft_ptree_compute_levels: the least number of levels, or more than the maximum when
      there are fewer than two children or the maximum is not enough. */
  method ComputeLevels(numBlocks: int, p: int, maxLevels: nat) returns (levels: nat)
    requires maxLevels >= 1
    ensures levels <= maxLevels <==> p >= 2 && numBlocks <= Pow(p, maxLevels - 1)
    ensures levels <= maxLevels ==> LeastLevels(levels, numBlocks, p)
  {
    if p < 2 {
      return maxLevels + 1;
    }
    var nodesAtLevel, level := 1, 0;
    while nodesAtLevel < numBlocks
      invariant 0 <= level <= maxLevels
      invariant nodesAtLevel == Pow(p, level)
      invariant level > 0 ==> Pow(p, level - 1) < numBlocks
      decreases maxLevels - level
    {
      nodesAtLevel := nodesAtLevel * p;
      level := level + 1;
      if level > maxLevels {
        PowGrows(p, maxLevels - 1, level - 1);
        break;
      }
    }
    levels := level + 1;
    if levels > maxLevels {
      PowGrows(p, maxLevels - 1, level - 1);
    } else {
      PowGrows(p, level, maxLevels - 1);
    }
  }

  /** tbft_ptree_nodes_at_level: p^level, or a value above every valid bound. */
  method NodesAtLevel(level: nat, p: nat) returns (n: nat)
    requires p >= 1
    ensures n == if Pow(p, level) <= MAX_NODES then Pow(p, level) else MAX_NODES + 1
  {
    n := 1;
    for i := 0 to level
      invariant n == Pow(p, i) <= MAX_NODES
    {
      n := n * p;
      if n > MAX_NODES {
        PowGrows(p, i + 1, level);
        return MAX_NODES + 1;
      }
    }
  }

  // --------------------------------------------------------------- flat memory

  /** Where a level starts in the backing memory. */
  function Offset(p: nat, level: nat): nat {
    if level == 0 then 0 else Offset(p, level - 1) + Pow(p, level - 1)
  }

  lemma {:induction false} OffsetGrows(p: nat, j: nat, k: nat)
    requires j <= k
    ensures Offset(p, j) <= Offset(p, k)
  {
    if j < k {
      OffsetGrows(p, j, k - 1);
    }
  }

  lemma SliceEnds(p: nat, l: nat, i: nat, k: nat)
    requires l < k && i < Pow(p, l)
    ensures Offset(p, l) + i < Offset(p, k)
  {
    OffsetGrows(p, l + 1, k);
  }

  /** The slices of different levels do not overlap. */
  lemma SlicesAreDisjoint(p: nat, l: nat, i: nat, l': nat, i': nat)
    requires i < Pow(p, l) && i' < Pow(p, l')
    ensures Offset(p, l) + i == Offset(p, l') + i' ==> l == l' && i == i'
  {
    if l < l' {
      SliceEnds(p, l, i, l');
    } else if l' < l {
      SliceEnds(p, l', i', l);
    }
  }
}

/** The partition tree in memory, updated from a changed leaf up to the root. */
module PartitionTrees {
  import opened Types
  import opened Arithmetic
  import opened PartitionSpec

  class PartitionTree {
    const p: nat
    const levels: nat
    const numBlocks: nat
    const mem: array<Digest>

    /** The digests stored for the blocks so far, zero where none was. */
    ghost var leaves: seq<Digest>

    ghost predicate Built() {
      && p >= 2 && levels >= 1
      && numBlocks <= Pow(p, levels - 1) <= MAX_NODES
      && mem.Length == Offset(p, levels)
    }

    function At(l: nat, i: nat): Digest
      reads mem
      requires Built() && l < levels && i < Pow(p, l)
    {
      SliceEnds(p, l, i, levels);
      mem[Offset(p, l) + i]
    }

    /** The nodes of a level are what the given leaves make them. */
    ghost predicate LevelIs(l: nat, leaves: seq<Digest>)
      reads mem
      requires Built() && l < levels
    {
      forall i: nat | i < Pow(p, l) :: At(l, i) == Node(leaves, p, levels - 1 - l, i)
    }

    /** Every node, the root included, equals the from-scratch digest of the leaves. */
    ghost predicate Valid()
      reads this, mem
    {
      && Built()
      && |leaves| == numBlocks
      && forall l: nat | l < levels :: LevelIs(l, leaves)
    }

    constructor (numBlocks: nat, p: nat, levels: nat)
      requires p >= 2 && levels >= 1 && numBlocks <= Pow(p, levels - 1) <= MAX_NODES
      ensures Valid() && fresh(mem) && leaves == Unwritten(numBlocks)
      ensures this.p == p && this.levels == levels && this.numBlocks == numBlocks
    {
      this.p, this.levels, this.numBlocks := p, levels, numBlocks;
      mem := new Digest[Offset(p, levels)](_ => Zero);
      leaves := Unwritten(numBlocks);
      new;
      assert forall k | 0 <= k < mem.Length :: mem[k] == Zero;
      forall l: nat | l < levels
        ensures LevelIs(l, leaves)
      {
        forall i: nat | i < Pow(p, l)
          ensures At(l, i) == Node(leaves, p, levels - 1 - l, i)
        {
          SliceEnds(p, l, i, levels);
          EmptyIsZero(numBlocks, p, levels - 1 - l, i);
        }
      }
    }

    /** Overwriting one node leaves all others alone. */
    method SetNode(l: nat, i: nat, d: Digest)
      requires Built() && l < levels && i < Pow(p, l)
      modifies mem
      ensures At(l, i) == d
      ensures forall i': nat | i' < Pow(p, l) && i' != i :: At(l, i') == old(At(l, i'))
      ensures forall k: nat, v | k < levels && k != l && old(LevelIs(k, v)) :: LevelIs(k, v)
    {
      SliceEnds(p, l, i, levels);
      mem[Offset(p, l) + i] := d;
      forall k: nat, i': nat | k < levels && i' < Pow(p, k) && (k != l || i' != i)
        ensures At(k, i') == old(At(k, i'))
      {
        SliceEnds(p, k, i', levels);
        SlicesAreDisjoint(p, l, i, k, i');
      }
    }

    lemma ChildrenAreInRange(up: nat, parent: nat, j: nat)
      requires p > 0 && parent < Pow(p, up) && j < p
      ensures Child(parent, j, p) < Pow(p, up + 1)
    {
      ChildInRange(parent, j, p, Pow(p, up));
      assert Pow(p, up + 1) == p * Pow(p, up);
    }

    /** The digests of the children of a node, in order; `v` is what their level represents. */
    method ReadChildren(l: nat, up: nat, parent: nat, ghost v: seq<Digest>) returns (kids: seq<Digest>)
      requires Built() && l < levels && l == up + 1 && parent < Pow(p, up) && LevelIs(l, v)
      ensures kids == Children(v, p, levels - 1 - up, parent)
    {
      PowGrows(p, l, levels - 1);
      var nodes := NodesAtLevel(l, p);
      var first := parent * p;
      kids := [];
      var c := first;
      ghost var h := levels - 1 - l;
      while c < first + p && c < nodes
        invariant |kids| <= p && c == Child(parent, |kids|, p)
        invariant forall j: nat | j < |kids| :: kids[j] == Node(v, p, h, Child(parent, j, p))
        decreases p - |kids|
      {
        var next := ReadNode(l, c);
        kids := kids + [next];
        c := c + 1;
      }
      if |kids| < p {
        ChildrenAreInRange(up, parent, |kids|);
        assert false;
      }
    }

    method ReadNode(l: nat, i: nat) returns (d: Digest)
      requires Built() && l < levels && i < Pow(p, l)
      ensures d == At(l, i)
    {
      SliceEnds(p, l, i, levels);
      d := mem[Offset(p, l) + i];
    }

    /** Re-hashing the node above `idx` after its subtree changed for block `b`; `v` is what
        the children's level represents by now, `was` what its own level represented. */
    method Rehash(l: nat, up: nat, idx: nat, ghost b: nat, ghost v: seq<Digest>, ghost was: seq<Digest>)
      returns (parent: nat)
      requires Built() && l < levels && l == up + 1 && b < |v| && v[b] != Zero
      requires idx == Above(b, p, levels - 2 - up) && idx < Pow(p, l)
      requires LevelIs(l, v) && LevelIs(up, was)
      modifies mem
      ensures parent == Above(b, p, levels - 1 - up) && parent < Pow(p, up)
      ensures At(up, parent) == Node(v, p, levels - 1 - up, parent)
      ensures forall i: nat | i < Pow(p, up) && i != parent :: At(up, i) == Node(was, p, levels - 1 - up, i)
      ensures forall k: nat, v | k < levels && k != up && old(LevelIs(k, v)) :: LevelIs(k, v)
    {
      ParentOf(up, idx, b);
      parent := idx / p;
      var kids := ReadChildren(l, up, parent, v);
      TouchedIsHash(v, up, parent, b, kids);
      SetNode(up, parent, OfNode(kids));
    }

    lemma ParentOf(up: nat, idx: nat, b: nat)
      requires p > 0 && up + 1 < levels && idx == Above(b, p, levels - 2 - up) && idx < Pow(p, up + 1)
      ensures idx / p == Above(b, p, levels - 1 - up) && idx / p < Pow(p, up)
    {
      assert Pow(p, up + 1) == Pow(p, up) * p;
      ParentInRange(idx, p, Pow(p, up));
    }

    /** A node above a stored block is the hash of its children. */
    lemma TouchedIsHash(v: seq<Digest>, up: nat, parent: nat, b: nat, kids: seq<Digest>)
      requires p > 0 && up + 1 < levels && b < |v| && v[b] != Zero
      requires parent == Above(b, p, levels - 1 - up)
      requires kids == Children(v, p, levels - 1 - up, parent)
      ensures OfNode(kids) == Node(v, p, levels - 1 - up, parent)
    {
      PathIsTouched(v, b, p, levels - 1 - up);
    }

    /** The nodes of a level that are not above the changed block need no new digest. */
    lemma RestUnaffected(up: nat, parent: nat, was: seq<Digest>, b: nat, d: Digest)
      requires Built() && up < levels && parent < Pow(p, up) && b < |was|
      requires parent == Above(b, p, levels - 1 - up)
      requires At(up, parent) == Node(was[b := d], p, levels - 1 - up, parent)
      requires forall i: nat | i < Pow(p, up) && i != parent :: At(up, i) == Node(was, p, levels - 1 - up, i)
      ensures LevelIs(up, was[b := d])
    {
      forall i: nat | i < Pow(p, up)
        ensures At(up, i) == Node(was[b := d], p, levels - 1 - up, i)
      {
        if i != parent {
          OthersUnaffected(was, b, d, p, levels - 1 - up, i);
        }
      }
    }

    method SetLeaf(b: nat, d: Digest)
      requires Valid() && b < numBlocks
      modifies mem
      ensures b < Pow(p, levels - 1)
      ensures LevelIs(levels - 1, leaves[b := d])
      ensures forall k: nat | k < levels - 1 :: LevelIs(k, leaves)
    {
      ghost var last := levels - 1;
      assert LevelIs(last, leaves);
      SetNode(levels - 1, b, d);
      forall i: nat | i < Pow(p, last)
        ensures At(last, i) == Node(leaves[b := d], p, 0, i)
      {
      }
    }

    /** tbft_ptree_update_leaf. */
    method UpdateLeaf(b: int, d: Digest) returns (ok: bool)
      requires Valid() && d != Zero
      modifies this, mem
      ensures Valid()
      ensures ok <==> 0 <= b < numBlocks
      ensures leaves == if ok then old(leaves)[b := d] else old(leaves)
    {
      if b < 0 || b >= numBlocks {
        return false;
      }
      ghost var after := leaves[b := d];
      SetLeaf(b, d);
      var idx, l := b, levels - 1;
      while l > 0
        invariant 0 <= l < levels && leaves == old(leaves)
        invariant idx == Above(b, p, levels - 1 - l) && idx < Pow(p, l)
        invariant forall k: nat | l <= k < levels :: LevelIs(k, after)
        invariant forall k: nat | k < l :: LevelIs(k, leaves)
      {
        var parent := Rehash(l, l - 1, idx, b, after, leaves);
        idx, l := parent, l - 1;
        RestUnaffected(l, parent, leaves, b, d);
      }
      leaves := after;
      ok := true;
    }

    /** The root digest of the state. */
    method Root() returns (d: Digest)
      requires Valid()
      ensures d == Node(leaves, p, levels - 1, 0)
    {
      SliceEnds(p, 0, 0, levels);
      assert LevelIs(0, leaves);
      assert At(0, 0) == Node(leaves, p, levels - 1, 0);
      d := mem[Offset(p, 0)];
    }
  }

  /** tbft_ptree_init: the number of levels is the least that suffices; it fails when that is
      more than the maximum or when a level would be too large. */
  method InitTree(numBlocks: nat, p: int, maxLevels: nat) returns (tree: PartitionTree?)
    requires maxLevels >= 1
    ensures tree != null <==>
            && p >= 2 && numBlocks <= Pow(p, maxLevels - 1)
            && exists levels: nat :: LeastLevels(levels, numBlocks, p) && Pow(p, levels - 1) <= MAX_NODES
    ensures tree != null ==>
              && tree.Valid() && fresh(tree) && fresh(tree.mem)
              && tree.p == p && tree.numBlocks == numBlocks && LeastLevels(tree.levels, numBlocks, p)
              && tree.leaves == Unwritten(numBlocks)
  {
    var levels := ComputeLevels(numBlocks, p, maxLevels);
    if levels > maxLevels {
      return null;
    }
    var total := 0;
    for l := 0 to levels
      invariant total == Offset(p, l)
      invariant l > 0 ==> Pow(p, l - 1) <= MAX_NODES
    {
      var nodes := NodesAtLevel(l, p);
      if nodes > MAX_NODES {
        forall k: nat | LeastLevels(k, numBlocks, p)
          ensures Pow(p, k - 1) > MAX_NODES
        {
          LeastIsLeast(k, numBlocks, p, levels);
          LeastIsLeast(levels, numBlocks, p, k);
          PowGrows(p, l, levels - 1);
        }
        return null;
      }
      total := total + nodes;
    }
    tree := new PartitionTree(numBlocks, p, levels);
  }
}
