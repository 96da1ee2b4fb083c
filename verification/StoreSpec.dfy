/** Which leaves of the partition tree are in step with memory: a block that is written is
    marked only while there is room for its old contents, and only marked blocks are
    digested again. */
module StoreSpec {
  import opened Types
  import opened Quorums

  /** Blocks and leaves, the blocks marked as modified, and of each checkpoint record the
      number of old blocks it holds. */
  datatype Store = Store(leaves: seq<Digest>, blocks: seq<Bytes>, marked: set<int>,
                         saved: seq<nat>, interval: nat, lastStable: nat)

  ghost predicate Valid(s: Store) {
    && |s.leaves| == |s.blocks|
    && s.interval >= 1 && |s.saved| >= 1
    && forall x | x in s.marked :: 0 <= x < |s.blocks|
  }

  /** ckpt_slot_for. */
  function RecordOf(interval: nat, records: nat, n: nat): (k: nat)
    requires interval >= 1 && records >= 1
    ensures k < records
  {
    (n / interval) % records
  }

  /** The old blocks in the record of the last stable checkpoint. */
  function Saved(s: Store): nat
    requires s.interval >= 1 && |s.saved| >= 1
  {
    s.saved[RecordOf(s.interval, |s.saved|, s.lastStable)]
  }

  /** A write to `x` leaves the block marked: it was already, or there is room for its old
      contents. */
  predicate WillMark(s: Store, x: int)
    requires s.interval >= 1 && |s.saved| >= 1
  {
    x in s.marked || Saved(s) < |s.blocks|
  }

  /** tbft_state_cow_single: nothing is marked when the record is full. */
  function Snapshot(s: Store, x: int): Store
    requires s.interval >= 1 && |s.saved| >= 1
  {
    if x < 0 || x >= |s.blocks| || x in s.marked then s
    else if Saved(s) >= |s.blocks| then s
    else s.(saved := s.saved[RecordOf(s.interval, |s.saved|, s.lastStable) := Saved(s) + 1], marked := s.marked + {x})
  }

  /** A block is written after its snapshot. */
  function Write(s: Store, x: int, data: Bytes): Store
    requires s.interval >= 1 && |s.saved| >= 1
  {
    if 0 <= x < |s.blocks| then Snapshot(s, x).(blocks := s.blocks[x := data]) else s
  }

  /** tbft_state_checkpoint: the counts of saved blocks are kept, the marks are not. */
  function Checkpoint(s: Store): Store
    requires |s.leaves| == |s.blocks|
  {
    s.(leaves := seq(|s.blocks|, x requires 0 <= x < |s.blocks| =>
                   if x in s.marked then OfBlock(s.blocks[x]) else s.leaves[x]),
       marked := {})
  }

  /** tbft_state_mark_stable: only the record of the new stable point is emptied. */
  function MarkStable(s: Store, n: nat): Store
    requires s.interval >= 1 && |s.saved| >= 1
  {
    if n <= s.lastStable then s else s.(lastStable := n, saved := s.saved[RecordOf(s.interval, |s.saved|, n) := 0])
  }

  /** A fetched block goes into memory and into the tree. */
  function Receive(s: Store, x: int, data: Bytes): Store
    requires |s.leaves| == |s.blocks|
  {
    if 0 <= x < |s.blocks| then s.(blocks := s.blocks[x := data], leaves := s.leaves[x := OfBlock(data)]) else s
  }

  // ------------------------------------------------------------------ in step

  predicate LeafFits(leaf: Digest, block: Bytes) { leaf == Zero || leaf == OfBlock(block) }

  /** The leaf is the hash of the block or was never set, or the block is marked. */
  ghost predicate InStepAt(s: Store, x: int)
    requires |s.leaves| == |s.blocks| && 0 <= x < |s.blocks|
  {
    x in s.marked || LeafFits(s.leaves[x], s.blocks[x])
  }

  ghost predicate InStep(s: Store)
    requires |s.leaves| == |s.blocks|
  {
    forall x | 0 <= x < |s.blocks| :: InStepAt(s, x)
  }

  /** A write keeps the tree in step exactly when the block will be marked, or its leaf fits
      the new contents anyway. */
  lemma WriteKeepsStep(s: Store, x: int, data: Bytes)
    requires Valid(s) && InStep(s) && 0 <= x < |s.blocks|
    ensures Valid(Write(s, x, data))
    ensures x in Write(s, x, data).marked <==> WillMark(s, x)
    ensures InStep(Write(s, x, data)) <==> WillMark(s, x) || LeafFits(s.leaves[x], data)
  {
    var s' := Write(s, x, data);
    forall y | 0 <= y < |s.blocks| && y != x
      ensures InStepAt(s', y)
    {
      assert InStepAt(s, y);
    }
    assert InStepAt(s', x) <==> WillMark(s, x) || LeafFits(s.leaves[x], data);
  }

  /** A checkpoint neither repairs nor breaks the step of tree and memory, and leaves no
      marks to excuse a difference. */
  lemma CheckpointKeepsStep(s: Store)
    requires Valid(s)
    ensures Valid(Checkpoint(s)) && (InStep(Checkpoint(s)) <==> InStep(s))
    ensures InStep(s) ==> forall x | 0 <= x < |s.blocks| :: LeafFits(Checkpoint(s).leaves[x], s.blocks[x])
  {
    var s' := Checkpoint(s);
    forall x | 0 <= x < |s.blocks|
      ensures InStepAt(s', x) <==> InStepAt(s, x)
    {
    }
    if InStep(s') {
      forall x | 0 <= x < |s.blocks|
        ensures InStepAt(s, x)
      {
        assert InStepAt(s', x);
      }
    }
    if InStep(s) {
      forall x | 0 <= x < |s.blocks|
        ensures LeafFits(s'.leaves[x], s.blocks[x])
      {
        assert InStepAt(s, x);
      }
    }
  }

  // ---------------------------------------------------------------- whole runs

  datatype Op = WriteOp(x: int, data: Bytes) | CheckpointOp | StableOp(n: nat) | ReceiveOp(x: int, data: Bytes)

  function Apply(s: Store, op: Op): Store
    requires |s.leaves| == |s.blocks| && s.interval >= 1 && |s.saved| >= 1
  {
    match op
    case WriteOp(x, data) => Write(s, x, data)
    case CheckpointOp => Checkpoint(s)
    case StableOp(n) => MarkStable(s, n)
    case ReceiveOp(x, data) => Receive(s, x, data)
  }

  ghost predicate IsRun(run: seq<Store>, ops: seq<Op>) {
    && |run| == |ops| + 1
    && Valid(run[0])
    && forall k | 0 <= k < |ops| :: Steps(run[k], ops[k], run[k + 1])
  }

  ghost predicate Steps(s: Store, op: Op, s': Store) {
    Valid(s) && s' == Apply(s, op)
  }

  /** What can be checked before an operation: a write to a block of the state finds it
      marked, or room, or a leaf that fits. */
  predicate IsSafe(s: Store, op: Op)
    requires |s.leaves| == |s.blocks| && s.interval >= 1 && |s.saved| >= 1
  {
    op.WriteOp? && 0 <= op.x < |s.blocks| ==> WillMark(s, op.x) || LeafFits(s.leaves[op.x], op.data)
  }

  lemma ApplyKeepsValid(s: Store, op: Op)
    requires Valid(s)
    ensures Valid(Apply(s, op))
  {
  }

  lemma ApplyKeepsStep(s: Store, op: Op)
    requires Valid(s) && InStep(s)
    ensures InStep(Apply(s, op)) <==> IsSafe(s, op)
  {
    match op {
      case WriteOp(x, data) =>
        if 0 <= x < |s.blocks| {
          WriteKeepsStep(s, x, data);
        }
      case CheckpointOp => CheckpointKeepsStep(s);
      case StableOp(n) => SameStep(s, MarkStable(s, n));
      case ReceiveOp(x, data) =>
        forall y | 0 <= y < |s.blocks|
          ensures InStepAt(Receive(s, x, data), y)
        {
          assert InStepAt(s, y);
        }
    }
  }

  lemma SameStep(s: Store, s': Store)
    requires Valid(s) && InStep(s) && s'.leaves == s.leaves && s'.blocks == s.blocks && s'.marked == s.marked
    ensures InStep(s')
  {
    forall y | 0 <= y < |s.blocks|
      ensures InStepAt(s', y)
    {
      assert InStepAt(s, y);
    }
  }

  lemma {:induction false} RunIsValid(run: seq<Store>, ops: seq<Op>, k: nat)
    requires IsRun(run, ops) && k < |run|
    ensures Valid(run[k])
  {
    if k > 0 {
      assert Steps(run[k - 1], ops[k - 1], run[k]);
      ApplyKeepsValid(run[k - 1], ops[k - 1]);
    }
  }

  ghost predicate InStepUpTo(run: seq<Store>, n: nat) {
    n <= |run| && forall k | 0 <= k < n :: Valid(run[k]) && InStep(run[k])
  }

  ghost predicate SafeUpTo(run: seq<Store>, ops: seq<Op>, n: nat) {
    n <= |ops| && n <= |run| && forall k | 0 <= k < n :: Valid(run[k]) && IsSafe(run[k], ops[k])
  }

  /** The tree is in step with memory all through a run exactly when every write was safe. */
  lemma {:induction false} StaysInStep(run: seq<Store>, ops: seq<Op>, n: nat)
    requires IsRun(run, ops) && InStep(run[0]) && n <= |ops|
    ensures InStepUpTo(run, n + 1) <==> SafeUpTo(run, ops, n)
  {
    if n == 0 {
      assert InStepUpTo(run, 1);
    } else {
      StaysInStep(run, ops, n - 1);
      RunIsValid(run, ops, n);
      RunIsValid(run, ops, n - 1);
      assert Steps(run[n - 1], ops[n - 1], run[n]);
      if InStepUpTo(run, n) {
        assert InStep(run[n - 1]);
        ApplyKeepsStep(run[n - 1], ops[n - 1]);
      }
      assert InStepUpTo(run, n + 1) <==> InStepUpTo(run, n) && InStep(run[n]);
      assert SafeUpTo(run, ops, n) <==> SafeUpTo(run, ops, n - 1) && IsSafe(run[n - 1], ops[n - 1]);
    }
  }

  /** Right after the stable point has moved, and until the next checkpoint, every block in
      the record is one that is marked, so there is room for the others. */
  ghost predicate HasRoom(s: Store)
    requires s.interval >= 1 && |s.saved| >= 1
  {
    Saved(s) <= |s.marked|
  }

  lemma MarkedAreBlocks(s: Store, x: int)
    requires Valid(s) && 0 <= x < |s.blocks| && x !in s.marked
    ensures |s.marked| < |s.blocks|
  {
    SubsetSize(s.marked + {x}, Upto(|s.blocks|));
  }

  lemma RoomStays(s: Store, op: Op)
    requires Valid(s) && HasRoom(s) && !op.CheckpointOp?
    ensures IsSafe(s, op) && HasRoom(Apply(s, op))
  {
    match op {
      case WriteOp(x, _) =>
        if 0 <= x < |s.blocks| && x !in s.marked {
          MarkedAreBlocks(s, x);
        }
      case StableOp(_) =>
      case ReceiveOp(_, _) =>
    }
  }

  /** Moving the stable point, and nothing but moving it forward, empties the record of the new
      one, found by its interval, and leaves all others. */
  lemma StableEmptiesItsRecord(s: Store, n: nat, k: nat)
    requires Valid(s) && k < |s.saved|
    ensures var e := MarkStable(s, n);
            && e == s.(lastStable := e.lastStable, saved := e.saved) && |e.saved| == |s.saved|
            && e.lastStable == (if n > s.lastStable then n else s.lastStable)
            && e.saved[k] == (if n > s.lastStable && k == (n / s.interval) % |s.saved| then 0 else s.saved[k])
  {
  }

  lemma StableMakesRoom(s: Store, n: nat)
    requires Valid(s) && n > s.lastStable
    ensures HasRoom(MarkStable(s, n))
  {
  }

  /** As long as no checkpoint has been taken since the stable point last moved every write is
      safe: the step is lost only in a second interval under one stable point. */
  lemma {:induction false} SafeUntilCheckpoint(run: seq<Store>, ops: seq<Op>, n: nat)
    requires IsRun(run, ops) && HasRoom(run[0]) && n <= |ops|
    requires forall k | 0 <= k < n :: !ops[k].CheckpointOp?
    ensures Valid(run[n]) && HasRoom(run[n])
    ensures forall k | 0 <= k < n :: Valid(run[k]) && IsSafe(run[k], ops[k])
  {
    if n > 0 {
      SafeUntilCheckpoint(run, ops, n - 1);
      assert Steps(run[n - 1], ops[n - 1], run[n]);
      ApplyKeepsValid(run[n - 1], ops[n - 1]);
      RoomStays(run[n - 1], ops[n - 1]);
    }
  }

  // -------------------------------------------------------- two intervals

  /** Writing the first `k` blocks. */
  function WriteFirst(s: Store, data: seq<Bytes>, k: nat): (s': Store)
    requires s.interval >= 1 && |s.saved| >= 1 && k <= |data|
    ensures s'.interval == s.interval && |s'.saved| == |s.saved| && |s'.blocks| == |s.blocks| && s'.leaves == s.leaves
  {
    if k == 0 then s else Write(WriteFirst(s, data, k - 1), k - 1, data[k - 1])
  }

  lemma {:induction false} FillsTheRecord(s: Store, data: seq<Bytes>, k: nat)
    requires Valid(s) && s.marked == {} && Saved(s) == 0 && |data| == |s.blocks| && k <= |data|
    ensures var s' := WriteFirst(s, data, k);
            && Valid(s') && s'.lastStable == s.lastStable && Saved(s') == k
            && s'.marked == Upto(k)
            && forall y | 0 <= y < k :: s'.blocks[y] == data[y]
  {
    if k > 0 {
      FillsTheRecord(s, data, k - 1);
      var before := WriteFirst(s, data, k - 1);
      assert RecordOf(before.interval, |before.saved|, before.lastStable) == RecordOf(s.interval, |s.saved|, s.lastStable);
      assert WriteFirst(s, data, k).marked == before.marked + {k - 1};
    }
  }

  /** After every block has been written in one interval and one of them again in the next,
      with the stable point where it was, that block is neither marked nor in step, and the
      second checkpoint has the leaves, and so the root, of the first. */
  lemma TwoIntervalsLoseStep(s: Store, data: seq<Bytes>, x: int, newer: Bytes)
    requires Valid(s) && s.marked == {} && Saved(s) == 0
    requires |data| == |s.blocks| && 0 <= x < |data| && newer != data[x]
    ensures var first := Checkpoint(WriteFirst(s, data, |data|));
            var again := Write(first, x, newer);
            && Valid(first) && InStep(first) && first.blocks == data
            && !IsSafe(first, WriteOp(x, newer)) && !InStep(again)
            && again.blocks[x] == newer
            && Checkpoint(again).leaves == first.leaves && first.leaves[x] == OfBlock(data[x])
  {
    FillsTheRecord(s, data, |data|);
    var written := WriteFirst(s, data, |data|);
    var first := Checkpoint(written);
    var again := Write(first, x, newer);
    assert written.blocks == data;
    assert Saved(first) == Saved(written);
    forall y | 0 <= y < |data|
      ensures InStepAt(first, y) && first.leaves[y] == OfBlock(data[y])
    {
      assert y in written.marked;
    }
    WriteKeepsStep(first, x, newer);
    assert Checkpoint(again).leaves == first.leaves;
  }
}
