/** The replicated state in memory: blocks, partition tree, modification marks and the fetch
    queue, changed in place. */
module StateTransfer {
  import opened Types
  import opened Arithmetic
  import opened PartitionSpec
  import opened PartitionTrees
  import F = FetchSpec
  import M = StoreSpec

  class StateStore {
    const tree: PartitionTree
    const maxBlocks: nat
    const blocks: array<Bytes>
    const cow: array<bool>
    const queue: array<F.Entry>
    const received: array<bool>
    /** How many old blocks each checkpoint record holds. */
    const saved: array<nat>
    const interval: nat
    var lastStable: nat
    var queueLen: int
    var inFetch: bool
    var fetchSeqno: int
    var nDataPending: int

    ghost const Repr: set<object>

    ghost function Dims(): F.Dims {
      F.Dims(tree.p, tree.levels, tree.numBlocks, maxBlocks)
    }

    ghost predicate Valid()
      reads this, Repr
    {
      && Repr == {this, tree, tree.mem, blocks, cow, queue, received, saved}
      && cow != received
      && interval >= 1 && saved.Length >= 1
      && tree.Valid()
      && Dims().Valid()
      && blocks.Length == cow.Length == received.Length == tree.numBlocks
      && queue.Length == 2 * maxBlocks
      && 0 <= queueLen <= queue.Length
      && forall j | 0 <= j < queueLen :: Dims().levels > queue[j].node.level
    }

    ghost function Received(): set<int>
      reads received
    {
      set x | 0 <= x < received.Length && received[x]
    }

    /** The state as a value. */
    ghost function Abs(): F.State
      reads this, Repr
      requires Valid()
    {
      F.State(tree.leaves, blocks[..], inFetch, fetchSeqno, queue[..queueLen], nDataPending, Received())
    }

    ghost function Marked(): set<int>
      reads cow
    {
      set x | 0 <= x < cow.Length && cow[x]
    }

    /** The blocks and leaves with what decides which blocks are digested again. */
    ghost function Memory(): (s: M.Store)
      reads this, Repr
      requires Valid()
      ensures M.Valid(s)
    {
      M.Store(tree.leaves, blocks[..], Marked(), saved[..], interval, lastStable)
    }

    /** Every leaf is the hash of its block, unless the block was never digested or has been
        marked as modified since. */
    ghost predicate InStep()
      reads this, Repr
      requires Valid()
    {
      M.InStep(Memory())
    }

    constructor (tree: PartitionTree, mem: seq<Bytes>, maxBlocks: nat, records: nat, interval: nat)
      requires tree.Valid() && LeastLevels(tree.levels, tree.numBlocks, tree.p)
      requires 1 <= tree.numBlocks <= maxBlocks && |mem| == tree.numBlocks
      requires records >= 1 && interval >= 1
      ensures Valid() && Repr == {this, tree, tree.mem, blocks, cow, queue, received, saved}
      ensures fresh(Repr - {tree, tree.mem}) && this.tree == tree
      ensures Memory() == M.Store(tree.leaves, mem, {}, seq(records, _ => 0), interval, 0)
      ensures Abs() == F.State(tree.leaves, mem, false, 0, [], 0, {})
    {
      var b, m, q, r := new Bytes[|mem|](i requires 0 <= i < |mem| => mem[i]), new bool[|mem|](_ => false),
                        new F.Entry[2 * maxBlocks](_ => F.Entry(F.Req(0, 0), true)), new bool[|mem|](_ => false);
      var counts := new nat[records](_ => 0);
      this.tree, this.maxBlocks, blocks, cow, queue, received := tree, maxBlocks, b, m, q, r;
      saved, this.interval, lastStable := counts, interval, 0;
      queueLen, inFetch, fetchSeqno, nDataPending := 0, false, 0, 0;
      Repr := {this, tree, tree.mem, b, m, q, r, counts};
      new;
      assert blocks[..] == mem && saved[..] == seq(records, _ => 0);
    }

    // ------------------------------------------------------------- checkpointing

    /** tbft_state_cow_single: a record that is full leaves the block unmarked. */
    method Snapshot(x: int)
      requires Valid()
      modifies cow, saved
      ensures Valid() && Abs() == old(Abs())
      ensures Memory() == M.Snapshot(old(Memory()), x)
    {
      if x < 0 || x >= blocks.Length || cow[x] {
        return;
      }
      var k := M.RecordOf(interval, saved.Length, lastStable);
      if saved[k] >= blocks.Length {
        return;
      }
      saved[k] := saved[k] + 1;
      cow[x] := true;
      assert saved[..] == old(saved[..])[k := old(saved[k]) + 1];
      assert Marked() == old(Marked()) + {x};
    }

    /** A block is written after tbft_state_cow_single was called for it: the tree stays in
        step exactly when that marked the block, or its leaf fits the new contents. */
    method Modify(x: int, data: Bytes)
      requires Valid()
      modifies blocks, cow, saved
      ensures Valid()
      ensures Memory() == M.Write(old(Memory()), x, data)
      ensures Abs() == old(Abs()).(blocks := Memory().blocks)
      ensures old(InStep()) ==>
                (InStep() <==> M.IsSafe(old(Memory()), M.WriteOp(x, data)))
    {
      ghost var s := Memory();
      if M.InStep(s) {
        M.ApplyKeepsStep(s, M.WriteOp(x, data));
      }
      Snapshot(x);
      if 0 <= x < blocks.Length {
        WriteBlock(x, data);
      }
    }

    method WriteBlock(x: nat, data: Bytes)
      requires Valid() && x < blocks.Length
      modifies blocks
      ensures Valid()
      ensures Memory() == old(Memory()).(blocks := old(blocks[..])[x := data])
      ensures Abs() == old(Abs()).(blocks := old(blocks[..])[x := data])
    {
      blocks[x] := data;
      assert blocks[..] == old(blocks[..])[x := data];
    }

    /** tbft_state_mark_stable: the record of the new stable point is emptied. */
    method MarkStable(n: nat)
      requires Valid()
      modifies this`lastStable, saved
      ensures Valid() && Abs() == old(Abs())
      ensures Memory() == M.MarkStable(old(Memory()), n)
    {
      if n <= lastStable {
        return;
      }
      var k := M.RecordOf(interval, saved.Length, n);
      saved[k] := 0;
      lastStable := n;
      assert saved[..] == old(saved[..])[k := 0];
    }

    /** tbft_state_checkpoint: the marked blocks are digested again, whether or not the others
        are in step, and the marks forgotten; the counts of saved blocks stay. */
    method Checkpoint() returns (root: Digest)
      requires Valid()
      modifies Repr
      ensures Valid()
      ensures Memory() == M.Checkpoint(old(Memory()))
      ensures Abs() == old(Abs()).(leaves := tree.leaves)
      ensures InStep() <==> old(InStep())
      ensures old(InStep()) ==> forall x | 0 <= x < blocks.Length :: M.LeafFits(tree.leaves[x], blocks[x])
      ensures root == F.DigestAt(Dims(), tree.leaves, F.Req(0, 0))
    {
      ghost var s := Memory();
      M.CheckpointKeepsStep(s);
      RedigestAll();
      assert tree.leaves == M.Checkpoint(s).leaves;
      ForgetMarks();
      root := tree.Root();
    }

    /** The loop of tbft_state_checkpoint. */
    method RedigestAll()
      requires Valid()
      modifies tree, tree.mem
      ensures Valid()
      ensures Memory() == old(Memory()).(leaves := tree.leaves) && Abs() == old(Abs()).(leaves := tree.leaves)
      ensures forall x | 0 <= x < blocks.Length ::
                tree.leaves[x] == if x in Marked() then OfBlock(blocks[x]) else old(tree.leaves[x])
    {
      for i := 0 to blocks.Length
        invariant Valid()
        invariant Memory() == old(Memory()).(leaves := tree.leaves) && Abs() == old(Abs()).(leaves := tree.leaves)
        invariant forall x | 0 <= x < i :: tree.leaves[x] == if x in Marked() then OfBlock(blocks[x]) else old(tree.leaves[x])
        invariant forall x | i <= x < blocks.Length :: tree.leaves[x] == old(tree.leaves[x])
      {
        Redigest(i);
      }
    }

    method Redigest(i: int)
      requires Valid() && 0 <= i < blocks.Length
      modifies tree, tree.mem
      ensures Valid()
      ensures Abs() == old(Abs()).(leaves := tree.leaves)
      ensures tree.leaves == if cow[i] then old(tree.leaves)[i := OfBlock(blocks[i])] else old(tree.leaves)
    {
      if cow[i] {
        var ok := tree.UpdateLeaf(i, OfBlock(blocks[i]));
      }
    }

    method ForgetMarks()
      requires Valid()
      modifies cow
      ensures Valid() && Abs() == old(Abs()) && Memory() == old(Memory()).(marked := {})
    {
      forall x | 0 <= x < cow.Length {
        cow[x] := false;
      }
      assert Marked() == {};
    }

    // ------------------------------------------------------------------- fetching

    method ForgetReceived()
      requires Valid()
      modifies received
      ensures Valid() && Abs() == old(Abs()).(received := {}) && Memory() == old(Memory())
    {
      forall x | 0 <= x < received.Length {
        received[x] := false;
      }
      assert Received() == {};
    }

    /** Appending one request, if there is room. */
    method Push(node: F.Req) returns (room: bool)
      requires Valid() && node.level < Dims().levels
      modifies this, queue
      ensures Valid()
      ensures room <==> old(queueLen) < Dims().QueueCap()
      ensures Abs() == if room then old(Abs()).(queue := old(Abs()).queue + [F.Entry(node, false)]) else old(Abs())
    {
      room := queueLen < queue.Length;
      if room {
        queue[queueLen] := F.Entry(node, false);
        queueLen := queueLen + 1;
        assert queue[..queueLen] == old(queue[..queueLen]) + [F.Entry(node, false)];
      }
    }

    /** The entries a one-level tree starts with. */
    ghost function BlockEntries(n: nat): seq<F.Entry> {
      seq(n, i requires 0 <= i => F.Entry(F.Req(0, i), false))
    }

    /** tbft_state_start_fetch. */
    method StartFetch(seqno: int)
      requires Valid()
      modifies Repr
      ensures Valid()
      ensures Abs() == F.StartFetch(Dims(), old(Abs()), seqno)
    {
      ForgetReceived();
      inFetch, fetchSeqno, nDataPending, queueLen := true, seqno, 0, 0;
      ghost var s := Abs();
      assert s.queue == [] == BlockEntries(0);
      if tree.levels == 1 {
        var i := 0;
        while i < blocks.Length && queueLen < queue.Length
          invariant Valid() && 0 <= i <= blocks.Length && queueLen == i
          invariant Abs() == s.(queue := BlockEntries(i))
        {
          var room := Push(F.Req(0, i));
          assert BlockEntries(i) + [F.Entry(F.Req(0, i), false)] == BlockEntries(i + 1);
          i := i + 1;
        }
      } else {
        var room := Push(F.Req(0, 0));
        assert Abs().queue == [F.Entry(F.Req(0, 0), false)];
      }
    }

    /** The local digest of a node. */
    method LocalDigest(node: F.Req) returns (d: Digest)
      requires Valid() && node.level < Dims().levels && node.index < Dims().NodesAt(node.level)
      ensures d == F.DigestAt(Dims(), tree.leaves, node)
    {
      assert tree.LevelIs(node.level, tree.leaves);
      d := tree.ReadNode(node.level, node.index);
    }

    /** Comparing one part of a Meta_data. */
    method ComparePart(child: F.Req, part: Digest)
      requires Valid() && child.level < Dims().levels
      modifies this, queue
      ensures Valid()
      ensures Abs() == old(Abs()).(queue :=
                if child.index >= Dims().NodesAt(child.level) then old(Abs()).queue
                else if F.DigestAt(Dims(), tree.leaves, child) == part then old(Abs()).queue
                else if |old(Abs()).queue| < Dims().QueueCap() then old(Abs()).queue + [F.Entry(child, false)]
                else old(Abs()).queue)
    {
      var nodes := NodesAtLevel(child.level, tree.p);
      PowGrows(tree.p, child.level, tree.levels - 1);
      if child.index >= nodes {
        return;
      }
      var mine := LocalDigest(child);
      if mine != part {
        var room := Push(child);
      }
    }

    /** tbft_state_handle_meta_data. */
    method HandleMetaData(seqno: int, level: int, index: int, parts: seq<Digest>)
      requires Valid()
      modifies this, queue
      ensures Valid()
      ensures Abs() == F.HandleMeta(Dims(), old(Abs()), seqno, level, index, parts)
    {
      if !inFetch || seqno != fetchSeqno {
        return;
      }
      if level < 0 || level >= tree.levels - 1 {
        return;
      }
      var nodes := NodesAtLevel(level, tree.p);
      PowGrows(tree.p, level, tree.levels - 1);
      if index < 0 || index >= nodes || |parts| > tree.p {
        return;
      }
      CompareParts(F.Req(level, index), parts);
    }

    /** The loop over the parts: children whose digests differ are queued. */
    method CompareParts(node: F.Req, parts: seq<Digest>)
      requires Valid() && node.level + 1 < Dims().levels
      modifies this, queue
      ensures Valid()
      ensures Abs() == old(Abs()).(
                         queue := F.Enqueue(Dims(), tree.leaves, old(Abs()).queue, node, parts, |parts|))
    {
      ghost var s := Abs();
      for i := 0 to |parts|
        invariant Valid()
        invariant Abs() == s.(queue := F.Enqueue(Dims(), s.leaves, s.queue, node, parts, i))
      {
        ComparePart(F.Req(node.level + 1, Child(node.index, i, tree.p)), parts[i]);
      }
    }

    method QueueIsDone() returns (done: bool)
      requires Valid()
      ensures done <==> F.AllDone(Abs().queue)
    {
      for i := 0 to queueLen
        invariant forall j | 0 <= j < i :: Abs().queue[j].done
      {
        if !queue[i].done {
          assert !Abs().queue[i].done;
          return false;
        }
      }
      done := true;
    }

    /** tbft_state_fetch_complete. */
    method FetchComplete()
      requires Valid()
      modifies this, received
      ensures Valid()
      ensures Abs() == F.FetchComplete(old(Abs())) && Memory() == old(Memory())
    {
      ForgetReceived();
      inFetch, queueLen, nDataPending := false, 0, 0;
    }

    method StoreBlock(index: nat, digest: Digest, data: Bytes)
      requires Valid() && index < blocks.Length && digest == OfBlock(data)
      modifies Repr
      ensures Valid()
      ensures Abs() == F.StoreBlock(old(Abs()), index, digest, data)
      ensures Memory() == M.Receive(old(Memory()), index, data)
    {
      blocks[index] := data;
      var ok := tree.UpdateLeaf(index, digest);
      received[index] := true;
      if nDataPending > 0 {
        nDataPending := nDataPending - 1;
      }
      assert blocks[..] == old(blocks[..])[index := data];
      assert Received() == old(Received()) + {index};
    }

    /** The end of tbft_state_handle_data. */
    method EndIfDone()
      requires Valid()
      modifies this, received
      ensures Valid() && Memory() == old(Memory())
      ensures Abs() == if old(Abs()).pending == 0 && F.AllDone(old(Abs()).queue) then F.FetchComplete(old(Abs())) else old(Abs())
    {
      var done := QueueIsDone();
      if nDataPending == 0 && done {
        FetchComplete();
      }
    }

    /** tbft_state_handle_data: the tree stays in step, since leaf and block change together. */
    method HandleData(seqno: int, index: int, digest: Digest, data: Bytes)
      requires Valid()
      modifies Repr
      ensures Valid()
      ensures Abs() == F.HandleData(Dims(), old(Abs()), seqno, index, digest, data)
      ensures Memory() == old(Memory()) || Memory() == M.Receive(old(Memory()), index, data)
    {
      if !inFetch || seqno != fetchSeqno || index < 0 || index >= blocks.Length {
        return;
      }
      if received[index] {
        return;
      }
      if OfBlock(data) != digest {
        return;
      }
      StoreBlock(index, digest, data);
      EndIfDone();
    }

    /** tbft_state_next_fetch_req: the first request not yet sent, if there is one. */
    method NextFetchReq() returns (found: bool, node: F.Req)
      requires Valid()
      modifies this, queue
      ensures Valid()
      ensures var s := old(Abs());
              if F.FirstUndone(s.queue) == |s.queue| then !found && Abs() == s
              else found && node == s.queue[F.FirstUndone(s.queue)].node && Abs() == F.NextFetchReq(Dims(), s)
    {
      node := F.Req(0, 0);
      var i := 0;
      while i < queueLen && queue[i].done
        invariant 0 <= i <= queueLen
        invariant forall j | 0 <= j < i :: queue[j].done
      {
        i := i + 1;
      }
      FirstUndoneIs(Abs().queue, i);
      if i == queueLen {
        return false, node;
      }
      node := queue[i].node;
      MarkSent(i);
      found := true;
    }

    method MarkSent(i: nat)
      requires Valid() && i < queueLen
      modifies this, queue
      ensures Valid()
      ensures var s, node := old(Abs()), old(queue[i]).node;
              Abs() == s.(queue := s.queue[i := F.Entry(node, true)],
                          pending := if Dims().IsLeafLevel(node.level) && node.index !in s.received
                                     then s.pending + 1 else s.pending)
    {
      var node := queue[i].node;
      queue[i] := F.Entry(node, true);
      if node.level == tree.levels - 1 && (node.index >= received.Length || !received[node.index]) {
        nDataPending := nDataPending + 1;
      }
      assert queue[..queueLen] == old(queue[..queueLen])[i := F.Entry(node, true)];
    }

    /** What sending every request that is left comes to. */
    ghost function Rest(): F.Sending
      requires Valid()
      reads Repr
    {
      F.Dispatch(Dims(), Abs())
    }

    /** How far the queue reaches beyond its first request not yet sent. */
    ghost function Left(): int
      requires Valid()
      reads Repr
    {
      queueLen - F.FirstUndone(Abs().queue)
    }

    /** One turn of the sending loop. */
    method SendOne() returns (found: bool, node: F.Req)
      requires Valid()
      modifies this, queue
      ensures Valid()
      ensures Rest().state == old(Rest()).state
      ensures old(Rest()).sent == (if found then [node] else []) + Rest().sent
      ensures !found ==> Rest() == F.Sending(Abs(), [])
      ensures found ==> Left() < old(Left())
    {
      found, node := NextFetchReq();
      if found {
        FurtherUndone(Abs().queue, old(Abs()).queue);
      }
    }

    static lemma Reassociate(first: seq<F.Req>, node: F.Req, rest: seq<F.Req>)
      ensures first + ([node] + rest) == first + [node] + rest
      ensures first + ([] + rest) == first + rest
    {
      assert first + ([node] + rest) == first + [node] + rest;
      assert [] + rest == rest;
    }

    /** Sending every request that is left, as the replica does after each answer. */
    method SendRequests() returns (sent: seq<F.Req>)
      requires Valid()
      modifies this, queue
      ensures Valid()
      ensures F.Sending(Abs(), sent) == F.Dispatch(Dims(), old(Abs()))
    {
      sent := [];
      ghost var whole := Rest();
      var found := true;
      while found
        invariant Valid()
        invariant Rest().state == whole.state
        invariant sent + Rest().sent == whole.sent
        invariant !found ==> Rest() == F.Sending(Abs(), [])
        decreases found, Left()
      {
        ghost var already := sent;
        var node;
        found, node := SendOne();
        if found {
          sent := sent + [node];
          Reassociate(already, node, Rest().sent);
        }
      }
    }

    /** The Meta_data handler of the replica. */
    method OnMetaData(seqno: int, level: int, index: int, parts: seq<Digest>) returns (sent: seq<F.Req>)
      requires Valid()
      modifies Repr
      ensures Valid()
      ensures F.Sending(Abs(), sent) == F.OnMeta(Dims(), old(Abs()), seqno, level, index, parts)
    {
      sent := [];
      if !inFetch || |parts| > tree.p {
        return;
      }
      HandleMetaData(seqno, level, index, parts);
      if level == 0 && nDataPending == 0 {
        var done := QueueIsDone();
        if done {
          FetchComplete();
          return;
        }
      }
      sent := SendRequests();
    }

    // -------------------------------------------------------------------- replying

    /** The digests of the first `count` children of a node. */
    method ReadParts(node: F.Req, count: nat) returns (parts: seq<Digest>)
      requires Valid() && node.level + 1 < Dims().levels && node.index < Dims().NodesAt(node.level)
      requires count <= tree.p
      ensures |parts| == count
      ensures parts == Children(tree.leaves, tree.p, tree.levels - 1 - node.level, node.index)[..count]
    {
      parts := [];
      for c := 0 to count
        invariant |parts| == c
        invariant parts == Children(tree.leaves, tree.p, tree.levels - 1 - node.level, node.index)[..c]
      {
        ChildInRange(node.index, c, tree.p, Pow(tree.p, node.level));
        var d := LocalDigest(F.Req(node.level + 1, Child(node.index, c, tree.p)));
        parts := parts + [d];
      }
    }

    /** tbft_replica_handle_fetch: the block and its leaf digest, or the digests of the
        children; nothing for a node that does not exist. */
    method HandleFetch(seqno: int, level: int, index: int) returns (reply: Option<F.Reply>)
      requires Valid()
      ensures reply.Some? <==>
              && 0 <= level < tree.levels && 0 <= index
              && (if level == tree.levels - 1 then index < tree.numBlocks else index < Pow(tree.p, level))
      ensures reply.Some? ==>
                reply.value == F.Answer(Dims(), F.Source(tree.leaves, blocks[..]), seqno, F.Req(level, index))
    {
      if level < 0 || index < 0 || level >= tree.levels {
        return None;
      }
      if level == tree.levels - 1 {
        if index >= blocks.Length {
          return None;
        }
        var d := LocalDigest(F.Req(level, index));
        return Some(F.Data(seqno, index, d, blocks[index]));
      }
      PowGrows(tree.p, level + 1, tree.levels - 1);
      var nodes := NodesAtLevel(level + 1, tree.p);
      var first := index * tree.p;
      var count := tree.p;
      if first + count > nodes {
        count := nodes - first;
      }
      ChildCount(index, tree.p, Pow(tree.p, level));
      assert nodes == Pow(tree.p, level) * tree.p;
      if count <= 0 {
        return None;
      }
      var parts := ReadParts(F.Req(level, index), count);
      reply := Some(F.Meta(seqno, level, index, parts));
    }
  }

  /** A node that exists has all its children, one that does not has none. */
  lemma ChildCount(index: nat, p: nat, n: nat)
    requires p > 0
    ensures index < n ==> index * p + p <= n * p
    ensures index >= n ==> index * p >= n * p
  {
    if index < n {
      Sign(index + 1 - n, p);
    } else {
      Sign(n - index, p);
    }
  }

  /** Marking the first request left as sent leaves later ones only. */
  lemma FurtherUndone(after: seq<F.Entry>, before: seq<F.Entry>)
    requires F.FirstUndone(before) < |before|
    requires after == before[F.FirstUndone(before) := F.Entry(before[F.FirstUndone(before)].node, true)]
    ensures F.FirstUndone(after) > F.FirstUndone(before) && |after| == |before|
  {
    var i, j := F.FirstUndone(before), F.FirstUndone(after);
    assert j < |after| ==> !after[j].done;
    assert forall k | 0 <= k < i :: after[k].done;
  }

  lemma {:induction false} FirstUndoneIs(queue: seq<F.Entry>, i: nat)
    requires i <= |queue|
    requires forall j | 0 <= j < i :: queue[j].done
    requires i < |queue| ==> !queue[i].done
    ensures F.FirstUndone(queue) == i
  {
    if i > 0 {
      FirstUndoneIs(queue[1..], i - 1);
    }
  }
}
