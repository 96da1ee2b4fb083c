/** State transfer: the breadth-first descent into differing subtrees, against a replier
    that answers from a fixed state over a loss-free channel that keeps the order. */
module FetchSpec {
  import opened Types
  import opened Arithmetic
  import opened PartitionSpec

  datatype Dims = Dims(p: nat, levels: nat, numBlocks: nat, maxBlocks: nat) {
    ghost predicate Valid() {
      && p >= 2
      && LeastLevels(levels, numBlocks, p)
      && 1 <= numBlocks <= maxBlocks
    }

    function NodesAt(level: nat): nat { Pow(p, level) }

    predicate IsLeafLevel(level: nat) { level + 1 == levels }

    /** Capacity of the fetch queue. */
    function QueueCap(): nat { 2 * maxBlocks }
  }

  datatype Req = Req(level: nat, index: nat)

  datatype Entry = Entry(node: Req, done: bool)

  datatype State = State(leaves: seq<Digest>, blocks: seq<Bytes>, inFetch: bool, fetchSeqno: int,
                         queue: seq<Entry>, pending: int, received: set<int>)

  /** What a replier holds. */
  datatype Source = Source(leaves: seq<Digest>, blocks: seq<Bytes>)

  predicate Fits(dm: Dims, leaves: seq<Digest>, blocks: seq<Bytes>) {
    |leaves| == |blocks| == dm.numBlocks
  }

  function DigestAt(dm: Dims, leaves: seq<Digest>, node: Req): Digest
    requires node.level < dm.levels
  {
    Node(leaves, dm.p, dm.levels - 1 - node.level, node.index)
  }

  // ------------------------------------------------------------- the fetcher

  /** tbft_state_start_fetch. */
  function StartFetch(dm: Dims, s: State, seqno: int): State {
    var blocks := if dm.numBlocks < dm.QueueCap() then dm.numBlocks else dm.QueueCap();
    s.(inFetch := true, fetchSeqno := seqno, pending := 0, received := {},
       queue := if dm.levels == 1 then seq(blocks, i requires 0 <= i => Entry(Req(0, i), false))
                else [Entry(Req(0, 0), false)])
  }

  /** The queue after the first `k` parts of a Meta_data have been compared. */
  function Enqueue(dm: Dims, leaves: seq<Digest>, queue: seq<Entry>, node: Req, parts: seq<Digest>, k: nat): seq<Entry>
    requires node.level + 1 < dm.levels && k <= |parts|
  {
    if k == 0 then queue
    else
      var q := Enqueue(dm, leaves, queue, node, parts, k - 1);
      var child := Req(node.level + 1, Child(node.index, k - 1, dm.p));
      if child.index >= dm.NodesAt(child.level) then q
      else if DigestAt(dm, leaves, child) == parts[k - 1] then q
      else if |q| < dm.QueueCap() then q + [Entry(child, false)]
      else q
  }

  /** tbft_state_handle_meta_data. */
  function HandleMeta(dm: Dims, s: State, seqno: int, level: int, index: int, parts: seq<Digest>): State {
    if !s.inFetch || seqno != s.fetchSeqno then s
    else if level < 0 || level >= dm.levels - 1 then s
    else if index < 0 || index >= dm.NodesAt(level) || |parts| > dm.p then s
    else s.(queue := Enqueue(dm, s.leaves, s.queue, Req(level, index), parts, |parts|))
  }

  predicate AllDone(queue: seq<Entry>) {
    forall i | 0 <= i < |queue| :: queue[i].done
  }

  /** tbft_state_fetch_complete. */
  function FetchComplete(s: State): State {
    s.(inFetch := false, queue := [], pending := 0, received := {})
  }

  /** A block whose digest was checked is written to memory and into the tree. */
  function StoreBlock(s: State, index: nat, digest: Digest, block: Bytes): State
    requires index < |s.leaves| == |s.blocks|
  {
    s.(leaves := s.leaves[index := digest], blocks := s.blocks[index := block],
       received := s.received + {index}, pending := if s.pending > 0 then s.pending - 1 else s.pending)
  }

  /** tbft_state_handle_data. */
  function HandleData(dm: Dims, s: State, seqno: int, index: int, digest: Digest, block: Bytes): State
    requires Fits(dm, s.leaves, s.blocks)
  {
    if !s.inFetch || seqno != s.fetchSeqno then s
    else if index < 0 || index >= dm.numBlocks || index in s.received then s
    else if OfBlock(block) != digest then s
    else
      var s1 := StoreBlock(s, index, digest, block);
      if s1.pending == 0 && AllDone(s1.queue) then FetchComplete(s1) else s1
  }

  /** The position of the first request not yet sent, or the queue's length. */
  function FirstUndone(queue: seq<Entry>): (i: nat)
    ensures i <= |queue|
    ensures forall j | 0 <= j < i :: queue[j].done
    ensures i < |queue| ==> !queue[i].done
  {
    if queue == [] || !queue[0].done then 0 else 1 + FirstUndone(queue[1..])
  }

  /** tbft_state_next_fetch_req when there is something left to send. */
  function NextFetchReq(dm: Dims, s: State): State
    requires FirstUndone(s.queue) < |s.queue|
  {
    var i := FirstUndone(s.queue);
    var node := s.queue[i].node;
    s.(queue := s.queue[i := Entry(node, true)],
       pending := if dm.IsLeafLevel(node.level) && node.index !in s.received then s.pending + 1 else s.pending)
  }

  datatype Sending = Sending(state: State, sent: seq<Req>)

  /** Sending every request that is left. */
  function Dispatch(dm: Dims, s: State): Sending
    decreases |s.queue| - FirstUndone(s.queue)
  {
    var i := FirstUndone(s.queue);
    if i == |s.queue| then Sending(s, [])
    else
      var s1 := NextFetchReq(dm, s);
      assert FirstUndone(s1.queue) > i by {
        assert s1.queue[..i + 1] == s.queue[..i] + [s1.queue[i]];
      }
      var rest := Dispatch(dm, s1);
      Sending(rest.state, [s.queue[i].node] + rest.sent)
  }

  datatype Reply =
    | Meta(seqno: int, level: int, index: int, parts: seq<Digest>)
    | Data(seqno: int, index: int, digest: Digest, block: Bytes)

  /** The Meta_data handler of the replica: compare, finish if nothing is left, or send on.
      Whether it may finish it does not ask the seqno of the message. */
  function OnMeta(dm: Dims, s: State, seqno: int, level: int, index: int, parts: seq<Digest>): Sending {
    if !s.inFetch || |parts| > dm.p then Sending(s, [])
    else
      var s1 := HandleMeta(dm, s, seqno, level, index, parts);
      if level == 0 && s1.pending == 0 && AllDone(s1.queue) then Sending(FetchComplete(s1), [])
      else Dispatch(dm, s1)
  }

  function OnReply(dm: Dims, s: State, reply: Reply): Sending
    requires Fits(dm, s.leaves, s.blocks)
  {
    match reply
    case Meta(seqno, level, index, parts) => OnMeta(dm, s, seqno, level, index, parts)
    case Data(seqno, index, digest, block) => Sending(HandleData(dm, s, seqno, index, digest, block), [])
  }

  // ------------------------------------------------------------- the replier

  /** tbft_replica_handle_fetch: the block and its leaf digest, or the children's digests. */
  function Answer(dm: Dims, remote: Source, seqno: int, node: Req): Reply
    requires Fits(dm, remote.leaves, remote.blocks) && node.level < dm.levels
    requires dm.IsLeafLevel(node.level) ==> node.index < dm.numBlocks
  {
    if dm.IsLeafLevel(node.level) then Data(seqno, node.index, remote.leaves[node.index], remote.blocks[node.index])
    else Meta(seqno, node.level, node.index,
              Children(remote.leaves, dm.p, dm.levels - 1 - node.level, node.index))
  }
}
