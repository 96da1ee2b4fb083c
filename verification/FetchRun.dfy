/** Whole fetches: every reply keeps the invariant, and the fetch ends with the replier's state. */
module FetchRuns {
  import opened Types
  import opened Arithmetic
  import opened PartitionSpec
  import opened FetchSpec
  import opened FetchProofs
  import opened FetchOrder
  import M = StoreSpec

  /** The fetching replica and the requests that are under way, oldest first. */
  datatype Link = Link(local: State, wire: seq<Req>)

  ghost predicate Setting(dm: Dims, base: State, remote: Source) {
    && dm.Valid() && dm.p >= 3
    && Fits(dm, base.leaves, base.blocks)
    && Fits(dm, remote.leaves, remote.blocks)
  }

  /** Starting a fetch and sending the first requests. */
  function Start(dm: Dims, base: State, seqno: int): Link {
    var sending := Dispatch(dm, StartFetch(dm, base, seqno));
    Link(sending.state, sending.sent)
  }

  predicate CanDeliver(dm: Dims, link: Link) {
    && link.wire != []
    && link.wire[0].level < dm.levels
    && (dm.IsLeafLevel(link.wire[0].level) ==> link.wire[0].index < dm.numBlocks)
    && Fits(dm, link.local.leaves, link.local.blocks)
  }

  /** The answer to the oldest request arrives and is handled. */
  function Deliver(dm: Dims, remote: Source, seqno: int, link: Link): Link
    requires Fits(dm, remote.leaves, remote.blocks) && CanDeliver(dm, link)
  {
    var sending := OnReply(dm, link.local, Answer(dm, remote, seqno, link.wire[0]));
    Link(sending.state, link.wire[1..] + sending.sent)
  }

  // ----------------------------------------------------------------- invariant

  /** Requests for blocks that are still unanswered. */
  function LeafCount(dm: Dims, wire: seq<Req>): nat {
    if wire == [] then 0
    else (if dm.IsLeafLevel(wire[0].level) then 1 else 0) + LeafCount(dm, wire[1..])
  }

  /** Block `x` has been asked for and answered. */
  ghost predicate Answered(dm: Dims, order: seq<Req>, k: nat, x: int) {
    exists i :: 0 <= i < k && i < |order| && dm.IsLeafLevel(order[i].level) && order[i].index == x
  }

  /** The replier's block is what its leaf says; otherwise it is refused. */
  predicate IsTrue(remote: Source, x: int) {
    0 <= x < |remote.leaves| == |remote.blocks| && remote.leaves[x] == OfBlock(remote.blocks[x])
  }

  /** Blocks received are those that were answered with what their leaves say. */
  ghost predicate AllReceived(dm: Dims, remote: Source, order: seq<Req>, k: nat, received: set<int>) {
    forall x :: x in received <==> Answered(dm, order, k, x) && IsTrue(remote, x)
  }

  /** Answers to the first `k` requests that were refused. */
  function Refused(dm: Dims, remote: Source, order: seq<Req>, k: nat): nat
    requires k <= |order|
  {
    if k == 0 then 0
    else
      Refused(dm, remote, order, k - 1)
      + if dm.IsLeafLevel(order[k - 1].level) && !IsTrue(remote, order[k - 1].index) then 1 else 0
  }

  /** The blocks that were answered are the replier's, all others are as they were. */
  ghost predicate Mixed(dm: Dims, base: State, remote: Source, s: State)
    requires Fits(dm, base.leaves, base.blocks) && Fits(dm, remote.leaves, remote.blocks)
    requires Fits(dm, s.leaves, s.blocks)
  {
    forall x: nat | x < dm.numBlocks ::
      if x in s.received then s.leaves[x] == remote.leaves[x] && s.blocks[x] == remote.blocks[x]
      else s.leaves[x] == base.leaves[x] && s.blocks[x] == base.blocks[x]
  }

  /** The queue with these nodes, of which the first `m` have been sent. */
  function Queue(order: seq<Req>, m: nat): (queue: seq<Entry>)
    ensures |queue| == |order|
  {
    seq(|order|, j requires 0 <= j < |order| => Entry(order[j], j < m))
  }

  /** Requests are answered in the order of the queue, and the pending counter is the number
      of block requests that were sent and not answered, or answered with the wrong block. */
  ghost predicate Fetching(dm: Dims, base: State, remote: Source, seqno: int, link: Link, order: seq<Req>) {
    && Setting(dm, base, remote)
    && var s := link.local;
       && s.inFetch && s.fetchSeqno == seqno && Fits(dm, s.leaves, s.blocks)
       && 1 <= |link.wire| <= |order|
       && s.queue == Queue(order, |order|)
       && link.wire == order[|order| - |link.wire|..]
       && Order(dm, base.leaves, remote.leaves, order, |order| - |link.wire|)
       && AllReceived(dm, remote, order, |order| - |link.wire|, s.received)
       && Mixed(dm, base, remote, s)
       && s.pending == LeafCount(dm, link.wire) + Refused(dm, remote, order, |order| - |link.wire|)
  }

  // --------------------------------------------------------- sending requests

  lemma FirstUnsent(order: seq<Req>, m: nat)
    requires m <= |order|
    ensures FirstUndone(Queue(order, m)) == m
  {
    var queue := Queue(order, m);
    var i := FirstUndone(queue);
    assert i < |queue| ==> queue[i] == Entry(order[i], i < m);
    assert m < |queue| ==> queue[m] == Entry(order[m], false);
  }

  lemma {:induction false} LeafCountAdds(dm: Dims, a: seq<Req>, b: seq<Req>)
    ensures LeafCount(dm, a + b) == LeafCount(dm, a) + LeafCount(dm, b)
  {
    if a == [] {
      assert a + b == b;
    } else {
      LeafCountAdds(dm, a[1..], b);
      assert (a + b)[1..] == a[1..] + b;
    }
  }

  /** Everything new is sent, in order, and every block request counted as pending. */
  lemma {:induction false} DispatchSendsAll(dm: Dims, s: State, order: seq<Req>, m: nat)
    requires m <= |order| && s.queue == Queue(order, m)
    requires forall j | m <= j < |order| && dm.IsLeafLevel(order[j].level) :: order[j].index !in s.received
    ensures Dispatch(dm, s) ==
            Sending(s.(queue := Queue(order, |order|), pending := s.pending + LeafCount(dm, order[m..])), order[m..])
    decreases |order| - m
  {
    FirstUnsent(order, m);
    if m < |order| {
      SendNext(dm, s, order, m);
      DispatchSendsAll(dm, NextFetchReq(dm, s), order, m + 1);
      assert order[m..] == [order[m]] + order[m + 1..];
    }
  }

  lemma SendNext(dm: Dims, s: State, order: seq<Req>, m: nat)
    requires m < |order| && s.queue == Queue(order, m)
    requires dm.IsLeafLevel(order[m].level) ==> order[m].index !in s.received
    ensures FirstUndone(s.queue) == m
    ensures NextFetchReq(dm, s) ==
            s.(queue := Queue(order, m + 1),
               pending := s.pending + if dm.IsLeafLevel(order[m].level) then 1 else 0)
  {
    FirstUnsent(order, m);
    assert Queue(order, m)[m := Entry(order[m], true)] == Queue(order, m + 1);
  }

  /** The comparison loop enqueues exactly the differing children. */
  lemma {:induction false} EnqueueIsNewNodes(dm: Dims, a: seq<Digest>, b: seq<Digest>, order: seq<Req>, k: nat, c: nat)
    requires Order(dm, a, b, order, k) && k < |order| && dm.p >= 3 && c <= dm.p
    requires order[k].level + 1 < dm.levels
    ensures var parts := Children(b, dm.p, dm.levels - 1 - order[k].level, order[k].index);
            Enqueue(dm, a, Queue(order, |order|), order[k], parts, c) ==
            Queue(order + NewNodes(dm, a, b, order[k], c), |order|)
  {
    if c == 0 {
      assert order + [] == order;
    } else {
      EnqueueIsNewNodes(dm, a, b, order, k, c - 1);
      OrderIsShort(dm, a, b, order, k, c);
      ComparePart(dm, a, b, order, k, c - 1);
      var rest, child := NewNodes(dm, a, b, order[k], c - 1), ChildOf(order[k], c - 1, dm.p);
      assert Queue(order + (rest + [child]), |order|) == Queue(order + rest, |order|) + [Entry(child, false)];
    }
  }

  /** The c-th part is the replier's digest of the c-th child, which exists. */
  lemma ComparePart(dm: Dims, a: seq<Digest>, b: seq<Digest>, order: seq<Req>, k: nat, c: nat)
    requires Order(dm, a, b, order, k) && k < |order| && c < dm.p
    requires order[k].level + 1 < dm.levels
    ensures var child := ChildOf(order[k], c, dm.p);
            && child.index < dm.NodesAt(child.level)
            && Children(b, dm.p, dm.levels - 1 - order[k].level, order[k].index)[c] == DigestAt(dm, b, child)
  {
    NodeInRange(dm, a, b, order, k, k);
    ChildInRange(order[k].index, c, dm.p, Pow(dm.p, order[k].level));
  }

  lemma NodeInRange(dm: Dims, a: seq<Digest>, b: seq<Digest>, order: seq<Req>, k: nat, j: nat)
    requires Order(dm, a, b, order, k) && j < |order|
    ensures order[j].level < dm.levels && order[j].index < dm.NodesAt(order[j].level)
    ensures dm.IsLeafLevel(order[j].level) ==> order[j].index < dm.numBlocks
  {
    if j > 0 {
      assert Wanted(dm, a, b, order, k, j);
      var x := BlockBelow(dm, a, b, order[j]);
      BelowPower(x, dm.p, dm.levels - 1 - order[j].level, dm.levels - 1);
    }
  }

  // ----------------------------------------------------------------- every step

  /** The block is asked for: its leaf differs, or it is the only one. */
  predicate IsFetched(dm: Dims, base: State, remote: Source, x: nat)
    requires |base.leaves| == |remote.leaves| == dm.numBlocks && x < dm.numBlocks
  {
    dm.levels == 1 || base.leaves[x] != remote.leaves[x]
  }

  /** What the replier's leaves promise: each that is asked for is the hash of its block. */
  ghost predicate Hashed(dm: Dims, base: State, remote: Source)
    requires Setting(dm, base, remote)
  {
    forall x: nat | x < dm.numBlocks && IsFetched(dm, base, remote, x) :: IsTrue(remote, x)
  }

  /** The fetch is over and has done what it is for. */
  ghost predicate Fetched(dm: Dims, base: State, remote: Source, s: State)
    requires Setting(dm, base, remote)
  {
    && !s.inFetch
    && Fits(dm, s.leaves, s.blocks)
    && s.leaves == remote.leaves
    && forall x: nat | x < dm.numBlocks ::
         s.blocks[x] == if IsFetched(dm, base, remote, x) then remote.blocks[x] else base.blocks[x]
  }

  /** Nothing is under way any more, and the fetch is not over: refused blocks are pending. */
  ghost predicate Stuck(link: Link) {
    link.wire == [] && link.local.inFetch && link.local.pending > 0 && AllDone(link.local.queue)
  }

  lemma StartIsFetching(dm: Dims, base: State, remote: Source, seqno: int)
    requires Setting(dm, base, remote)
    ensures Fetching(dm, base, remote, seqno, Start(dm, base, seqno), [Req(0, 0)])
  {
    var root := [Req(0, 0)];
    var s := StartFetch(dm, base, seqno);
    if dm.levels == 1 {
      assert dm.numBlocks == 1;
    }
    assert s.queue == Queue(root, 0);
    DispatchSendsAll(dm, s, root, 0);
    assert root[0..] == root;
    assert Order(dm, base.leaves, remote.leaves, root, 0);
  }

  /** While internal nodes are being answered nothing has been written. */
  lemma NothingWritten(dm: Dims, base: State, remote: Source, seqno: int, link: Link, order: seq<Req>)
    requires Fetching(dm, base, remote, seqno, link, order)
    requires !dm.IsLeafLevel(order[|order| - |link.wire|].level)
    ensures link.local.received == {} && link.local.leaves == base.leaves && link.local.blocks == base.blocks
  {
    var k := |order| - |link.wire|;
    NodeInRange(dm, base.leaves, remote.leaves, order, k, k);
    forall i | 0 <= i < k
      ensures !dm.IsLeafLevel(order[i].level)
    {
      assert order[i].level <= order[k].level;
    }
    assert forall x :: x !in link.local.received;
    assert forall x: nat | x < dm.numBlocks :: link.local.leaves[x] == base.leaves[x];
  }

  /** The first request of the wire is next in the order, and can be answered. */
  lemma NextOnWire(dm: Dims, base: State, remote: Source, seqno: int, link: Link, order: seq<Req>)
    requires Fetching(dm, base, remote, seqno, link, order)
    ensures CanDeliver(dm, link) && link.wire[0] == order[|order| - |link.wire|]
  {
    NodeInRange(dm, base.leaves, remote.leaves, order, |order| - |link.wire|, |order| - |link.wire|);
  }

  lemma WireGoesOn(order: seq<Req>, added: seq<Req>, k: nat)
    requires k < |order|
    ensures order[k..][1..] + added == (order + added)[k + 1..]
    ensures (order + added)[|order|..] == added
  {
  }

  /** Only the root is on level zero. */
  lemma LevelZeroIsRoot(dm: Dims, a: seq<Digest>, b: seq<Digest>, order: seq<Req>, k: nat, j: nat)
    requires Order(dm, a, b, order, k) && j < |order|
    ensures j == 0 || order[j].level > 0
  {
    if j > 0 {
      assert Wanted(dm, a, b, order, k, j);
    }
  }

  /** A node that is not the root and has been asked for leads to further requests. */
  lemma GoesDeeper(dm: Dims, a: seq<Digest>, b: seq<Digest>, order: seq<Req>, k: nat)
    requires Order(dm, a, b, order, k) && k < |order| && !dm.IsLeafLevel(order[k].level)
    requires k > 0 || Differs(dm, a, b, order[0])
    ensures NewNodes(dm, a, b, order[k], dm.p) != []
  {
    if k > 0 {
      assert Wanted(dm, a, b, order, k, k);
    }
    var c := SomeChildDiffers(dm, a, b, order[k]);
    NewNodesAre(dm, a, b, order[k], dm.p, ChildOf(order[k], c, dm.p));
  }

  /** The order after the next request has been answered. */
  function NextOrder(dm: Dims, base: State, remote: Source, link: Link, order: seq<Req>): seq<Req>
    requires 1 <= |link.wire| <= |order|
  {
    order + NewNodes(dm, base.leaves, remote.leaves, order[|order| - |link.wire|], dm.p)
  }

  lemma LeafCountOne(dm: Dims, node: Req)
    ensures LeafCount(dm, [node]) == if dm.IsLeafLevel(node.level) then 1 else 0
  {
    assert [node][1..] == [];
  }

  /** With no differing child of the root the two states are equal. */
  lemma RootIsAll(dm: Dims, a: seq<Digest>, b: seq<Digest>, order: seq<Req>)
    requires Order(dm, a, b, order, 0) && !dm.IsLeafLevel(order[0].level)
    requires NewNodes(dm, a, b, order[0], dm.p) == []
    ensures order == [Req(0, 0)] && a == b
  {
    if |order| > 1 {
      WantedNeedsAnswered(dm, a, b, order, 0, 1);
    }
    if Differs(dm, a, b, order[0]) {
      GoesDeeper(dm, a, b, order, 0);
    } else {
      RootDetermines(dm, a, b);
    }
  }

  lemma WantedNeedsAnswered(dm: Dims, a: seq<Digest>, b: seq<Digest>, order: seq<Req>, k: nat, j: nat)
    requires Order(dm, a, b, order, k) && 1 <= j < |order|
    ensures k >= 1
  {
    assert Wanted(dm, a, b, order, k, j);
  }

  /** Equal roots mean equal leaves. */
  lemma RootDetermines(dm: Dims, a: seq<Digest>, b: seq<Digest>)
    requires dm.Valid() && |a| == |b| == dm.numBlocks && !Differs(dm, a, b, Req(0, 0))
    ensures a == b
  {
    NodeDeterminesLeaves(a, b, dm.p, dm.levels - 1, 0);
    forall x: nat | x < dm.numBlocks
      ensures a[x] == b[x]
    {
      TopIsRoot(dm, x);
    }
  }

  /** Up to an inner node nothing but inner nodes has been answered. */
  lemma NoneAnswered(dm: Dims, remote: Source, order: seq<Req>, more: seq<Req>, k: nat)
    requires k < |order| && Levelled(order, k) && order[k].level + 1 < dm.levels
    ensures AllReceived(dm, remote, order + more, k + 1, {})
    ensures Refused(dm, remote, order + more, k + 1) == 0
  {
    forall i | 0 <= i < k + 1
      ensures !dm.IsLeafLevel((order + more)[i].level)
    {
      if i < k {
        assert order[i].level <= order[k].level;
      }
    }
    NoneRefused(dm, remote, order + more, k + 1);
  }

  lemma {:induction false} NoneRefused(dm: Dims, remote: Source, order: seq<Req>, k: nat)
    requires k <= |order|
    requires forall i | 0 <= i < k && dm.IsLeafLevel(order[i].level) :: IsTrue(remote, order[i].index)
    ensures Refused(dm, remote, order, k) == 0
  {
    if k > 0 {
      NoneRefused(dm, remote, order, k - 1);
    }
  }

  lemma {:induction false} SomeRefused(dm: Dims, remote: Source, order: seq<Req>, k: nat, i: nat)
    requires i < k <= |order| && dm.IsLeafLevel(order[i].level) && !IsTrue(remote, order[i].index)
    ensures Refused(dm, remote, order, k) > 0
  {
    if i < k - 1 {
      SomeRefused(dm, remote, order, k - 1, i);
    }
  }

  /** The link after the children of the next node have been asked for. */
  function NextLink(dm: Dims, base: State, remote: Source, link: Link, order: seq<Req>): Link
    requires 1 <= |link.wire| <= |order|
  {
    var added := NewNodes(dm, base.leaves, remote.leaves, order[|order| - |link.wire|], dm.p);
    var order' := order + added;
    Link(link.local.(queue := Queue(order', |order'|), pending := link.local.pending + LeafCount(dm, added)),
         link.wire[1..] + added)
  }

  /** After the new requests have been sent the invariant holds again. */
  lemma GoOn(dm: Dims, base: State, remote: Source, seqno: int, link: Link, order: seq<Req>, k: nat)
    requires Setting(dm, base, remote) && k < |order| && |link.wire| == |order| - k && link.wire == order[k..]
    requires Order(dm, base.leaves, remote.leaves, order, k) && order[k].level + 1 < dm.levels
    requires var s := link.local;
             && s.inFetch && s.fetchSeqno == seqno && s.received == {} && s.pending == LeafCount(dm, link.wire)
             && s.leaves == base.leaves && s.blocks == base.blocks
    requires NewNodes(dm, base.leaves, remote.leaves, order[k], dm.p) != []
    ensures Fetching(dm, base, remote, seqno, NextLink(dm, base, remote, link, order),
                     NextOrder(dm, base, remote, link, order))
  {
    var added := NewNodes(dm, base.leaves, remote.leaves, order[k], dm.p);
    OrderGoesOn(dm, base.leaves, remote.leaves, order, k);
    WireGoesOn(order, added, k);
    LeafCountAdds(dm, link.wire[1..], added);
    NoneAnswered(dm, remote, order, added, k);
    assert |link.wire[1..] + added| == |order + added| - (k + 1);
  }

  /** The comparison of a Meta_data from the wire. */
  lemma Compared(dm: Dims, base: State, remote: Source, seqno: int, s: State, order: seq<Req>, k: nat)
    requires Setting(dm, base, remote) && k < |order|
    requires Order(dm, base.leaves, remote.leaves, order, k) && order[k].level + 1 < dm.levels
    requires s.inFetch && s.fetchSeqno == seqno && s.leaves == base.leaves && s.queue == Queue(order, |order|)
    ensures HandleMeta(dm, s, seqno, order[k].level, order[k].index,
                       Children(remote.leaves, dm.p, dm.levels - 1 - order[k].level, order[k].index)) ==
            s.(queue := Queue(order + NewNodes(dm, base.leaves, remote.leaves, order[k], dm.p), |order|))
  {
    NodeInRange(dm, base.leaves, remote.leaves, order, k, k);
    EnqueueIsNewNodes(dm, base.leaves, remote.leaves, order, k, dm.p);
  }

  /** When an answer brings nothing new it was the root's, and the states are equal. */
  lemma NothingNew(dm: Dims, base: State, remote: Source, seqno: int, link: Link, order: seq<Req>)
    requires Fetching(dm, base, remote, seqno, link, order)
    requires !dm.IsLeafLevel(order[|order| - |link.wire|].level)
    requires NewNodes(dm, base.leaves, remote.leaves, order[|order| - |link.wire|], dm.p) == []
    ensures order == link.wire == [Req(0, 0)] && base.leaves == remote.leaves && link.local.pending == 0
  {
    var k := |order| - |link.wire|;
    if k > 0 {
      GoesDeeper(dm, base.leaves, remote.leaves, order, k);
    } else {
      RootIsAll(dm, base.leaves, remote.leaves, order);
      OnlyTheRoot(dm, base, remote, seqno, link, order);
    }
  }

  lemma OnlyTheRoot(dm: Dims, base: State, remote: Source, seqno: int, link: Link, order: seq<Req>)
    requires Fetching(dm, base, remote, seqno, link, order) && |link.wire| == |order|
    requires order == [Req(0, 0)] && !dm.IsLeafLevel(0)
    ensures link.wire == [Req(0, 0)] && link.local.pending == 0
  {
    var k := |order| - |link.wire|;
    assert link.wire == order[k..];
    assert link.local.pending == LeafCount(dm, link.wire) + Refused(dm, remote, order, k);
    RootIsNoBlock(dm, remote, link.wire, order, k);
  }

  lemma RootIsNoBlock(dm: Dims, remote: Source, wire: seq<Req>, order: seq<Req>, k: nat)
    requires order == [Req(0, 0)] && k == 0 && wire == order[k..] && !dm.IsLeafLevel(0)
    ensures wire == order && LeafCount(dm, wire) + Refused(dm, remote, order, k) == 0
  {
    LeafCountOne(dm, Req(0, 0));
  }

  /** What handling the answer for an inner node comes to. */
  lemma MetaDelivered(dm: Dims, base: State, remote: Source, seqno: int, link: Link, order: seq<Req>)
    requires Fetching(dm, base, remote, seqno, link, order) && CanDeliver(dm, link)
    requires link.wire[0] == order[|order| - |link.wire|] && !dm.IsLeafLevel(link.wire[0].level)
    ensures var k := |order| - |link.wire|;
            var s1 := link.local.(queue := Queue(order + NewNodes(dm, base.leaves, remote.leaves, order[k], dm.p), |order|));
            var sending := Dispatch(dm, s1);
            Deliver(dm, remote, seqno, link) ==
              if order[k].level == 0 && s1.pending == 0 && AllDone(s1.queue)
              then Link(FetchComplete(s1), link.wire[1..])
              else Link(sending.state, link.wire[1..] + sending.sent)
  {
    NothingWritten(dm, base, remote, seqno, link, order);
    Compared(dm, base, remote, seqno, link.local, order, |order| - |link.wire|);
    assert link.wire[1..] + [] == link.wire[1..];
  }

  lemma MetaEnds(dm: Dims, base: State, remote: Source, seqno: int, link: Link, order: seq<Req>)
    requires Fetching(dm, base, remote, seqno, link, order) && CanDeliver(dm, link)
    requires link.wire[0] == order[|order| - |link.wire|] && !dm.IsLeafLevel(link.wire[0].level)
    requires NewNodes(dm, base.leaves, remote.leaves, order[|order| - |link.wire|], dm.p) == []
    ensures base.leaves == remote.leaves
    ensures Deliver(dm, remote, seqno, link) == Link(FetchComplete(link.local.(queue := Queue(order, |order|))), [])
  {
    NothingNew(dm, base, remote, seqno, link, order);
    MetaDelivered(dm, base, remote, seqno, link, order);
    AllSent(order);
  }

  lemma AllSent(order: seq<Req>)
    ensures order + [] == order && AllDone(Queue(order, |order|))
  {
  }

  lemma SendNew(dm: Dims, s: State, order: seq<Req>, added: seq<Req>)
    requires s.received == {} && added != []
    ensures var s1 := s.(queue := Queue(order + added, |order|));
            && !AllDone(s1.queue)
            && Dispatch(dm, s1) ==
               Sending(s.(queue := Queue(order + added, |order + added|), pending := s.pending + LeafCount(dm, added)), added)
  {
    var s1 := s.(queue := Queue(order + added, |order|));
    assert !s1.queue[|order|].done;
    assert (order + added)[|order|..] == added;
    DispatchSendsAll(dm, s1, order + added, |order|);
  }

  lemma MetaSends(dm: Dims, base: State, remote: Source, seqno: int, link: Link, order: seq<Req>)
    requires Fetching(dm, base, remote, seqno, link, order) && CanDeliver(dm, link)
    requires link.wire[0] == order[|order| - |link.wire|] && !dm.IsLeafLevel(link.wire[0].level)
    requires NewNodes(dm, base.leaves, remote.leaves, order[|order| - |link.wire|], dm.p) != []
    ensures Deliver(dm, remote, seqno, link) == NextLink(dm, base, remote, link, order)
  {
    NothingWritten(dm, base, remote, seqno, link, order);
    MetaDelivered(dm, base, remote, seqno, link, order);
    SendNew(dm, link.local, order, NewNodes(dm, base.leaves, remote.leaves, order[|order| - |link.wire|], dm.p));
  }

  // ------------------------------------------------------------ blocks arriving

  lemma {:induction false} AllLeaves(dm: Dims, wire: seq<Req>)
    requires forall j | 0 <= j < |wire| :: dm.IsLeafLevel(wire[j].level)
    ensures LeafCount(dm, wire) == |wire|
  {
    if wire != [] {
      AllLeaves(dm, wire[1..]);
    }
  }

  /** From the first block request on there are only block requests. */
  lemma OnlyBlocksLeft(dm: Dims, a: seq<Digest>, b: seq<Digest>, order: seq<Req>, k: nat)
    requires Order(dm, a, b, order, k) && k < |order| && dm.IsLeafLevel(order[k].level)
    ensures forall j | k <= j < |order| :: dm.IsLeafLevel(order[j].level)
    ensures LeafCount(dm, order[k..]) == |order| - k
    ensures LeafCount(dm, order[k + 1..]) == |order| - k - 1
  {
    forall j | k <= j < |order|
      ensures dm.IsLeafLevel(order[j].level)
    {
      NodeInRange(dm, a, b, order, k, j);
    }
    AllLeaves(dm, order[k..]);
    AllLeaves(dm, order[k + 1..]);
  }

  lemma NotYetAnswered(dm: Dims, order: seq<Req>, k: nat)
    requires Distinct(order) && k < |order| && dm.IsLeafLevel(order[k].level)
    ensures !Answered(dm, order, k, order[k].index)
    ensures forall x :: Answered(dm, order, k + 1, x) <==> Answered(dm, order, k, x) || x == order[k].index
  {
    forall i | 0 <= i < k && dm.IsLeafLevel(order[i].level)
      ensures order[i].index != order[k].index
    {
      assert order[i] != order[k];
    }
    forall x
      ensures Answered(dm, order, k + 1, x) <==> Answered(dm, order, k, x) || x == order[k].index
    {
      if Answered(dm, order, k, x) {
        var i :| 0 <= i < k && i < |order| && dm.IsLeafLevel(order[i].level) && order[i].index == x;
        assert i < k + 1;
      }
    }
  }

  lemma LeafIsBlock(dm: Dims, base: State, remote: Source, order: seq<Req>, k: nat)
    requires Setting(dm, base, remote)
    requires Order(dm, base.leaves, remote.leaves, order, k) && k < |order| && dm.IsLeafLevel(order[k].level)
    ensures order[k].index < dm.numBlocks && IsFetched(dm, base, remote, order[k].index)
  {
    NodeInRange(dm, base.leaves, remote.leaves, order, k, k);
    if k > 0 {
      assert Wanted(dm, base.leaves, remote.leaves, order, k, k);
      var x := BlockBelow(dm, base.leaves, remote.leaves, order[k]);
    }
  }

  /** The state after the block asked for next has been answered: stored or refused. */
  function AfterBlock(remote: Source, s: State, x: nat): State
    requires x < |s.leaves| == |s.blocks| == |remote.leaves| == |remote.blocks|
  {
    if IsTrue(remote, x) then StoreBlock(s, x, remote.leaves[x], remote.blocks[x]) else s
  }

  lemma BlockIsStored(dm: Dims, base: State, remote: Source, s: State, order: seq<Req>, k: nat)
    requires Setting(dm, base, remote) && Fits(dm, s.leaves, s.blocks)
    requires Order(dm, base.leaves, remote.leaves, order, k) && k < |order| && dm.IsLeafLevel(order[k].level)
    requires order[k].index < dm.numBlocks
    requires AllReceived(dm, remote, order, k, s.received) && Mixed(dm, base, remote, s)
    ensures order[k].index !in s.received
    ensures var s1 := AfterBlock(remote, s, order[k].index);
            AllReceived(dm, remote, order, k + 1, s1.received) && Mixed(dm, base, remote, s1)
  {
    NotYetAnswered(dm, order, k);
  }

  /** What handling the answer for a block comes to. */
  lemma DataDelivered(dm: Dims, base: State, remote: Source, seqno: int, link: Link, order: seq<Req>)
    requires Fetching(dm, base, remote, seqno, link, order) && CanDeliver(dm, link)
    requires link.wire[0] == order[|order| - |link.wire|] && dm.IsLeafLevel(link.wire[0].level)
    ensures var k, s1 := |order| - |link.wire|, AfterBlock(remote, link.local, link.wire[0].index);
            && s1.pending == |link.wire| - 1 + Refused(dm, remote, order, k + 1)
            && Deliver(dm, remote, seqno, link) ==
               Link(if s1.pending == 0 then FetchComplete(s1) else s1, link.wire[1..])
  {
    var k := |order| - |link.wire|;
    BlockIsStored(dm, base, remote, link.local, order, k);
    OnlyBlocksLeft(dm, base.leaves, remote.leaves, order, k);
    assert AllDone(Queue(order, |order|));
    assert link.wire[1..] + [] == link.wire[1..];
  }

  lemma DataContinues(dm: Dims, base: State, remote: Source, seqno: int, link: Link, order: seq<Req>, k: nat)
    requires Setting(dm, base, remote) && k + 1 < |order| && |link.wire| == |order| - k && link.wire == order[k..]
    requires Order(dm, base.leaves, remote.leaves, order, k)
    requires dm.IsLeafLevel(order[k].level) && order[k].index < dm.numBlocks
    requires var s := link.local;
             && s.inFetch && s.fetchSeqno == seqno && s.queue == Queue(order, |order|)
             && s.pending == |link.wire| + Refused(dm, remote, order, k)
             && Fits(dm, s.leaves, s.blocks) && AllReceived(dm, remote, order, k, s.received) && Mixed(dm, base, remote, s)
    ensures Fetching(dm, base, remote, seqno, Link(AfterBlock(remote, link.local, order[k].index), link.wire[1..]), order)
  {
    BlockIsStored(dm, base, remote, link.local, order, k);
    OnlyBlocksLeft(dm, base.leaves, remote.leaves, order, k);
    OrderGoesOn(dm, base.leaves, remote.leaves, order, k);
    LeavesHaveNone(dm, base.leaves, remote.leaves, order[k], dm.p);
    assert order + [] == order;
    assert link.wire[1..] == order[k + 1..];
  }

  /** Once all requests have been answered, the blocks that were answered are those that are
      fetched. */
  lemma AllAnswered(dm: Dims, base: State, remote: Source, order: seq<Req>, x: nat)
    requires Setting(dm, base, remote) && Order(dm, base.leaves, remote.leaves, order, |order|) && x < dm.numBlocks
    ensures Answered(dm, order, |order|, x) <==> IsFetched(dm, base, remote, x)
  {
    if IsFetched(dm, base, remote, x) {
      var i := FetchedIsAnswered(dm, base, remote, order, x);
    }
    if Answered(dm, order, |order|, x) {
      var i :| 0 <= i < |order| && dm.IsLeafLevel(order[i].level) && order[i].index == x;
      if i > 0 {
        assert Wanted(dm, base.leaves, remote.leaves, order, |order|, i);
        var y := BlockBelow(dm, base.leaves, remote.leaves, order[i]);
      }
    }
  }

  lemma FetchedIsAnswered(dm: Dims, base: State, remote: Source, order: seq<Req>, x: nat) returns (i: nat)
    requires Setting(dm, base, remote) && Order(dm, base.leaves, remote.leaves, order, |order|) && x < dm.numBlocks
    requires IsFetched(dm, base, remote, x)
    ensures i < |order| && dm.IsLeafLevel(order[i].level) && order[i].index == x
  {
    if dm.levels == 1 {
      assert dm.numBlocks == 1;
      i := 0;
    } else {
      NoneIsMissed(dm, base.leaves, remote.leaves, order, x, 0);
      i :| 0 <= i < |order| && order[i] == Req(dm.levels - 1, x);
    }
  }

  /** Nothing was refused exactly when the replier's leaves are what they promise. */
  lemma NoneRefusedIffHashed(dm: Dims, base: State, remote: Source, order: seq<Req>)
    requires Setting(dm, base, remote) && Order(dm, base.leaves, remote.leaves, order, |order|)
    ensures Refused(dm, remote, order, |order|) == 0 <==> Hashed(dm, base, remote)
  {
    if Hashed(dm, base, remote) {
      forall i | 0 <= i < |order| && dm.IsLeafLevel(order[i].level)
        ensures IsTrue(remote, order[i].index)
      {
        NodeInRange(dm, base.leaves, remote.leaves, order, |order|, i);
        assert Answered(dm, order, |order|, order[i].index);
        AllAnswered(dm, base, remote, order, order[i].index);
      }
      NoneRefused(dm, remote, order, |order|);
    } else {
      var x: nat :| x < dm.numBlocks && IsFetched(dm, base, remote, x) && !IsTrue(remote, x);
      var i := FetchedIsAnswered(dm, base, remote, order, x);
      SomeRefused(dm, remote, order, |order|, i);
    }
  }

  /** The last answer for a block ends the fetch, or leaves it stuck. */
  lemma DataEnds(dm: Dims, base: State, remote: Source, seqno: int, link: Link, order: seq<Req>)
    requires Fetching(dm, base, remote, seqno, link, order) && |link.wire| == 1
    requires dm.IsLeafLevel(order[|order| - 1].level)
    requires order[|order| - 1].index < dm.numBlocks
    ensures var s1 := AfterBlock(remote, link.local, order[|order| - 1].index);
            && (Refused(dm, remote, order, |order|) == 0 <==> Hashed(dm, base, remote))
            && (Hashed(dm, base, remote) ==> Fetched(dm, base, remote, FetchComplete(s1)))
  {
    var k := |order| - 1;
    var s1 := AfterBlock(remote, link.local, order[k].index);
    BlockIsStored(dm, base, remote, link.local, order, k);
    OrderGoesOn(dm, base.leaves, remote.leaves, order, k);
    LeavesHaveNone(dm, base.leaves, remote.leaves, order[k], dm.p);
    assert order + [] == order;
    NoneRefusedIffHashed(dm, base, remote, order);
    if Hashed(dm, base, remote) {
      forall x: nat | x < dm.numBlocks
        ensures x in s1.received <==> IsFetched(dm, base, remote, x)
      {
        AllAnswered(dm, base, remote, order, x);
      }
    }
  }

  // --------------------------------------------------------------- whole fetches

  ghost predicate Ends(dm: Dims, base: State, remote: Source, link: Link)
    requires Setting(dm, base, remote)
  {
    link.wire == [] && if Hashed(dm, base, remote) then Fetched(dm, base, remote, link.local) else Stuck(link)
  }

  /** One delivery keeps the invariant, with one more request answered, or is the last one:
      it ends the fetch if the replier's leaves are what they promise, and otherwise leaves
      it stuck. */
  lemma OneDelivery(dm: Dims, base: State, remote: Source, seqno: int, link: Link, order: seq<Req>)
    returns (order': seq<Req>)
    requires Fetching(dm, base, remote, seqno, link, order)
    ensures CanDeliver(dm, link)
    ensures Ends(dm, base, remote, Deliver(dm, remote, seqno, link))
         || GoesOn(dm, base, remote, seqno, Deliver(dm, remote, seqno, link), order', |order| - |link.wire| + 1)
  {
    NextOnWire(dm, base, remote, seqno, link, order);
    var k := |order| - |link.wire|;
    NodeInRange(dm, base.leaves, remote.leaves, order, k, k);
    if dm.IsLeafLevel(order[k].level) {
      order' := order;
      BlockAnswered(dm, base, remote, seqno, link, order);
    } else {
      order' := NextOrder(dm, base, remote, link, order);
      NodeAnswered(dm, base, remote, seqno, link, order);
    }
  }

  ghost predicate GoesOn(dm: Dims, base: State, remote: Source, seqno: int, link: Link, order: seq<Req>, answered: int) {
    Fetching(dm, base, remote, seqno, link, order) && |order| - |link.wire| == answered
  }

  lemma BlockAnswered(dm: Dims, base: State, remote: Source, seqno: int, link: Link, order: seq<Req>)
    requires Fetching(dm, base, remote, seqno, link, order) && CanDeliver(dm, link)
    requires link.wire[0] == order[|order| - |link.wire|] && dm.IsLeafLevel(link.wire[0].level)
    ensures Ends(dm, base, remote, Deliver(dm, remote, seqno, link))
         || GoesOn(dm, base, remote, seqno, Deliver(dm, remote, seqno, link), order, |order| - |link.wire| + 1)
  {
    LeafIsBlock(dm, base, remote, order, |order| - |link.wire|);
    if |link.wire| == 1 {
      LastBlockAnswered(dm, base, remote, seqno, link, order);
    } else {
      OtherBlockAnswered(dm, base, remote, seqno, link, order);
    }
  }

  lemma LastBlockAnswered(dm: Dims, base: State, remote: Source, seqno: int, link: Link, order: seq<Req>)
    requires Fetching(dm, base, remote, seqno, link, order) && CanDeliver(dm, link) && |link.wire| == 1
    requires link.wire[0] == order[|order| - 1] && dm.IsLeafLevel(link.wire[0].level)
    requires link.wire[0].index < dm.numBlocks
    ensures Ends(dm, base, remote, Deliver(dm, remote, seqno, link))
  {
    DataDelivered(dm, base, remote, seqno, link, order);
    DataEnds(dm, base, remote, seqno, link, order);
  }

  lemma OtherBlockAnswered(dm: Dims, base: State, remote: Source, seqno: int, link: Link, order: seq<Req>)
    requires Fetching(dm, base, remote, seqno, link, order) && CanDeliver(dm, link) && |link.wire| > 1
    requires link.wire[0] == order[|order| - |link.wire|] && dm.IsLeafLevel(link.wire[0].level)
    requires link.wire[0].index < dm.numBlocks
    ensures GoesOn(dm, base, remote, seqno, Deliver(dm, remote, seqno, link), order, |order| - |link.wire| + 1)
  {
    var k := |order| - |link.wire|;
    DataDelivered(dm, base, remote, seqno, link, order);
    OnlyBlocksLeft(dm, base.leaves, remote.leaves, order, k);
    DataContinues(dm, base, remote, seqno, link, order, k);
  }

  lemma NodeAnswered(dm: Dims, base: State, remote: Source, seqno: int, link: Link, order: seq<Req>)
    requires Fetching(dm, base, remote, seqno, link, order) && CanDeliver(dm, link)
    requires link.wire[0] == order[|order| - |link.wire|] && !dm.IsLeafLevel(link.wire[0].level)
    ensures Ends(dm, base, remote, Deliver(dm, remote, seqno, link))
         || GoesOn(dm, base, remote, seqno, Deliver(dm, remote, seqno, link),
                   NextOrder(dm, base, remote, link, order), |order| - |link.wire| + 1)
  {
    var k := |order| - |link.wire|;
    if NewNodes(dm, base.leaves, remote.leaves, order[k], dm.p) == [] {
      MetaEnds(dm, base, remote, seqno, link, order);
      NothingWritten(dm, base, remote, seqno, link, order);
      NodeInRange(dm, base.leaves, remote.leaves, order, k, k);
      EqualIsFetched(dm, base, remote, link.local.(queue := Queue(order, |order|)));
    } else {
      NodeSends(dm, base, remote, seqno, link, order);
    }
  }

  lemma EqualIsFetched(dm: Dims, base: State, remote: Source, s: State)
    requires Setting(dm, base, remote) && base.leaves == remote.leaves && dm.levels > 1
    requires s.leaves == base.leaves && s.blocks == base.blocks
    ensures Hashed(dm, base, remote) && Fetched(dm, base, remote, FetchComplete(s))
  {
  }

  lemma NodeSends(dm: Dims, base: State, remote: Source, seqno: int, link: Link, order: seq<Req>)
    requires Fetching(dm, base, remote, seqno, link, order) && CanDeliver(dm, link)
    requires link.wire[0] == order[|order| - |link.wire|] && !dm.IsLeafLevel(link.wire[0].level)
    requires NewNodes(dm, base.leaves, remote.leaves, order[|order| - |link.wire|], dm.p) != []
    ensures GoesOn(dm, base, remote, seqno, Deliver(dm, remote, seqno, link),
                   NextOrder(dm, base, remote, link, order), |order| - |link.wire| + 1)
  {
    var k := |order| - |link.wire|;
    MetaSends(dm, base, remote, seqno, link, order);
    NothingWritten(dm, base, remote, seqno, link, order);
    NodeInRange(dm, base.leaves, remote.leaves, order, k, k);
    NothingRefused(dm, remote, order, k);
    GoOn(dm, base, remote, seqno, link, order, k);
  }

  lemma NothingRefused(dm: Dims, remote: Source, order: seq<Req>, k: nat)
    requires k < |order| && Levelled(order, k) && order[k].level + 1 < dm.levels
    ensures Refused(dm, remote, order, k) == 0
  {
    forall i | 0 <= i < k
      ensures !dm.IsLeafLevel(order[i].level)
    {
      assert order[i].level <= order[k].level;
    }
    NoneRefused(dm, remote, order, k);
  }

  /** Successive states of a link, one delivery after the other. */
  ghost predicate IsRun(dm: Dims, remote: Source, seqno: int, run: seq<Link>)
    requires Fits(dm, remote.leaves, remote.blocks)
  {
    && |run| >= 1
    && forall t | 0 <= t < |run| - 1 :: Delivers(dm, remote, seqno, run[t], run[t + 1])
  }

  ghost predicate Delivers(dm: Dims, remote: Source, seqno: int, link: Link, link': Link)
    requires Fits(dm, remote.leaves, remote.blocks)
  {
    CanDeliver(dm, link) && link' == Deliver(dm, remote, seqno, link)
  }

  function Nodes(queue: seq<Entry>): (order: seq<Req>)
    ensures |order| == |queue|
  {
    seq(|queue|, i requires 0 <= i < |queue| => queue[i].node)
  }

  /** A fetch in progress: the pending counter is the number of outstanding block requests
      and of refused blocks, something is under way, the queue, which keeps every request
      ever made, is within its capacity, and once the root has been answered something is
      missing. */
  ghost predicate InProgress(dm: Dims, base: State, remote: Source, link: Link, answered: nat)
    requires Setting(dm, base, remote)
  {
    && link.local.inFetch && AllDone(link.local.queue)
    && 1 <= |link.wire| <= |link.local.queue|
    && link.local.pending == LeafCount(dm, link.wire)
                             + Refused(dm, remote, Nodes(link.local.queue), |link.local.queue| - |link.wire|)
    && (Hashed(dm, base, remote) ==> link.local.pending == LeafCount(dm, link.wire))
    && |link.local.queue| <= 2 * dm.numBlocks - 1 < dm.QueueCap()
    && (answered >= 1 ==> link.local.leaves != remote.leaves)
  }

  /** Every state of a run but the last one, `answered` replies having come in before. */
  ghost predicate AllInProgress(dm: Dims, base: State, remote: Source, run: seq<Link>, answered: nat)
    requires Setting(dm, base, remote)
  {
    forall t: nat | t < |run| - 1 :: InProgress(dm, base, remote, run[t], answered + t)
  }

  lemma ProgressGrows(dm: Dims, base: State, remote: Source, link: Link, run: seq<Link>, answered: nat)
    requires Setting(dm, base, remote) && |run| >= 1
    requires InProgress(dm, base, remote, link, answered) && AllInProgress(dm, base, remote, run, answered + 1)
    ensures AllInProgress(dm, base, remote, [link] + run, answered)
  {
    var all := [link] + run;
    forall t: nat | t < |all| - 1
      ensures InProgress(dm, base, remote, all[t], answered + t)
    {
      if t > 0 {
        assert InProgress(dm, base, remote, run[t - 1], answered + 1 + (t - 1));
      }
    }
  }

  lemma NoneRefusedYet(dm: Dims, base: State, remote: Source, order: seq<Req>, k: nat)
    requires Setting(dm, base, remote) && Hashed(dm, base, remote)
    requires Order(dm, base.leaves, remote.leaves, order, k)
    ensures Refused(dm, remote, order, k) == 0
  {
    forall i | 0 <= i < k && dm.IsLeafLevel(order[i].level)
      ensures IsTrue(remote, order[i].index)
    {
      NodeInRange(dm, base.leaves, remote.leaves, order, k, i);
      if i > 0 {
        assert Wanted(dm, base.leaves, remote.leaves, order, k, i);
        var x := BlockBelow(dm, base.leaves, remote.leaves, order[i]);
      }
    }
    NoneRefused(dm, remote, order, k);
  }

  lemma FetchingIsInProgress(dm: Dims, base: State, remote: Source, seqno: int, link: Link, order: seq<Req>)
    requires Fetching(dm, base, remote, seqno, link, order)
    ensures InProgress(dm, base, remote, link, |order| - |link.wire|)
    ensures |order| <= 2 * dm.numBlocks - 1
  {
    OrderIsShort(dm, base.leaves, remote.leaves, order, |order| - |link.wire|, 0);
    PendingIsExact(dm, base, remote, seqno, link, order);
    if |order| - |link.wire| >= 1 {
      SomethingIsMissing(dm, base, remote, seqno, link, order);
    }
  }

  lemma PendingIsExact(dm: Dims, base: State, remote: Source, seqno: int, link: Link, order: seq<Req>)
    requires Fetching(dm, base, remote, seqno, link, order)
    ensures 1 <= |link.wire| <= |link.local.queue| == |order|
    ensures link.local.pending == LeafCount(dm, link.wire)
                                  + Refused(dm, remote, Nodes(link.local.queue), |link.local.queue| - |link.wire|)
    ensures Hashed(dm, base, remote) ==> link.local.pending == LeafCount(dm, link.wire)
  {
    NodesOfQueue(order, |order|);
    if Hashed(dm, base, remote) {
      NoneRefusedYet(dm, base, remote, order, |order| - |link.wire|);
    }
  }

  lemma NodesOfQueue(order: seq<Req>, m: nat)
    ensures Nodes(Queue(order, m)) == order
  {
  }

  lemma SomethingIsMissing(dm: Dims, base: State, remote: Source, seqno: int, link: Link, order: seq<Req>)
    requires Fetching(dm, base, remote, seqno, link, order) && |link.wire| < |order|
    ensures link.local.leaves != remote.leaves
  {
    var k := |order| - |link.wire|;
    assert Wanted(dm, base.leaves, remote.leaves, order, k, k);
    var x := BlockBelow(dm, base.leaves, remote.leaves, order[k]);
    if dm.IsLeafLevel(order[k].level) {
      NotYetAnswered(dm, order, k);
      assert x == order[k].index;
    } else {
      NothingWritten(dm, base, remote, seqno, link, order);
    }
    assert link.local.leaves[x] == base.leaves[x];
  }

  lemma RunGrows(dm: Dims, remote: Source, seqno: int, link: Link, run: seq<Link>)
    requires Fits(dm, remote.leaves, remote.blocks) && IsRun(dm, remote, seqno, run)
    requires Delivers(dm, remote, seqno, link, run[0])
    ensures IsRun(dm, remote, seqno, [link] + run)
  {
    var all := [link] + run;
    forall t | 0 <= t < |all| - 1
      ensures Delivers(dm, remote, seqno, all[t], all[t + 1])
    {
      if t > 0 {
        assert Delivers(dm, remote, seqno, run[t - 1], run[t]);
      }
    }
  }

  /** A run from this state, `answered` replies having come in before, to its end. */
  ghost predicate Completes(dm: Dims, base: State, remote: Source, seqno: int, link: Link, run: seq<Link>, answered: nat)
    requires Setting(dm, base, remote)
  {
    && IsRun(dm, remote, seqno, run) && run[0] == link
    && 2 <= |run| <= 2 * dm.numBlocks - answered
    && Ends(dm, base, remote, run[|run| - 1])
    && AllInProgress(dm, base, remote, run, answered)
  }

  lemma LastStep(dm: Dims, base: State, remote: Source, seqno: int, link: Link, link': Link, answered: nat)
    requires Setting(dm, base, remote) && answered + 2 <= 2 * dm.numBlocks
    requires Delivers(dm, remote, seqno, link, link') && InProgress(dm, base, remote, link, answered)
    requires Ends(dm, base, remote, link')
    ensures Completes(dm, base, remote, seqno, link, [link, link'], answered)
  {
  }

  lemma FirstStep(dm: Dims, base: State, remote: Source, seqno: int, link: Link, link': Link, rest: seq<Link>, answered: nat)
    requires Setting(dm, base, remote) && Delivers(dm, remote, seqno, link, link')
    requires InProgress(dm, base, remote, link, answered)
    requires Completes(dm, base, remote, seqno, link', rest, answered + 1)
    ensures Completes(dm, base, remote, seqno, link, [link] + rest, answered)
  {
    RunGrows(dm, remote, seqno, link, rest);
    ProgressGrows(dm, base, remote, link, rest, answered);
    assert ([link] + rest)[|rest|] == rest[|rest| - 1];
  }

  lemma {:induction false} RunEnds(dm: Dims, base: State, remote: Source, seqno: int, link: Link, order: seq<Req>, answered: nat)
    returns (run: seq<Link>)
    requires Setting(dm, base, remote) && GoesOn(dm, base, remote, seqno, link, order, answered)
    ensures Completes(dm, base, remote, seqno, link, run, answered)
    decreases 2 * dm.numBlocks - answered
  {
    FetchingIsInProgress(dm, base, remote, seqno, link, order);
    var order' := OneDelivery(dm, base, remote, seqno, link, order);
    var link' := Deliver(dm, remote, seqno, link);
    if Ends(dm, base, remote, link') {
      LastStep(dm, base, remote, seqno, link, link', answered);
      run := [link, link'];
    } else {
      var rest := RunEnds(dm, base, remote, seqno, link', order', answered + 1);
      FirstStep(dm, base, remote, seqno, link, link', rest, answered);
      run := [link] + rest;
    }
  }

  /** The fetch converges, exactly when the replier's differing leaves are the hashes of their
      blocks: after at most 2 * numBlocks - 1 replies nothing is under way, and either it is
      over, with the replier's leaves and root and every block that differed, or some leaf is
      not the hash of its block and the fetch waits for it for ever. */
  lemma FetchConverges(dm: Dims, base: State, remote: Source, seqno: int) returns (run: seq<Link>)
    requires Setting(dm, base, remote)
    ensures IsRun(dm, remote, seqno, run) && run[0] == Start(dm, base, seqno)
    ensures 1 <= |run| - 1 <= 2 * dm.numBlocks - 1
    ensures var end := run[|run| - 1];
            && end.wire == [] && Ends(dm, base, remote, end)
            && (Hashed(dm, base, remote) <==> !end.local.inFetch)
            && (Hashed(dm, base, remote) ==>
                  && Fetched(dm, base, remote, end.local)
                  && DigestAt(dm, end.local.leaves, Req(0, 0)) == DigestAt(dm, remote.leaves, Req(0, 0)))
            && (!Hashed(dm, base, remote) ==> Stuck(end))
    ensures AllInProgress(dm, base, remote, run, 0)
  {
    StartIsFetching(dm, base, remote, seqno);
    run := RunEnds(dm, base, remote, seqno, Start(dm, base, seqno), [Req(0, 0)], 0);
  }

  // ------------------------------------------------------------------- blocks

  /** A fetch that starts from a memory in step with its tree gets every block right that is
      not marked as modified, wherever the replier's leaf is the hash of its block. */
  lemma FetchedBlocksAgree(dm: Dims, base: State, mem: M.Store, remote: Source, s: State, x: nat)
    requires Setting(dm, base, remote) && Fetched(dm, base, remote, s)
    requires base.leaves == mem.leaves && base.blocks == mem.blocks && M.InStep(mem)
    requires x < dm.numBlocks && x !in mem.marked && IsTrue(remote, x)
    ensures s.blocks[x] == remote.blocks[x]
  {
    assert M.InStepAt(mem, x);
  }

  /** After a run of writes, checkpoints, stable points and received blocks in which every
      write was safe, and a checkpoint, that holds for all blocks. */
  lemma SafeWritesFetchRight(dm: Dims, base: State, run: seq<M.Store>, ops: seq<M.Op>, remote: Source, s: State, x: nat)
    requires M.IsRun(run, ops) && M.InStep(run[0]) && M.SafeUpTo(run, ops, |ops|)
    requires M.Valid(run[|ops|]) && base.leaves == M.Checkpoint(run[|ops|]).leaves && base.blocks == run[|ops|].blocks
    requires Setting(dm, base, remote) && Fetched(dm, base, remote, s)
    requires x < dm.numBlocks && IsTrue(remote, x)
    ensures s.blocks[x] == remote.blocks[x]
  {
    M.StaysInStep(run, ops, |ops|);
    M.CheckpointKeepsStep(run[|ops|]);
    FetchedBlocksAgree(dm, base, M.Checkpoint(run[|ops|]), remote, s, x);
  }

  /** A block whose leaf is the hash of something else is not fetched from a replier that
      holds that: the fetch ends with the stale block in memory. */
  lemma StaleBlockSurvives(dm: Dims, base: State, x: nat, block: Bytes, seqno: int) returns (remote: Source, run: seq<Link>)
    requires dm.Valid() && dm.p >= 3 && Fits(dm, base.leaves, base.blocks) && dm.levels > 1
    requires x < dm.numBlocks && base.leaves[x] == OfBlock(block) && base.blocks[x] != block
    ensures Setting(dm, base, remote) && IsTrue(remote, x) && remote.blocks[x] == block
    ensures IsRun(dm, remote, seqno, run) && run[0] == Start(dm, base, seqno)
    ensures Fetched(dm, base, remote, run[|run| - 1].local)
    ensures run[|run| - 1].local.blocks[x] == base.blocks[x]
  {
    remote := Source(base.leaves, base.blocks[x := block]);
    run := FetchConverges(dm, base, remote, seqno);
  }

  /** Some fetch from this replier ends, and with this state. */
  ghost predicate EndsWith(dm: Dims, base: State, remote: Source, s: State)
    requires Setting(dm, base, remote)
  {
    exists seqno: int, run: seq<Link> :: IsFetch(dm, base, remote, seqno, run) && run[|run| - 1].local == s
  }

  /** A whole fetch from its start to its end. */
  ghost predicate IsFetch(dm: Dims, base: State, remote: Source, seqno: int, run: seq<Link>)
    requires Setting(dm, base, remote)
  {
    IsRun(dm, remote, seqno, run) && run[0] == Start(dm, base, seqno) && Fetched(dm, base, remote, run[|run| - 1].local)
  }

  /** Whichever replier holds a true block `x`: every fetch from it that ends leaves its block. */
  ghost predicate IsRepaired(dm: Dims, base: State, x: nat) {
    forall remote, s | Setting(dm, base, remote) && x < dm.numBlocks && IsTrue(remote, x) && EndsWith(dm, base, remote, s) ::
      |s.blocks| == dm.numBlocks && s.blocks[x] == remote.blocks[x]
  }

  /** The leaf is the hash of something other than the block. */
  predicate IsStale(base: State, x: nat)
    requires x < |base.leaves| == |base.blocks|
  {
    base.leaves[x].OfBlock? && base.leaves[x] != OfBlock(base.blocks[x])
  }

  /** A fetch puts a block right whatever the replier holds exactly when its local leaf is not
      stale, or it is the only block. */
  lemma RepairedUnlessStale(dm: Dims, base: State, x: nat)
    requires dm.Valid() && dm.p >= 3 && Fits(dm, base.leaves, base.blocks) && x < dm.numBlocks
    ensures IsRepaired(dm, base, x) <==> dm.levels == 1 || !IsStale(base, x)
  {
    if dm.levels > 1 && IsStale(base, x) {
      var remote, run := StaleBlockSurvives(dm, base, x, base.leaves[x].block, 0);
      assert IsFetch(dm, base, remote, 0, run);
      assert EndsWith(dm, base, remote, run[|run| - 1].local);
    }
    if dm.levels == 1 || !IsStale(base, x) {
      forall remote, s | Setting(dm, base, remote) && IsTrue(remote, x) && EndsWith(dm, base, remote, s)
        ensures |s.blocks| == dm.numBlocks && s.blocks[x] == remote.blocks[x]
      {
        var seqno: int, run: seq<Link> :| IsFetch(dm, base, remote, seqno, run) && run[|run| - 1].local == s;
        assert Fetched(dm, base, remote, s);
      }
    }
  }

  /** That is what two intervals of writes under one stable point lead to: every block was
      written and block `x` once more, a checkpoint was taken, and still the state of `x`
      before that last write is not fetched. */
  lemma TwoIntervalsMisleadFetch(dm: Dims, s: M.Store, data: seq<Bytes>, x: nat, newer: Bytes, seqno: int)
    returns (base: State, remote: Source, run: seq<Link>)
    requires dm.Valid() && dm.p >= 3 && dm.levels > 1 && |s.blocks| == dm.numBlocks
    requires M.Valid(s) && s.marked == {} && M.Saved(s) == 0
    requires |data| == |s.blocks| && x < |data| && newer != data[x]
    ensures var mem := M.Checkpoint(M.Write(M.Checkpoint(M.WriteFirst(s, data, |data|)), x, newer));
            base.leaves == mem.leaves && base.blocks == mem.blocks
    ensures Setting(dm, base, remote) && IsTrue(remote, x) && remote.blocks[x] == data[x]
    ensures IsRun(dm, remote, seqno, run) && run[0] == Start(dm, base, seqno)
    ensures Fetched(dm, base, remote, run[|run| - 1].local)
    ensures run[|run| - 1].local.blocks[x] == newer != remote.blocks[x]
  {
    M.TwoIntervalsLoseStep(s, data, x, newer);
    var mem := M.Checkpoint(M.Write(M.Checkpoint(M.WriteFirst(s, data, |data|)), x, newer));
    base := State(mem.leaves, mem.blocks, false, 0, [], 0, {});
    remote, run := StaleBlockSurvives(dm, base, x, data[x], seqno);
  }
}
