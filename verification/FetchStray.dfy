/** Replies that belong to no request of the fetch: which ones change anything, and that a
    fetch comes to the same end among all others. */
module FetchStrays {
  import opened Types
  import opened Arithmetic
  import opened PartitionSpec
  import opened FetchSpec
  import opened FetchProofs
  import opened FetchOrder
  import opened FetchRuns

  // ------------------------------------------------------------ single replies

  /** A block is taken when it belongs to the fetch under way, is one of the state, has not
      been received and is what its digest says. */
  predicate TakesBlock(dm: Dims, s: State, seqno: int, index: int, digest: Digest, block: Bytes) {
    && s.inFetch && seqno == s.fetchSeqno
    && 0 <= index < dm.numBlocks && index !in s.received
    && digest == OfBlock(block)
  }

  predicate NoneUnsent(queue: seq<Entry>) {
    forall i | 0 <= i < |queue| :: queue[i].done
  }

  /** A Data reply changes something exactly when its block is taken: then the block and its
      leaf, and the fetch is over when this was the last one pending and nothing is unsent. */
  lemma DataChanges(dm: Dims, s: State, seqno: int, index: int, digest: Digest, block: Bytes)
    requires Fits(dm, s.leaves, s.blocks) && s.pending >= 0
    ensures var e := HandleData(dm, s, seqno, index, digest, block);
            if TakesBlock(dm, s, seqno, index, digest, block) then
              && e.blocks == s.blocks[index := block] && e.leaves == s.leaves[index := digest]
              && e.fetchSeqno == s.fetchSeqno
              && if s.pending <= 1 && NoneUnsent(s.queue)
                 then !e.inFetch && e.queue == [] && e.pending == 0 && e.received == {}
                 else e.inFetch && e.queue == s.queue && e.received == s.received + {index}
                      && e.pending == (if s.pending > 0 then s.pending - 1 else 0)
            else e == s
  {
  }

  /** A Meta_data is compared when it belongs to the fetch under way and is for an inner node
      that exists, with no more parts than a node has children. */
  predicate IsCompared(dm: Dims, s: State, seqno: int, level: int, index: int, parts: seq<Digest>) {
    && s.inFetch && seqno == s.fetchSeqno
    && 0 <= level < dm.levels - 1 && 0 <= index < Pow(dm.p, level) && |parts| <= dm.p
  }

  ghost predicate IsChild(dm: Dims, s: State, node: Req, parts: seq<Digest>, e: Entry) {
    && !e.done && e.node.level == node.level + 1 < dm.levels
    && node.index * dm.p <= e.node.index < node.index * dm.p + |parts|
    && e.node.index < Pow(dm.p, node.level + 1)
    && Node(s.leaves, dm.p, dm.levels - 1 - e.node.level, e.node.index) != parts[e.node.index - node.index * dm.p]
  }

  /** Comparing queues differing children only, and no other part of the state changes. */
  lemma MetaChanges(dm: Dims, s: State, seqno: int, level: int, index: int, parts: seq<Digest>)
    requires dm.p >= 1
    ensures var e := HandleMeta(dm, s, seqno, level, index, parts);
            && e == s.(queue := e.queue)
            && |s.queue| <= |e.queue| && e.queue[..|s.queue|] == s.queue
            && |e.queue| <= (if |s.queue| < 2 * dm.maxBlocks then 2 * dm.maxBlocks else |s.queue|)
            && (!IsCompared(dm, s, seqno, level, index, parts) ==> e == s)
            && (IsCompared(dm, s, seqno, level, index, parts) ==>
                  forall i | |s.queue| <= i < |e.queue| :: IsChild(dm, s, Req(level, index), parts, e.queue[i]))
  {
    if IsCompared(dm, s, seqno, level, index, parts) {
      QueuesChildren(dm, s, s.queue, Req(level, index), parts, |parts|);
    }
  }

  lemma {:induction false} QueuesChildren(dm: Dims, s: State, queue: seq<Entry>, node: Req, parts: seq<Digest>, k: nat)
    requires dm.p >= 1 && node.level + 1 < dm.levels && k <= |parts|
    ensures var q := Enqueue(dm, s.leaves, queue, node, parts, k);
            && |queue| <= |q| && q[..|queue|] == queue
            && |q| <= (if |queue| < 2 * dm.maxBlocks then 2 * dm.maxBlocks else |queue|)
            && (forall i | |queue| <= i < |q| :: IsChild(dm, s, node, parts, q[i]))
  {
    if k > 0 {
      QueuesChildren(dm, s, queue, node, parts, k - 1);
    }
  }

  /** Sending the next request marks the first one not yet sent, and counts a block as pending
      only if it has not been received already. */
  lemma NextIsSent(dm: Dims, s: State, i: nat)
    requires i < |s.queue| && !s.queue[i].done && forall j | 0 <= j < i :: s.queue[j].done
    ensures FirstUndone(s.queue) == i
    ensures var node, e := s.queue[i].node, NextFetchReq(dm, s);
            && e == s.(queue := s.queue[i := Entry(node, true)], pending := e.pending)
            && e.pending == s.pending + if node.level == dm.levels - 1 && node.index !in s.received then 1 else 0
  {
  }

  // ---------------------------------------------------------------- stray ones

  function SeqnoOf(reply: Reply): int {
    match reply
    case Meta(seqno, _, _, _) => seqno
    case Data(seqno, _, _, _) => seqno
  }

  /** A Meta_data for the root that arrives when no block is pending and everything queued
      was sent. */
  predicate IsPremature(dm: Dims, s: State, reply: Reply) {
    reply.Meta? && reply.level == 0 && |reply.parts| <= dm.p && s.inFetch && s.pending == 0 && NoneUnsent(s.queue)
  }

  lemma NothingToSend(dm: Dims, s: State)
    requires NoneUnsent(s.queue)
    ensures Dispatch(dm, s) == Sending(s, [])
  {
    assert FirstUndone(s.queue) == |s.queue|;
  }

  /** A reply to another fetch changes something, with everything queued sent, exactly when
      it is a premature one for the root: then the fetch is over as it is. */
  lemma StrayChangesExactly(dm: Dims, s: State, reply: Reply)
    requires Fits(dm, s.leaves, s.blocks) && SeqnoOf(reply) != s.fetchSeqno && NoneUnsent(s.queue)
    ensures OnReply(dm, s, reply) ==
            if IsPremature(dm, s, reply) then Sending(s.(inFetch := false, queue := [], pending := 0, received := {}), [])
            else Sending(s, [])
  {
    NothingToSend(dm, s);
  }

  /** So a late answer for the root of an earlier fetch ends a fetch of a tree with several
      levels before anything has been compared. */
  lemma LateRootEndsFetch(dm: Dims, base: State, seqno: int, late: int, index: int, parts: seq<Digest>)
    requires dm.Valid() && dm.levels > 1 && Fits(dm, base.leaves, base.blocks)
    requires late != seqno && |parts| <= dm.p
    ensures Start(dm, base, seqno) == Link(base.(inFetch := true, fetchSeqno := seqno, pending := 0, received := {},
                                                 queue := [Entry(Req(0, 0), true)]), [Req(0, 0)])
    ensures var e := OnReply(dm, Start(dm, base, seqno).local, Meta(late, 0, index, parts)).state;
            !e.inFetch && e.leaves == base.leaves && e.blocks == base.blocks
  {
    var root := [Req(0, 0)];
    var s := StartFetch(dm, base, seqno);
    assert s.queue == Queue(root, 0);
    DispatchSendsAll(dm, s, root, 0);
    assert root[0..] == root && Queue(root, 1) == [Entry(Req(0, 0), true)];
    LeafCountOne(dm, Req(0, 0));
    StrayChangesExactly(dm, Start(dm, base, seqno).local, Meta(late, 0, index, parts));
  }

  // ------------------------------------------------------- fetches among strays

  datatype Arrival = InOrder | Stray(reply: Reply)

  ghost predicate Arrives(dm: Dims, remote: Source, seqno: int, link: Link, arrival: Arrival, link': Link)
    requires Fits(dm, remote.leaves, remote.blocks)
  {
    match arrival
    case InOrder => Delivers(dm, remote, seqno, link, link')
    case Stray(reply) =>
      && Fits(dm, link.local.leaves, link.local.blocks) && SeqnoOf(reply) != seqno
      && !IsPremature(dm, link.local, reply)
      && var sending := OnReply(dm, link.local, reply);
         link' == Link(sending.state, link.wire + sending.sent)
  }

  /** A fetch among replies to others, of which none is a premature one for the root. */
  ghost predicate IsMixedRun(dm: Dims, base: State, remote: Source, seqno: int, run: seq<Link>, arrivals: seq<Arrival>)
    requires Fits(dm, remote.leaves, remote.blocks)
  {
    && |run| == |arrivals| + 1
    && run[0] == Start(dm, base, seqno)
    && forall k {:trigger arrivals[k]} | 0 <= k < |arrivals| :: Arrives(dm, remote, seqno, run[k], arrivals[k], run[k + 1])
  }

  /** How many of the first `k` arrivals are answers in order. */
  function Answers(arrivals: seq<Arrival>, k: nat): nat
    requires k <= |arrivals|
  {
    if k == 0 then 0 else Answers(arrivals, k - 1) + if arrivals[k - 1].InOrder? then 1 else 0
  }

  /** Nothing unsent, and of this fetch or over. */
  ghost predicate IsSettled(dm: Dims, link: Link, seqno: int) {
    && Fits(dm, link.local.leaves, link.local.blocks)
    && NoneUnsent(link.local.queue) && link.local.fetchSeqno == seqno
  }

  lemma SettledAt(dm: Dims, base: State, remote: Source, seqno: int, plain: seq<Link>, t: nat)
    requires Setting(dm, base, remote) && IsWhole(dm, base, remote, seqno, plain) && t < |plain|
    ensures IsSettled(dm, plain[t], seqno)
  {
    SeqnoStays(dm, base, remote, seqno, plain, t);
    if t < |plain| - 1 {
      assert InProgress(dm, base, remote, plain[t], 0 + t);
    }
  }

  /** Answers change neither what is being fetched nor how much state there is, and nothing
      is unsent when the fetch is over. */
  lemma {:induction false} SeqnoStays(dm: Dims, base: State, remote: Source, seqno: int, plain: seq<Link>, t: nat)
    requires Setting(dm, base, remote) && IsRun(dm, remote, seqno, plain) && plain[0] == Start(dm, base, seqno)
    requires t < |plain|
    ensures plain[t].local.fetchSeqno == seqno && Fits(dm, plain[t].local.leaves, plain[t].local.blocks)
    ensures !plain[t].local.inFetch ==> plain[t].local.queue == []
  {
    if t == 0 {
      StartIsFetching(dm, base, remote, seqno);
    } else {
      SeqnoStays(dm, base, remote, seqno, plain, t - 1);
      assert Delivers(dm, remote, seqno, plain[t - 1], plain[t]);
      AnswerStays(dm, plain[t - 1].local, Answer(dm, remote, seqno, plain[t - 1].wire[0]));
    }
  }

  lemma {:induction false} DispatchStays(dm: Dims, s: State)
    ensures var e := Dispatch(dm, s).state;
            e.fetchSeqno == s.fetchSeqno && e.inFetch == s.inFetch && e.leaves == s.leaves && e.blocks == s.blocks
    decreases |s.queue| - FirstUndone(s.queue)
  {
    var i := FirstUndone(s.queue);
    if i < |s.queue| {
      var s1 := NextFetchReq(dm, s);
      assert FirstUndone(s1.queue) > i by {
        assert s1.queue[..i + 1] == s.queue[..i] + [s1.queue[i]];
      }
      DispatchStays(dm, s1);
    }
  }

  lemma AnswerStays(dm: Dims, s: State, reply: Reply)
    requires Fits(dm, s.leaves, s.blocks) && (!s.inFetch ==> s.queue == [])
    ensures var e := OnReply(dm, s, reply).state;
            e.fetchSeqno == s.fetchSeqno && Fits(dm, e.leaves, e.blocks) && (!e.inFetch ==> e.queue == [])
  {
    match reply {
      case Meta(seqno, level, index, parts) => DispatchStays(dm, HandleMeta(dm, s, seqno, level, index, parts));
      case Data(_, _, _, _) =>
    }
  }

  /** One arrival takes the run from the state `t` of the plain fetch to its next one, or leaves
      it there when the arrival is a stray. */
  ghost predicate Follows(plain: seq<Link>, t: nat, link: Link, arrival: Arrival, link': Link) {
    t < |plain| && link == plain[t] ==>
      var next := t + if arrival.InOrder? then 1 else 0;
      next < |plain| && link' == plain[next]
  }

  lemma ArrivalFollows(dm: Dims, base: State, remote: Source, seqno: int, plain: seq<Link>, t: nat,
                       link: Link, arrival: Arrival, link': Link)
    requires Setting(dm, base, remote) && IsWhole(dm, base, remote, seqno, plain)
    requires Arrives(dm, remote, seqno, link, arrival, link')
    ensures Follows(plain, t, link, arrival, link')
  {
    if t < |plain| && link == plain[t] {
      match arrival {
        case Stray(reply) => StrayIsIgnored(dm, base, remote, seqno, plain, t, reply, link');
        case InOrder => AnswerIsNext(dm, base, remote, seqno, plain, t, link');
      }
    }
  }

  ghost predicate FollowsAt(plain: seq<Link>, t: nat, run: seq<Link>, arrivals: seq<Arrival>, k: nat)
    requires |run| == |arrivals| + 1 && k < |arrivals|
  {
    Follows(plain, t, run[k], arrivals[k], run[k + 1])
  }

  lemma {:induction false} FollowsUntil(plain: seq<Link>, run: seq<Link>, arrivals: seq<Arrival>, k: nat)
    requires |run| == |arrivals| + 1 && k <= |arrivals|
    requires forall t: nat, j: nat | j < |arrivals| :: FollowsAt(plain, t, run, arrivals, j)
    requires |plain| > 0 && run[0] == plain[0]
    ensures Answers(arrivals, k) < |plain| && run[k] == plain[Answers(arrivals, k)]
  {
    if k > 0 {
      FollowsUntil(plain, run, arrivals, k - 1);
      assert FollowsAt(plain, Answers(arrivals, k - 1), run, arrivals, k - 1);
    }
  }

  /** Among replies to other fetches, none of them a premature one for the root, a fetch goes
      through the very states that it goes through without them. */
  lemma StraysAreIgnored(dm: Dims, base: State, remote: Source, seqno: int, plain: seq<Link>,
                         run: seq<Link>, arrivals: seq<Arrival>, k: nat)
    requires Setting(dm, base, remote) && IsWhole(dm, base, remote, seqno, plain)
    requires IsMixedRun(dm, base, remote, seqno, run, arrivals) && k <= |arrivals|
    ensures Answers(arrivals, k) < |plain| && run[k] == plain[Answers(arrivals, k)]
  {
    forall t: nat, j: nat | j < |arrivals| ensures FollowsAt(plain, t, run, arrivals, j) {
      ArrivalAt(dm, base, remote, seqno, run, arrivals, j);
      ArrivalFollows(dm, base, remote, seqno, plain, t, run[j], arrivals[j], run[j + 1]);
    }
    FollowsUntil(plain, run, arrivals, k);
  }

  /** A whole fetch without others. */
  ghost predicate IsWhole(dm: Dims, base: State, remote: Source, seqno: int, plain: seq<Link>)
    requires Setting(dm, base, remote)
  {
    && IsRun(dm, remote, seqno, plain) && plain[0] == Start(dm, base, seqno)
    && AllInProgress(dm, base, remote, plain, 0) && Ends(dm, base, remote, plain[|plain| - 1])
  }

  lemma ArrivalAt(dm: Dims, base: State, remote: Source, seqno: int, run: seq<Link>, arrivals: seq<Arrival>, k: nat)
    requires Fits(dm, remote.leaves, remote.blocks) && IsMixedRun(dm, base, remote, seqno, run, arrivals) && k < |arrivals|
    ensures Arrives(dm, remote, seqno, run[k], arrivals[k], run[k + 1])
  {
  }

  lemma StrayIsIgnored(dm: Dims, base: State, remote: Source, seqno: int, plain: seq<Link>, t: nat, reply: Reply, link': Link)
    requires Setting(dm, base, remote) && IsWhole(dm, base, remote, seqno, plain) && t < |plain|
    requires Arrives(dm, remote, seqno, plain[t], Stray(reply), link')
    ensures link' == plain[t]
  {
    SettledAt(dm, base, remote, seqno, plain, t);
    StrayChangesExactly(dm, plain[t].local, reply);
    assert plain[t].wire + [] == plain[t].wire;
  }

  lemma AnswerIsNext(dm: Dims, base: State, remote: Source, seqno: int, plain: seq<Link>, t: nat, link': Link)
    requires Setting(dm, base, remote) && IsWhole(dm, base, remote, seqno, plain) && t < |plain|
    requires Arrives(dm, remote, seqno, plain[t], InOrder, link')
    ensures t + 1 < |plain| && link' == plain[t + 1]
  {
    NotAtTheEnd(dm, base, remote, seqno, plain, t);
    assert Delivers(dm, remote, seqno, plain[t], plain[t + 1]);
  }

  /** There is nothing to answer at the end. */
  lemma NotAtTheEnd(dm: Dims, base: State, remote: Source, seqno: int, plain: seq<Link>, t: nat)
    requires Setting(dm, base, remote) && |plain| >= 1 && t < |plain| && CanDeliver(dm, plain[t])
    requires Ends(dm, base, remote, plain[|plain| - 1])
    ensures t < |plain| - 1
  {
  }

  /** The fetch converges among replies to other fetches as it does without them. */
  lemma ConvergesAmongStrays(dm: Dims, base: State, remote: Source, seqno: int, run: seq<Link>, arrivals: seq<Arrival>)
    requires Setting(dm, base, remote) && IsMixedRun(dm, base, remote, seqno, run, arrivals)
    requires run[|run| - 1].wire == []
    ensures Hashed(dm, base, remote) <==> !run[|run| - 1].local.inFetch
    ensures Hashed(dm, base, remote) ==> Fetched(dm, base, remote, run[|run| - 1].local)
  {
    var plain := FetchConverges(dm, base, remote, seqno);
    StraysAreIgnored(dm, base, remote, seqno, plain, run, arrivals, |arrivals|);
    var t := Answers(arrivals, |arrivals|);
    assert t < |plain| - 1 ==> InProgress(dm, base, remote, plain[t], 0 + t);
    assert t == |plain| - 1;
  }
}
