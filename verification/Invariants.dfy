/** What every correct replica keeps, and that each primitive change of its state and
    each message it sends keeps it. */
module Invariants {
  import opened Types
  import opened Quorums
  import opened ViewChangeSpec
  import opened ReplicaSpec

  // --------------------------------------------------------------- statements

  ghost predicate CommitSent(net: set<Msg>, q: int, n: int, d: Digest) {
    exists v :: CommitMsg(v, n, d, q) in net
  }

  ghost predicate PrepareSent(net: set<Msg>, q: int, n: int, d: Digest) {
    exists v :: PrepareMsg(v, n, d, q) in net
  }

  /** `m` tells the others that its sender stands by digest `d` for seqno `n`. */
  predicate Endorses(m: Msg, n: int, d: Digest) {
    match m
    case PrePrepareMsg(pp, _) => pp.seqno == n && pp.digest == d
    case PrepareMsg(_, n', d', _) => n' == n && d' == d
    case CommitMsg(_, n', d', _) => n' == n && d' == d
    case CheckpointMsg(_, _, _) => false
    case ViewChangeMsg(vc) => Lists(vc, n, d)
    case NewViewMsg(_, _) => false
  }

  /** 2f+1 replicas have sent a Commit for `d` at seqno `n`, in whatever views. */
  ghost predicate CommitQuorum(c: Config, net: set<Msg>, n: int, d: Digest) {
    exists quorum :: IsCommitQuorum(c, net, n, d, quorum)
  }

  ghost predicate IsCommitQuorum(c: Config, net: set<Msg>, n: int, d: Digest, quorum: set<int>) {
    && c.n >= 0
    && quorum <= Upto(c.n)
    && |quorum| >= c.CommitThreshold()
    && forall q | q in quorum :: CommitSent(net, q, n, d)
  }

  /** Each seqno at most once, in increasing order. */
  ghost predicate Increasing(reqs: seq<ReqInfo>) {
    forall a, b | 0 <= a < b < |reqs| :: reqs[a].seqno < reqs[b].seqno
  }

  ghost predicate SliceOk(c: Config, net: set<Msg>, n: int, sl: Slice) {
    && (sl.pp.Some? ==> sl.pp.value.seqno == n && sl.pp.value.digest == OfRequests(sl.pp.value.rset))
    && (forall q | q in sl.prepares ::
          0 <= q < c.n && sl.pp.Some? && sl.prepares[q] == sl.pp.value.digest && PrepareSent(net, q, n, sl.prepares[q]))
    && (forall q | q in sl.commits :: 0 <= q < c.n && CommitSent(net, q, n, sl.commits[q]))
  }

  ghost predicate WindowOk(c: Config, net: set<Msg>, ar: Region) {
    match ar
    case Region(_, slots) => |slots| == c.window && forall n | ar.InRange(n) :: SliceOk(c, net, n, ar.At(n))
  }

  ghost predicate HistoryAt(ar: Region, accepted: map<int, Digest>, n: int) {
    && (ar.HasPp(n) ==> n in accepted && accepted[n] == ar.At(n).pp.value.digest)
    && (n in accepted && ar.head <= n ==> ar.HasPp(n))
  }

  /** The live slots hold exactly what was first accepted for their seqnos. */
  ghost predicate HistoryOk(ar: Region, accepted: map<int, Digest>) {
    match ar
    case Region(_, _) => forall n :: HistoryAt(ar, accepted, n)
  }

  /** Everything the replica ever endorsed is what it accepted. */
  ghost predicate EndorsedOk(net: set<Msg>, id: int, accepted: map<int, Digest>) {
    forall m, n, d | m in net && m.Sender() == id && Endorses(m, n, d) ::
      n in accepted && accepted[n] == d
  }

  /** A replica's View_changes: increasing entries, and no more stable than it is. */
  ghost predicate ListsOk(net: set<Msg>, id: int, lastStable: int) {
    forall vc | ViewChangeMsg(vc) in net && vc.id == id :: Increasing(vc.reqs) && vc.ls <= lastStable
  }

  ghost predicate CkptSlotOk(c: Config, net: set<Msg>, slot: CkptSlot) {
    && slot.votes.Keys <= slot.present
    && forall q | q in slot.votes :: 0 <= q < c.n && CheckpointMsg(slot.seqno, slot.votes[q], q) in net
  }

  ghost predicate CkptsOk(c: Config, net: set<Msg>, ckpts: seq<CkptSlot>)
    requires c.interval >= 1
  {
    && |ckpts| == c.CheckpointSlots()
    && forall k | 0 <= k < |ckpts| :: CkptSlotOk(c, net, ckpts[k])
  }

  /** A recorded checkpoint is one the replica voted for. */
  ghost predicate RecordsOk(c: Config, net: set<Msg>, id: int, records: seq<Option<Record>>)
    requires c.interval >= 1
  {
    && |records| == c.CheckpointSlots()
    && forall k | 0 <= k < |records| && records[k].Some? ::
         CheckpointMsg(records[k].value.seqno, records[k].value.root, id) in net
  }

  /** A replica's checkpoint votes: one digest per seqno, none beyond its execution point. */
  ghost predicate CkptVotesOk(net: set<Msg>, id: int, lastExecuted: int) {
    && (forall n, d | CheckpointMsg(n, d, id) in net :: n <= lastExecuted)
    && (forall n, d, e | CheckpointMsg(n, d, id) in net && CheckpointMsg(n, e, id) in net :: d == e)
  }

  /** The seqno reached after the first `k` log entries. */
  function Reached(log: seq<LogEntry>, k: nat): int
    requires k <= |log|
  {
    if k == 0 then 0 else log[k - 1].seqno
  }

  ghost predicate EntryOk(c: Config, net: set<Msg>, log: seq<LogEntry>, k: nat)
    requires k < |log|
  {
    match log[k]
    case Executed(n, rset) => n == Reached(log, k) + 1 && CommitQuorum(c, net, n, OfRequests(rset))
    case Jumped(n) => n > Reached(log, k)
  }

  ghost predicate LogOk(c: Config, net: set<Msg>, log: seq<LogEntry>, lastExecuted: int) {
    && Reached(log, |log|) == lastExecuted
    && forall k | 0 <= k < |log| :: EntryOk(c, net, log, k)
  }

  ghost predicate CountersOk(c: Config, r: Replica) {
    && 0 <= r.quorumLastStable <= r.lastStable <= r.lastExecuted <= r.lastPrepared <= r.lastStable + c.window
    && r.stateLastStable == r.lastStable
    && 1 <= r.ar.head
  }

  ghost predicate ViewInfoOk(c: Config, net: set<Msg>, vi: ViewInfo) {
    forall q | q in vi.received ::
      0 <= q < c.n && vi.received[q].id == q && ViewChangeMsg(vi.received[q]) in net
  }

  ghost predicate Sound(c: Config, net: set<Msg>, r: Replica) {
    && c.Valid()
    && 0 <= r.id < c.n
    && WindowOk(c, net, r.ar)
    && HistoryOk(r.ar, r.accepted)
    && EndorsedOk(net, r.id, r.accepted)
    && ListsOk(net, r.id, r.lastStable)
    && CkptsOk(c, net, r.ckpts)
    && RecordsOk(c, net, r.id, r.records)
    && CkptVotesOk(net, r.id, r.lastExecuted)
    && LogOk(c, net, r.log, r.lastExecuted)
    && CountersOk(c, r)
    && ViewInfoOk(c, net, r.vi)
  }

  // ------------------------------------------------------- the network grows

  lemma QuorumGrows(c: Config, net: set<Msg>, net': set<Msg>, n: int, d: Digest)
    requires net <= net' && CommitQuorum(c, net, n, d)
    ensures CommitQuorum(c, net', n, d)
  {
    var quorum :| IsCommitQuorum(c, net, n, d, quorum);
    assert IsCommitQuorum(c, net', n, d, quorum);
  }

  lemma LogGrows(c: Config, net: set<Msg>, net': set<Msg>, log: seq<LogEntry>, lastExecuted: int)
    requires net <= net' && LogOk(c, net, log, lastExecuted)
    ensures LogOk(c, net', log, lastExecuted)
  {
    forall k | 0 <= k < |log|
      ensures EntryOk(c, net', log, k)
    {
      assert EntryOk(c, net, log, k);
      match log[k] {
        case Executed(n, rset) => QuorumGrows(c, net, net', n, OfRequests(rset));
        case Jumped(_) =>
      }
    }
  }

  lemma WindowGrows(c: Config, net: set<Msg>, net': set<Msg>, ar: Region)
    requires net <= net' && WindowOk(c, net, ar)
    ensures WindowOk(c, net', ar)
  {
    forall n | ar.InRange(n)
      ensures SliceOk(c, net', n, ar.At(n))
    {
      assert SliceOk(c, net, n, ar.At(n));
    }
  }

  lemma CkptsGrow(c: Config, net: set<Msg>, net': set<Msg>, ckpts: seq<CkptSlot>)
    requires c.Valid() && net <= net' && CkptsOk(c, net, ckpts)
    ensures CkptsOk(c, net', ckpts)
  {
    forall k | 0 <= k < |ckpts|
      ensures CkptSlotOk(c, net', ckpts[k])
    {
      assert CkptSlotOk(c, net, ckpts[k]);
    }
  }

  /** Messages of others do not disturb a replica. */
  lemma OthersSend(c: Config, net: set<Msg>, out: set<Msg>, r: Replica)
    requires Sound(c, net, r)
    requires forall m | m in out :: m.Sender() != r.id
    ensures Sound(c, net + out, r)
  {
    LogGrows(c, net, net + out, r.log, r.lastExecuted);
    WindowGrows(c, net, net + out, r.ar);
    CkptsGrow(c, net, net + out, r.ckpts);
    assert ListsOk(net + out, r.id, r.lastStable) by {
      forall vc | ViewChangeMsg(vc) in net + out && vc.id == r.id
        ensures ViewChangeMsg(vc) in net
      {
        assert ViewChangeMsg(vc).Sender() == r.id;
      }
    }
    assert CkptVotesOk(net + out, r.id, r.lastExecuted) by {
      forall n, d | CheckpointMsg(n, d, r.id) in net + out
        ensures CheckpointMsg(n, d, r.id) in net
      {
        assert CheckpointMsg(n, d, r.id).Sender() == r.id;
      }
    }
  }

  /** A replica may send what endorses only what it accepted. */
  lemma OwnSend(c: Config, net: set<Msg>, m: Msg, r: Replica)
    requires Sound(c, net, r)
    requires m.Sender() == r.id && !m.CheckpointMsg?
    requires forall n, d | Endorses(m, n, d) :: n in r.accepted && r.accepted[n] == d
    requires m.ViewChangeMsg? ==> Increasing(m.vc.reqs) && m.vc.ls <= r.lastStable
    ensures Sound(c, net + {m}, r)
  {
    LogGrows(c, net, net + {m}, r.log, r.lastExecuted);
    WindowGrows(c, net, net + {m}, r.ar);
    CkptsGrow(c, net, net + {m}, r.ckpts);
  }

  // ------------------------------------------------------------- the window

  lemma SlotOk(c: Config, net: set<Msg>, r: Replica, n: int)
    requires Sound(c, net, r) && r.ar.InRange(n)
    ensures SliceOk(c, net, n, r.ar.At(n))
    ensures HistoryAt(r.ar, r.accepted, n)
  {
  }

  lemma PutAt(ar: Region, n: int, sl: Slice, n': int)
    requires ar.InRange(n)
    ensures var ar' := ar.Put(n, sl);
            && (ar'.InRange(n') <==> ar.InRange(n'))
            && (ar.InRange(n') ==> ar'.At(n') == if n' == n then sl else ar.At(n'))
  {
  }

  lemma PutWindow(c: Config, net: set<Msg>, ar: Region, n: int, sl: Slice)
    requires WindowOk(c, net, ar) && ar.InRange(n) && SliceOk(c, net, n, sl)
    ensures WindowOk(c, net, ar.Put(n, sl))
  {
    forall n' | ar.Put(n, sl).InRange(n')
      ensures SliceOk(c, net, n', ar.Put(n, sl).At(n'))
    {
      PutAt(ar, n, sl, n');
      assert ar.InRange(n');
    }
  }

  lemma PutHistory(ar: Region, accepted: map<int, Digest>, n: int, sl: Slice)
    requires HistoryOk(ar, accepted) && ar.InRange(n)
    requires sl.pp.Some? <==> ar.At(n).pp.Some?
    requires sl.pp.Some? ==> sl.pp.value.digest == ar.At(n).pp.value.digest
    ensures HistoryOk(ar.Put(n, sl), accepted)
  {
    forall n'
      ensures HistoryAt(ar.Put(n, sl), accepted, n')
    {
      PutAt(ar, n, sl, n');
      assert HistoryAt(ar, accepted, n');
    }
  }

  /** Replacing one slice by a sound one that keeps the stored Pre_prepare's digest. */
  lemma PutKeeps(c: Config, net: set<Msg>, r: Replica, n: int, sl: Slice)
    requires Sound(c, net, r) && r.ar.InRange(n)
    requires SliceOk(c, net, n, sl)
    requires sl.pp.Some? <==> r.ar.At(n).pp.Some?
    requires sl.pp.Some? ==> sl.pp.value.digest == r.ar.At(n).pp.value.digest
    ensures Sound(c, net, r.(ar := r.ar.Put(n, sl)))
  {
    PutWindow(c, net, r.ar, n, sl);
    PutHistory(r.ar, r.accepted, n, sl);
  }

  lemma CommitVoteKeeps(c: Config, net: set<Msg>, r: Replica, n: int, q: int, d: Digest)
    requires Sound(c, net, r) && 0 <= q < c.n && CommitSent(net, q, n, d)
    ensures Sound(c, net, r.(ar := AddCommit(c, r.ar, n, q, d)))
  {
    if r.ar.InRange(n) {
      SlotOk(c, net, r, n);
      PutKeeps(c, net, r, n, r.ar.At(n).(commits := AddVote(r.ar.At(n).commits, q, d, c.maxVals)));
    }
  }

  lemma PrepareVoteKeeps(c: Config, net: set<Msg>, r: Replica, n: int, q: int, d: Digest)
    requires Sound(c, net, r) && 0 <= q < c.n
    requires r.ar.HasPp(n) && r.ar.At(n).pp.value.digest == d && PrepareSent(net, q, n, d)
    ensures Sound(c, net, r.(ar := AddPrepare(c, r.ar, n, q, d)))
  {
    SlotOk(c, net, r, n);
    PutKeeps(c, net, r, n, r.ar.At(n).(prepares := AddVote(r.ar.At(n).prepares, q, d, c.maxVals)));
  }

  /** Storing a Pre_prepare never changes the digest already accepted for its seqno: the
      branch of tbft_prepared_cert_add_pp for a recycled slot is not taken. */
  lemma StoreKeeps(c: Config, net: set<Msg>, r: Replica, pp: PrePrepare)
    requires Sound(c, net, r)
    requires r.ar.InRange(pp.seqno) && CanStorePp(r.ar.At(pp.seqno).pp, pp)
    requires pp.digest == OfRequests(pp.rset)
    ensures Sound(c, net, StorePp(r, pp))
    ensures r.ar.At(pp.seqno).pp.Some? ==> r.ar.At(pp.seqno).pp.value.seqno == pp.seqno
    ensures StorePp(r, pp).ar.HasPp(pp.seqno) && StorePp(r, pp).ar.At(pp.seqno).pp == Some(pp)
    ensures pp.seqno in StorePp(r, pp).accepted && StorePp(r, pp).accepted[pp.seqno] == pp.digest
    ensures forall n | n in r.accepted :: n in StorePp(r, pp).accepted && StorePp(r, pp).accepted[n] == r.accepted[n]
  {
    var n := pp.seqno;
    SlotOk(c, net, r, n);
    var sl := r.ar.At(n).(pp := Some(pp));
    PutWindow(c, net, r.ar, n, sl);
    if r.ar.HasPp(n) {
      PutHistory(r.ar, r.accepted, n, sl);
    } else {
      PutNew(r.ar, r.accepted, n, sl);
    }
  }

  lemma PutNew(ar: Region, accepted: map<int, Digest>, n: int, sl: Slice)
    requires HistoryOk(ar, accepted) && ar.InRange(n) && !ar.HasPp(n) && sl.pp.Some?
    ensures n !in accepted && HistoryOk(ar.Put(n, sl), accepted[n := sl.pp.value.digest])
  {
    assert HistoryAt(ar, accepted, n);
    var ar', accepted' := ar.Put(n, sl), accepted[n := sl.pp.value.digest];
    forall n'
      ensures HistoryAt(ar', accepted', n')
    {
      PutAt(ar, n, sl, n');
      assert HistoryAt(ar, accepted, n');
    }
  }

  lemma CutAt(ar: Region, h: int, n: int)
    requires ar.head < h
    ensures var ar' := Truncate(ar, h);
            && |ar'.slots| == |ar.slots| && ar'.head == h
            && (ar'.InRange(n) ==> ar'.At(n) == if ar.InRange(n) then ar.At(n) else EMPTY_SLICE)
  {
  }

  lemma CutKeeps(c: Config, net: set<Msg>, ar: Region, accepted: map<int, Digest>, h: int)
    requires WindowOk(c, net, ar) && HistoryOk(ar, accepted)
    ensures WindowOk(c, net, Truncate(ar, h)) && HistoryOk(Truncate(ar, h), accepted)
    ensures Truncate(ar, h).head == Max(ar.head, h)
  {
    if h > ar.head {
      CutWindow(c, net, ar, h);
      CutHistory(ar, accepted, h);
    }
  }

  lemma CutWindow(c: Config, net: set<Msg>, ar: Region, h: int)
    requires WindowOk(c, net, ar) && ar.head < h
    ensures WindowOk(c, net, Truncate(ar, h))
  {
    CutAt(ar, h, h);
    forall n | Truncate(ar, h).InRange(n)
      ensures SliceOk(c, net, n, Truncate(ar, h).At(n))
    {
      CutAt(ar, h, n);
    }
  }

  lemma CutHistory(ar: Region, accepted: map<int, Digest>, h: int)
    requires HistoryOk(ar, accepted) && ar.head < h
    ensures HistoryOk(Truncate(ar, h), accepted)
  {
    forall n
      ensures HistoryAt(Truncate(ar, h), accepted, n)
    {
      CutAt(ar, h, n);
      assert HistoryAt(ar, accepted, n);
    }
  }

  /** The direct assignment after a truncation changes nothing when it does not go back. */
  lemma ForceIsTruncate(ar: Region, h: int)
    requires ar.head <= h
    ensures ForceHead(ar, h) == Truncate(ar, h)
  {
  }

  lemma TruncateCkptsKeeps(c: Config, net: set<Msg>, ckpts: seq<CkptSlot>, stable: int)
    requires c.Valid() && CkptsOk(c, net, ckpts)
    ensures CkptsOk(c, net, TruncateCkpts(ckpts, stable))
  {
    forall k | 0 <= k < |ckpts|
      ensures CkptSlotOk(c, net, TruncateCkpts(ckpts, stable)[k])
    {
      assert CkptSlotOk(c, net, ckpts[k]);
    }
  }

  lemma StoreCkptKeeps(c: Config, net: set<Msg>, ckpts: seq<CkptSlot>, n: int, q: int, d: Digest)
    requires c.Valid() && CkptsOk(c, net, ckpts)
    requires 0 <= q < c.n && CheckpointMsg(n, d, q) in net
    ensures var k := SlotIndex(c, n);
            CkptsOk(c, net, ckpts[k := StoreInSlot(ckpts[k], c.maxVals, n, q, d)])
  {
    var k := SlotIndex(c, n);
    assert CkptSlotOk(c, net, ckpts[k]);
    StoreSlotKeeps(c, net, ckpts[k], n, q, d);
  }

  lemma StoreSlotKeeps(c: Config, net: set<Msg>, slot: CkptSlot, n: int, q: int, d: Digest)
    requires CkptSlotOk(c, net, slot)
    requires 0 <= q < c.n && CheckpointMsg(n, d, q) in net
    ensures CkptSlotOk(c, net, StoreInSlot(slot, c.maxVals, n, q, d))
  {
  }
}
