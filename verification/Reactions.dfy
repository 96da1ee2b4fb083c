/** What each event makes a replica do, and when: exactly, in terms of its own fields. */
module Reactions {
  import opened Types
  import opened Quorums
  import opened ViewChangeSpec
  import opened ReplicaSpec
  import opened Invariants
  import opened Protocol
  import opened Handlers
  import opened Safety
  import opened Tallies
  import opened Executions

  // -------------------------------------------------------------- proposing

  /** The slice takes a Pre_prepare in this view: nothing is stored in it, or the same request
      from an earlier view. */
  predicate TakesPp(sl: Slice, view: int, digest: Digest) {
    sl.pp.Some? ==> sl.pp.value.digest == digest && sl.pp.value.view < view
  }

  /** The replica is the primary, not changing views, and its next seqno is in both windows. */
  predicate MayPropose(c: Config, r: Replica)
    requires c.n >= 1
  {
    && r.id == r.view % c.n && !r.vi.inProgress
    && r.lastStable < r.seqno <= r.lastStable + c.window
    && r.ar.head <= r.seqno < r.ar.head + |r.ar.slots|
  }

  /** The slice with a Pre_prepare stored and the own Prepare recorded, unless it was. */
  function Endorsed(sl: Slice, pp: PrePrepare, id: int): Slice {
    sl.(pp := Some(pp), prepares := if id in sl.prepares then sl.prepares else sl.prepares[id := pp.digest])
  }

  /** The digest accepted for a seqno is remembered the first time. */
  function Remembered(accepted: map<int, Digest>, n: int, d: Digest): map<int, Digest> {
    if n in accepted then accepted else accepted[n := d]
  }

  /** A primary that may propose and whose slice takes the proposal proposes for its next seqno,
      stores the proposal, votes for it, sends both and moves on to the following seqno;
      otherwise nothing happens. */
  lemma ProposesExactly(c: Config, net: set<Msg>, r: Replica, rset: RequestSet, ndet: Bytes)
    requires Sound(c, net, r)
    ensures var n, d, o := r.seqno, OfRequests(rset), Propose(c, r, rset, ndet);
            var pp := PrePrepare(r.view, n, d, rset, ndet);
            if MayPropose(c, r) && TakesPp(SliceFor(r, n), r.view, d) then
              && o.out == {PrePrepareMsg(pp, r.id), PrepareMsg(r.view, n, d, r.id)}
              && o.r == WithSlice(r, n, Endorsed(SliceFor(r, n), pp, r.id)).(
                          seqno := n + 1, accepted := Remembered(r.accepted, n, d))
            else o == Outcome(r, {})
  {
    var n, d := r.seqno, OfRequests(rset);
    if MayPropose(c, r) {
      SlotOk(c, net, r, n);
      var sl := SliceFor(r, n);
      if TakesPp(sl, r.view, d) {
        AllForStored(c, sl.prepares, r.id, d);
        var pp := PrePrepare(r.view, n, d, rset, ndet);
        PutTwice(c, StorePp(r, pp).ar, r.ar, n, sl, pp, r.id);
      }
    }
  }

  /** Storing and then voting is one change of the slice. */
  lemma PutTwice(c: Config, ar1: Region, ar: Region, n: int, sl: Slice, pp: PrePrepare, id: int)
    requires ar.InRange(n) && ar.At(n) == sl && ar1 == ar.Put(n, sl.(pp := Some(pp)))
    requires CanVote(sl.prepares, id, pp.digest, c.maxVals) <==> id !in sl.prepares
    ensures AddPrepare(c, ar1, n, id, pp.digest) == Region(ar.head, ar.slots[n - ar.head := Endorsed(sl, pp, id)])
  {
    assert ar1.At(n) == sl.(pp := Some(pp));
  }

  /** The events that may set the next seqno anew: a New_view, the end of a fetch, a request. */
  predicate SetsSeqno(ev: Event) {
    || ev.Request? || ev.EndFetch?
    || (ev.Deliver? && (ev.m.NewViewMsg? || ev.m.ViewChangeMsg?))
  }

  lemma VotesKeepSeqno(c: Config, net: set<Msg>, r: Replica, ev: Event, env: Env)
    requires Sound(c, net, r) && Shaped(c, r) && ev.Deliver? && (ev.m.PrepareMsg? || ev.m.CommitMsg?)
    ensures React(c, r, ev, env).r.seqno == r.seqno
  {
    match ev.m {
      case PrepareMsg(v, n, d, q) => PrepareKeepsSeqno(c, net, r, v, n, d, q, env);
      case CommitMsg(v, n, d, q) => CommitKeepsSeqno(c, net, r, v, n, d, q, env);
    }
  }

  lemma RunKeepsSeqno(c: Config, r: Replica, n: int, sent: set<Msg>, o: Outcome, env: Env)
    requires c.interval >= 1 && r.ar.head <= n < r.ar.head + |r.ar.slots| && RunsIfCommitted(c, r, n, sent, o, env)
    ensures o.r.seqno == r.seqno
  {
  }

  lemma PrepareKeepsSeqno(c: Config, net: set<Msg>, r: Replica, v: int, n: int, d: Digest, q: int, env: Env)
    requires Sound(c, net, r) && Shaped(c, r)
    ensures HandlePrepare(c, r, v, n, d, q, env).r.seqno == r.seqno
  {
    PrepareIsCounted(c, net, r, v, n, d, q, env);
    PrepareAnswerKeepsSeqno(c, r, v, n, d, q, HandlePrepare(c, r, v, n, d, q, env), env);
  }

  lemma PrepareAnswerKeepsSeqno(c: Config, r: Replica, v: int, n: int, d: Digest, q: int, o: Outcome, env: Env)
    requires c.Valid() && PrepareAnswer(c, r, v, n, d, q, o, env)
    ensures o.r.seqno == r.seqno
  {
  }

  lemma CommitKeepsSeqno(c: Config, net: set<Msg>, r: Replica, v: int, n: int, d: Digest, q: int, env: Env)
    requires Sound(c, net, r) && Shaped(c, r)
    ensures HandleCommit(c, r, v, n, d, q, env).r.seqno == r.seqno
  {
    CommitIsCounted(c, net, r, v, n, d, q, env);
    CommitAnswerKeepsSeqno(c, r, v, n, d, q, HandleCommit(c, r, v, n, d, q, env), env);
  }

  lemma CommitAnswerKeepsSeqno(c: Config, r: Replica, v: int, n: int, d: Digest, q: int, o: Outcome, env: Env)
    requires c.Valid() && CommitAnswer(c, r, v, n, d, q, o, env)
    ensures o.r.seqno == r.seqno
  {
  }

  /** While a primary stays in its view, nothing else moves its next seqno. */
  lemma SeqnoStays(c: Config, net: set<Msg>, r: Replica, ev: Event, env: Env)
    requires Sound(c, net, r) && Shaped(c, r) && r.id == r.view % c.n && !SetsSeqno(ev)
    requires React(c, r, ev, env).r.view == r.view
    ensures React(c, r, ev, env).r.seqno == r.seqno
  {
    match ev {
      case Deliver(m) =>
        if m.PrepareMsg? || m.CommitMsg? {
          VotesKeepSeqno(c, net, r, ev, env);
        }
      case DeliverStatus(_) =>
      case ViewTimeout =>
      case RepeatCommit(_) =>
      case RepeatCheckpoint(_) =>
      case BeginFetch(_) =>
      case FetchData(_) =>
    }
  }

  /** In this step replica `i` sends a proposal for seqno `n`. */
  ghost predicate ProposesAt(c: Config, s: Sys, l: Label, i: int, n: int) {
    && l.Act? && l.i == i && l.ev.Request? && i in s.replicas && c.n >= 1
    && s.replicas[i].seqno == n && MayPropose(c, s.replicas[i])
    && TakesPp(SliceFor(s.replicas[i], n), s.replicas[i].view, OfRequests(l.ev.rset))
  }

  /** Between two steps the replica stays primary of its view and nothing sets its seqno. */
  ghost predicate StaysPrimary(c: Config, run: seq<Sys>, labels: seq<Label>, i: int, a: nat, b: nat)
    requires c.n >= 1
  {
    && b < |run| && |run| == |labels| + 1
    && (forall k | a <= k <= b :: IsPrimaryAt(c, run[k], i, run[a]))
    && (forall k | a < k < b && labels[k].Act? && labels[k].i == i :: !SetsSeqno(labels[k].ev))
  }

  ghost predicate IsPrimaryAt(c: Config, s: Sys, i: int, s0: Sys)
    requires c.n >= 1
  {
    i in s.replicas && i in s0.replicas && s.replicas[i].view == s0.replicas[i].view && i == s.replicas[i].view % c.n
  }

  lemma StepKeepsSeqno(c: Config, faulty: set<int>, run: seq<Sys>, labels: seq<Label>, i: int, k: nat)
    requires IsRun(c, faulty, run, labels) && k < |labels|
    requires IsPrimaryAt(c, run[k], i, run[k]) && IsPrimaryAt(c, run[k + 1], i, run[k])
    requires labels[k].Act? && labels[k].i == i ==> !SetsSeqno(labels[k].ev)
    ensures run[k + 1].replicas[i].seqno == run[k].replicas[i].seqno
  {
    RunStep(c, faulty, run, labels, k);
    match labels[k] {
      case Forge(_) =>
      case Act(j, ev, env) =>
        if j == i {
          SeqnoStays(c, run[k].net, run[k].replicas[i], ev, env);
        }
    }
  }

  lemma ProposalMovesOn(c: Config, faulty: set<int>, run: seq<Sys>, labels: seq<Label>, i: int, a: nat, n: int)
    requires IsRun(c, faulty, run, labels) && a < |labels| && ProposesAt(c, run[a], labels[a], i, n)
    ensures i in run[a + 1].replicas && run[a + 1].replicas[i].seqno == n + 1
  {
    RunStep(c, faulty, run, labels, a);
    var r := run[a].replicas[i];
    ProposesExactly(c, run[a].net, r, labels[a].ev.rset, labels[a].ev.ndet);
  }

  /** The step from state `k` leaves the replica's next seqno alone. */
  ghost predicate KeepsSeqno(run: seq<Sys>, i: int, k: int) {
    0 <= k < |run| - 1 && i in run[k].replicas && i in run[k + 1].replicas
    && run[k + 1].replicas[i].seqno == run[k].replicas[i].seqno
  }

  lemma StayingKeepsSeqno(c: Config, faulty: set<int>, run: seq<Sys>, labels: seq<Label>, i: int, a: nat, b: nat, k: nat)
    requires IsRun(c, faulty, run, labels) && a < k < b < |run| && StaysPrimary(c, run, labels, i, a, b)
    ensures KeepsSeqno(run, i, k)
  {
    assert IsPrimaryAt(c, run[k], i, run[a]) && IsPrimaryAt(c, run[k + 1], i, run[a]);
    StepKeepsSeqno(c, faulty, run, labels, i, k);
  }

  lemma {:induction false} SeqnoUntil(run: seq<Sys>, i: int, a: nat, b: nat)
    requires a < b < |run| && i in run[a + 1].replicas && forall k | a < k < b :: KeepsSeqno(run, i, k)
    ensures i in run[b].replicas && run[b].replicas[i].seqno == run[a + 1].replicas[i].seqno
    decreases b
  {
    if b > a + 1 {
      SeqnoUntil(run, i, a, b - 1);
      var k := b - 1;
      assert KeepsSeqno(run, i, k);
    }
  }

  /** A primary that stays in its view proposes for the following seqno next. */
  lemma ProposesInOrder(c: Config, faulty: set<int>, run: seq<Sys>, labels: seq<Label>, i: int, a: nat, b: nat, n: int, m: int)
    requires IsRun(c, faulty, run, labels) && a < b < |labels|
    requires ProposesAt(c, run[a], labels[a], i, n) && ProposesAt(c, run[b], labels[b], i, m)
    requires StaysPrimary(c, run, labels, i, a, b)
    ensures m == n + 1
  {
    ProposalMovesOn(c, faulty, run, labels, i, a, n);
    forall k | a < k < b
      ensures KeepsSeqno(run, i, k)
    {
      StayingKeepsSeqno(c, faulty, run, labels, i, a, b, k);
    }
    SeqnoUntil(run, i, a, b);
  }

  // ----------------------------------------------------- taking a Pre_prepare

  /** The Pre_prepare is from the primary of its view, which is another replica and not an
      earlier one, and its seqno is in the window. */
  predicate IsPassed(c: Config, r: Replica, pp: PrePrepare, sender: int)
    requires c.n >= 1
  {
    && r.view <= pp.view && sender == pp.view % c.n && sender != r.id
    && r.lastStable < pp.seqno <= r.lastStable + c.window
  }

  /** The request hashes to the digest, and is signed by a client that exists. */
  predicate IsGenuine(c: Config, pp: PrePrepare) {
    && pp.rset.Holds? && pp.digest == OfRequests(pp.rset)
    && pp.rset.request.signed && 0 <= pp.rset.request.cid < c.principals
  }

  /** The replica after it has followed the proposal to its view. */
  ghost predicate Follows(c: Config, r: Replica, r1: Replica, view: int) {
    if view == r.view then r1 == r
    else
      && r1 == r.(view := view, vi := ViewInfo(view + 1, false, map[]), ar := r1.ar, ckpts := r1.ckpts)
      && SameAbove(r.ar, r1.ar, r.lastStable) && r1.ar.head == r.lastStable + 1
      && IsCut(r.ckpts, r1.ckpts, r.lastStable)
  }

  /** Checkpoint slots up to `stable` have been emptied, and no others. */
  ghost predicate IsCut(ckpts: seq<CkptSlot>, ckpts': seq<CkptSlot>, stable: int) {
    && |ckpts'| == |ckpts|
    && forall k | 0 <= k < |ckpts| ::
         ckpts'[k] == if ckpts[k].seqno <= stable then CkptSlot(0, {}, map[]) else ckpts[k]
  }

  lemma FollowsTo(c: Config, net: set<Msg>, r: Replica, view: int)
    requires Sound(c, net, r) && view > r.view && r.ar.head <= r.lastStable + 1
    ensures Follows(c, r, AdvanceView(r, view).(vi := ViewInfo(view + 1, false, map[])), view)
  {
    ForceIsTruncate(r.ar, r.lastStable + 1);
    CutIsSameAbove(r.ar, r.lastStable);
    RaisingIsIdle(c, net, r, view);
  }

  /** The outcome of a proposal that passed, for the replica in its view. */
  ghost predicate Takes(c: Config, r1: Replica, pp: PrePrepare, o: Outcome) {
    var n := pp.seqno;
    if IsGenuine(c, pp) && r1.ar.head <= n < r1.ar.head + |r1.ar.slots| && TakesPp(SliceFor(r1, n), pp.view, pp.digest) then
      && o.r == WithSlice(r1, n, Endorsed(SliceFor(r1, n), pp, r1.id)).(
                  seqno := Max(r1.seqno, n + 1), accepted := Remembered(r1.accepted, n, pp.digest))
      && o.out == (if r1.id in SliceFor(r1, n).prepares then {} else {PrepareMsg(pp.view, n, pp.digest, r1.id)})
    else o == Outcome(r1, {})
  }

  lemma StoringTakes(c: Config, net: set<Msg>, r1: Replica, pp: PrePrepare)
    requires Sound(c, net, r1) && r1.view == pp.view && r1.id != pp.view % c.n
    ensures Takes(c, r1, pp, StoreAndAnswer(c, r1, pp))
  {
    var n := pp.seqno;
    if r1.ar.InRange(n) {
      SlotOk(c, net, r1, n);
      var sl := SliceFor(r1, n);
      if IsGenuine(c, pp) && TakesPp(sl, pp.view, pp.digest) {
        AllForStored(c, sl.prepares, r1.id, pp.digest);
        PutTwice(c, StorePp(r1, pp).ar, r1.ar, n, sl, pp, r1.id);
        if r1.id in sl.prepares {
          assert Endorsed(sl, pp, r1.id) == sl.(pp := Some(pp));
        }
      }
    }
  }

  /** A Pre_prepare that passes is followed to its view and stored there, exactly if it is
      genuine and the slice takes it, and answered with a Prepare unless one was recorded. */
  lemma PrePrepareIsTaken(c: Config, net: set<Msg>, r: Replica, pp: PrePrepare, sender: int) returns (r1: Replica)
    requires Sound(c, net, r) && KeepsHead(c, r, Deliver(PrePrepareMsg(pp, sender)))
    ensures var o := HandlePrePrepare(c, r, pp, sender);
            if IsPassed(c, r, pp, sender) then Follows(c, r, r1, pp.view) && Takes(c, r1, pp, o)
            else o == Outcome(r, {})
  {
    r1 := r;
    if IsPassed(c, r, pp, sender) {
      if pp.view > r.view {
        FollowsTo(c, net, r, pp.view);
        CutStoresGood(c, net, r, pp.view);
        RaisingIsIdle(c, net, r, pp.view);
        r1 := AdvanceView(r, pp.view).(vi := ViewInfo(pp.view + 1, false, map[]));
      }
      StoringTakes(c, net, r1, pp);
    }
  }

  /** The own Prepare is sent, for what is stored, by a replica that is not the primary and has
      not recorded one. */
  lemma OwnPrepareIsSent(c: Config, net: set<Msg>, r: Replica, n: int)
    requires Sound(c, net, r)
    ensures var o := SendPrepare(c, r, n);
            if r.id != r.view % c.n && r.ar.HasPp(n) && r.id !in SliceFor(r, n).prepares then
              var sl := SliceFor(r, n);
              var d := sl.pp.value.digest;
              o == Outcome(WithSlice(r, n, sl.(prepares := sl.prepares[r.id := d])), {PrepareMsg(r.view, n, d, r.id)})
            else o == Outcome(r, {})
  {
    if r.ar.HasPp(n) {
      SlotOk(c, net, r, n);
      AllForStored(c, SliceFor(r, n).prepares, r.id, SliceFor(r, n).pp.value.digest);
    }
  }
}
