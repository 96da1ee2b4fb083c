/** The seqno that a replica takes for confirmed by a checkpoint quorum: when 2f+1 replicas
    have voted for it, and the one way in which they have not. */
module StableQuorums {
  import opened Types
  import opened Quorums
  import opened ViewChangeSpec
  import opened ReplicaSpec
  import opened Invariants
  import opened Protocol
  import opened Handlers
  import opened Safety

  ghost predicate IsCheckpointQuorum(c: Config, net: set<Msg>, n: int, d: Digest, quorum: set<int>) {
    && c.n >= 0
    && quorum <= Upto(c.n)
    && |quorum| >= c.CommitThreshold()
    && forall q | q in quorum :: CheckpointMsg(n, d, q) in net
  }

  /** 2f+1 replicas have voted for one digest at seqno `n`. */
  ghost predicate CheckpointQuorum(c: Config, net: set<Msg>, n: int) {
    exists d, quorum :: IsCheckpointQuorum(c, net, n, d, quorum)
  }

  /** What the replica takes for confirmed is where it started, or has a checkpoint quorum. */
  ghost predicate Backed(c: Config, net: set<Msg>, r: Replica) {
    r.quorumLastStable == 0 || CheckpointQuorum(c, net, r.quorumLastStable)
  }

  lemma CheckpointQuorumGrows(c: Config, net: set<Msg>, net': set<Msg>, n: int)
    requires net <= net' && CheckpointQuorum(c, net, n)
    ensures CheckpointQuorum(c, net', n)
  {
    var d, quorum :| IsCheckpointQuorum(c, net, n, d, quorum);
    assert IsCheckpointQuorum(c, net', n, d, quorum);
  }

  /** The confirmed seqno stays, or moves to one with a checkpoint quorum. */
  ghost predicate Confirms(c: Config, net: set<Msg>, r: Replica, r': Replica) {
    r'.quorumLastStable == r.quorumLastStable || CheckpointQuorum(c, net, r'.quorumLastStable)
  }

  lemma ConfirmsTwice(c: Config, net: set<Msg>, net': set<Msg>, r: Replica, r1: Replica, r2: Replica)
    requires net <= net' && Confirms(c, net, r, r1) && Confirms(c, net', r1, r2)
    ensures Confirms(c, net', r, r2)
  {
    if r1.quorumLastStable != r.quorumLastStable {
      CheckpointQuorumGrows(c, net, net', r1.quorumLastStable);
    }
  }

  // ------------------------------------------------------------- mark_stable

  /** The slot that is asked holds the votes for another seqno, which have a quorum for the
      replica's own root: something the caller can look up before it moves the stable point. */
  ghost predicate Misleads(c: Config, ckpts: seq<CkptSlot>, n: int, root: Digest)
    requires c.Valid() && |ckpts| == c.CheckpointSlots()
  {
    var slot := ckpts[SlotIndex(c, n)];
    slot.seqno != n && Wins(slot.votes, c.CommitThreshold(), root)
  }

  /** A quorum in a slot is one of the votes sent for the slot's own seqno. */
  lemma SlotHasQuorum(c: Config, net: set<Msg>, slot: CkptSlot, d: Digest)
    requires c.Valid() && CkptSlotOk(c, net, slot) && Wins(slot.votes, c.CommitThreshold(), d)
    ensures CheckpointQuorum(c, net, slot.seqno)
  {
    assert IsCheckpointQuorum(c, net, slot.seqno, d, Supporters(slot.votes, d));
  }

  lemma MarkStableConfirms(c: Config, net: set<Msg>, r: Replica, n: int, mayFetch: bool)
    requires c.Valid() && Shaped(c, r) && CkptsOk(c, net, r.ckpts) && !Misleads(c, r.ckpts, n, r.root)
    ensures Confirms(c, net, r, MarkStable(c, r, n, mayFetch))
  {
    var slot, winning := r.ckpts[SlotIndex(c, n)], Winning(c, r.ckpts, n);
    assert CkptSlotOk(c, net, slot);
    if n > r.lastStable && winning == Some(r.root) {
      SlotHasQuorum(c, net, slot, r.root);
    }
  }

  // ---------------------------------------------------------------- own votes

  /** Storing a vote for `n` makes its slot one for `n`. */
  lemma StoredVoteConfirms(c: Config, net: set<Msg>, r: Replica, n: int, q: int, d: Digest, mayFetch: bool)
    requires c.Valid() && Shaped(c, r) && CkptsOk(c, net, r.ckpts) && 0 <= q < c.n && CheckpointMsg(n, d, q) in net
    ensures var k := SlotIndex(c, n);
            var r1 := r.(ckpts := r.ckpts[k := StoreInSlot(r.ckpts[k], c.maxVals, n, q, d)]);
            Confirms(c, net, r, r1) && Confirms(c, net, r, MarkStable(c, r1, n, mayFetch))
  {
    var k := SlotIndex(c, n);
    StoreCkptKeeps(c, net, r.ckpts, n, q, d);
    var r1 := r.(ckpts := r.ckpts[k := StoreInSlot(r.ckpts[k], c.maxVals, n, q, d)]);
    MarkStableConfirms(c, net, r1, n, mayFetch);
  }

  lemma TakeCheckpointConfirms(c: Config, net: set<Msg>, r: Replica, n: int, env: Env)
    requires Sound(c, net, r) && Shaped(c, r)
    ensures var o := TakeCheckpoint(c, r, n, env); Confirms(c, net + o.out, r, o.r)
  {
    var d, k := env.root(n), SlotIndex(c, n);
    var net' := net + {CheckpointMsg(n, d, r.id)};
    CkptsGrow(c, net, net', r.ckpts);
    StoredVoteConfirms(c, net', r.(root := d, records := r.records[k := Some(Record(n, d))]), n, r.id, d, env.mayFetch(n));
  }

  lemma ExecuteOneConfirms(c: Config, net: set<Msg>, r: Replica, env: Env)
    requires Sound(c, net, r) && Shaped(c, r)
    requires r.lastExecuted < r.lastPrepared && r.ar.ReadyAt(c, r.lastExecuted + 1)
    ensures var o := ExecuteOne(c, r, env); Confirms(c, net + o.out, r, o.r)
  {
    var n := r.lastExecuted + 1;
    LoggedGood(c, net, r);
    var o := ExecuteOne(c, r, env);
    if n % c.interval == 0 {
      TakeCheckpointConfirms(c, net, Logged(r, n), n, env);
      assert o == TakeCheckpoint(c, Logged(r, n), n, env);
    } else {
      assert o == Outcome(Logged(r, n), {});
    }
  }

  lemma {:induction false} ExecuteConfirms(c: Config, net: set<Msg>, r: Replica, env: Env)
    requires Sound(c, net, r) && Shaped(c, r)
    ensures var o := ExecuteCommitted(c, r, env); Confirms(c, net + o.out, r, o.r)
    decreases r.lastPrepared - r.lastExecuted
  {
    var n := r.lastExecuted + 1;
    if n <= r.lastPrepared && r.ar.ReadyAt(c, n) && env.accepts(n) {
      var one := ExecuteOne(c, r, env);
      ExecuteOneGood(c, net, r, env);
      ExecuteOneConfirms(c, net, r, env);
      ExecuteConfirms(c, net + one.out, one.r, env);
      var rest := ExecuteCommitted(c, one.r, env);
      assert net + one.out + rest.out == net + (one.out + rest.out);
      ConfirmsTwice(c, net + one.out, net + (one.out + rest.out), r, one.r, rest.r);
    }
  }

  lemma ExecuteIfConfirms(c: Config, net: set<Msg>, o: Outcome, n: int, env: Env)
    requires Sound(c, net + o.out, o.r) && Shaped(c, o.r)
    ensures var e := ExecuteIfCommitted(c, o, n, env); Confirms(c, net + e.out, o.r, e.r)
  {
    if o.r.ar.CommittedAt(c, n) {
      ExecuteConfirms(c, net + o.out, o.r, env);
      assert net + o.out + ExecuteCommitted(c, o.r, env).out == net + ExecuteIfCommitted(c, o, n, env).out;
    }
  }

  // ---------------------------------------------------------------- handlers

  lemma PrepareConfirms(c: Config, net: set<Msg>, r: Replica, v: int, n: int, d: Digest, q: int, env: Env)
    requires Sound(c, net, r) && Shaped(c, r) && PrepareMsg(v, n, d, q) in net
    ensures var o := HandlePrepare(c, r, v, n, d, q, env); Confirms(c, net + o.out, r, o.r)
  {
    var o := HandlePrepare(c, r, v, n, d, q, env);
    if o != Outcome(r, {}) {
      PrepareVoteKeeps(c, net, r, n, q, d);
      var r1 := r.(ar := AddPrepare(c, r.ar, n, q, d));
      if r1.ar.PreparedAt(c, n) {
        var r2 := r1.(lastPrepared := Max(r1.lastPrepared, n));
        var o3 := if r1.id !in r2.ar.At(n).commits then SendCommit(c, r2, n) else Outcome(r2, {});
        SendCommitGood(c, net, r2, n);
        Quietly(c, net, r2, r2);
        ExecuteIfConfirms(c, net, o3, n, env);
      }
    }
  }

  lemma CommitConfirms(c: Config, net: set<Msg>, r: Replica, v: int, n: int, d: Digest, q: int, env: Env)
    requires Sound(c, net, r) && Shaped(c, r) && CommitMsg(v, n, d, q) in net
    ensures var o := HandleCommit(c, r, v, n, d, q, env); Confirms(c, net + o.out, r, o.r)
  {
    var o := HandleCommit(c, r, v, n, d, q, env);
    if o != Outcome(r, {}) {
      CommitVoteKeeps(c, net, r, n, q, d);
      var r1 := r.(ar := AddCommit(c, r.ar, n, q, d));
      SendCommitGood(c, net, r1, n);
      Quietly(c, net, r1, r1);
      ExecuteIfConfirms(c, net, ResendCommit(c, r1, n, env.mayResend), n, env);
    }
  }

  lemma CheckpointConfirms(c: Config, net: set<Msg>, r: Replica, n: int, d: Digest, q: int, env: Env)
    requires Sound(c, net, r) && Shaped(c, r) && CheckpointMsg(n, d, q) in net
    ensures Confirms(c, net, r, HandleCheckpoint(c, r, n, d, q, env))
  {
    if 0 <= q < c.n {
      StoredVoteConfirms(c, net, r, n, q, d, env.mayFetch(n));
    }
  }

  /** The end of this fetch takes votes for another seqno for its own. */
  ghost predicate Misreads(c: Config, r: Replica, ev: Event)
    requires c.Valid() && Shaped(c, r)
  {
    && ev.EndFetch? && r.inFetch && r.fetchSeqno > r.lastStable
    && Misleads(c, r.ckpts, r.fetchSeqno, ev.root)
  }

  lemma FetchConfirms(c: Config, net: set<Msg>, r: Replica, root: Digest, env: Env)
    requires Sound(c, net, r) && Shaped(c, r) && !Misreads(c, r, EndFetch(root))
    ensures Confirms(c, net, r, FinishFetch(c, r, root, env))
  {
    var n := r.fetchSeqno;
    if r.inFetch && n > r.lastStable {
      MarkStableConfirms(c, net, r.(inFetch := false, root := root), n, env.mayFetch(n));
    }
  }

  lemma ReceiveConfirms(c: Config, net: set<Msg>, r: Replica, m: Msg, env: Env)
    requires Sound(c, net, r) && Shaped(c, r) && m in net
    ensures var o := Receive(c, r, m, env); Confirms(c, net + o.out, r, o.r)
  {
    match m {
      case PrepareMsg(v, n, d, q) => PrepareConfirms(c, net, r, v, n, d, q, env);
      case CommitMsg(v, n, d, q) => CommitConfirms(c, net, r, v, n, d, q, env);
      case CheckpointMsg(n, d, q) =>
        CheckpointConfirms(c, net, r, n, d, q, env);
        assert net + {} == net;
      case PrePrepareMsg(_, _) =>
      case ViewChangeMsg(_) =>
      case NewViewMsg(_, _) =>
    }
  }

  lemma ReactConfirms(c: Config, net: set<Msg>, r: Replica, ev: Event, env: Env)
    requires Sound(c, net, r) && Shaped(c, r) && (ev.Deliver? ==> ev.m in net) && !Misreads(c, r, ev)
    ensures var o := React(c, r, ev, env); Confirms(c, net + o.out, r, o.r)
  {
    match ev {
      case Deliver(m) => ReceiveConfirms(c, net, r, m, env);
      case EndFetch(root) =>
        FetchConfirms(c, net, r, root, env);
        assert net + {} == net;
      case DeliverStatus(_) =>
      case Request(_, _) =>
      case ViewTimeout =>
      case RepeatCommit(_) =>
      case RepeatCheckpoint(_) =>
      case BeginFetch(_) =>
      case FetchData(_) =>
    }
  }

  // -------------------------------------------------------------- whole runs

  ghost predicate AllBacked(c: Config, s: Sys) {
    forall i | i in s.replicas :: Backed(c, s.net, s.replicas[i])
  }

  /** A step in which a fetch ends on votes for another seqno. */
  ghost predicate MisreadingStep(c: Config, s: Sys, l: Label)
    requires c.Valid()
  {
    l.Act? && l.i in s.replicas && Shaped(c, s.replicas[l.i]) && Misreads(c, s.replicas[l.i], l.ev)
  }

  lemma StepKeepsBacked(c: Config, faulty: set<int>, s: Sys, l: Label, s': Sys)
    requires SysInv(c, faulty, s) && AllBacked(c, s) && Next(c, faulty, s, l, s') && !MisreadingStep(c, s, l)
    ensures AllBacked(c, s')
  {
    forall j | j in s'.replicas
      ensures Backed(c, s'.net, s'.replicas[j])
    {
      if l.Act? && j == l.i {
        ReactConfirms(c, s.net, s.replicas[j], l.ev, l.env);
      }
      BackedGrows(c, s.net, s'.net, s.replicas[j]);
    }
  }

  lemma BackedGrows(c: Config, net: set<Msg>, net': set<Msg>, r: Replica)
    requires net <= net' && Backed(c, net, r)
    ensures Backed(c, net', r)
  {
    if r.quorumLastStable != 0 {
      CheckpointQuorumGrows(c, net, net', r.quorumLastStable);
    }
  }

  /** Unless a fetch ends on votes for another seqno, every seqno that a correct replica ever
      takes for confirmed by a quorum has the Checkpoints of 2f+1 replicas. */
  lemma {:induction false} ConfirmedIsBacked(c: Config, faulty: set<int>, run: seq<Sys>, labels: seq<Label>, k: nat)
    requires IsRun(c, faulty, run, labels) && k < |run|
    requires forall j | 0 <= j < k :: !MisreadingStep(c, run[j], labels[j])
    ensures AllBacked(c, run[k])
  {
    if k > 0 {
      ConfirmedIsBacked(c, faulty, run, labels, k - 1);
      RunInv(c, faulty, run, labels, k - 1);
      StepKeepsBacked(c, faulty, run[k - 1], labels[k - 1], run[k]);
    }
  }

  /** What the replica itself has to show for a seqno: 2f+1 votes for it in its slot. */
  ghost predicate ShowsQuorum(c: Config, r: Replica, n: int)
    requires c.Valid() && Shaped(c, r)
  {
    var slot := r.ckpts[SlotIndex(c, n)];
    slot.seqno == n && HasWinner(slot.votes, c.CommitThreshold())
  }

  /** The end of a fetch confirms a seqno without having a quorum for it to show exactly when
      the slot it consults misleads it. */
  lemma FetchMisreadsExactly(c: Config, net: set<Msg>, r: Replica, root: Digest, env: Env)
    requires Sound(c, net, r) && Shaped(c, r)
    ensures var r' := FinishFetch(c, r, root, env);
            (r'.quorumLastStable != r.quorumLastStable && !ShowsQuorum(c, r, r'.quorumLastStable))
            <==> Misreads(c, r, EndFetch(root))
  {
    var n := r.fetchSeqno;
    var slot := r.ckpts[SlotIndex(c, n)];
    assert CkptSlotOk(c, net, slot) && slot.votes.Keys <= Upto(c.n);
    if Wins(slot.votes, c.CommitThreshold(), root) {
      WinningIs(c, r.ckpts, n, root);
    }
  }

  /** With so few voters there is one winner to choose from. */
  lemma WinningIs(c: Config, ckpts: seq<CkptSlot>, n: int, d: Digest)
    requires c.Valid() && |ckpts| == c.CheckpointSlots()
    requires var votes := ckpts[SlotIndex(c, n)].votes; votes.Keys <= Upto(c.n) && Wins(votes, c.CommitThreshold(), d)
    ensures Winning(c, ckpts, n) == Some(d)
  {
    OneWinner(c, ckpts[SlotIndex(c, n)].votes, d);
  }

  lemma OneWinner(c: Config, votes: map<int, Digest>, d: Digest)
    requires c.Valid() && votes.Keys <= Upto(c.n) && Wins(votes, c.CommitThreshold(), d)
    ensures HasWinner(votes, c.CommitThreshold())
    ensures forall e | Wins(votes, c.CommitThreshold(), e) :: e == d
  {
    forall e | Wins(votes, c.CommitThreshold(), e)
      ensures e == d
    {
      WinnerIsUnique(votes, c.n, c.f, d, e);
    }
  }
}
