/** What holds over whole runs: agreement on committed digests and executed requests in
    every view, write-once proposals, agreement on stable checkpoints, and counters. */
module Safety {
  import opened Types
  import opened Quorums
  import opened ViewChangeSpec
  import opened ReplicaSpec
  import opened Invariants
  import opened Protocol
  import opened Handlers

  ghost predicate SysInv(c: Config, faulty: set<int>, s: Sys) {
    && Setting(c, faulty)
    && s.replicas.Keys == Upto(c.n) - faulty
    && forall i | i in s.replicas :: s.replicas[i].id == i && Sound(c, s.net, s.replicas[i])
  }

  /** `s'` is reached from `s` by going forward. */
  ghost predicate Later(s: Sys, s': Sys) {
    && s.net <= s'.net
    && s.replicas.Keys == s'.replicas.Keys
    && forall i | i in s.replicas :: Advances(s.replicas[i], s'.replicas[i])
  }

  lemma InitInv(c: Config, faulty: set<int>, s: Sys)
    requires Setting(c, faulty) && Init(c, faulty, s)
    ensures SysInv(c, faulty, s)
  {
    forall i | i in s.replicas
      ensures Sound(c, s.net, s.replicas[i])
    {
      assert WindowOk(c, s.net, Boot(c, i).ar);
      assert HistoryOk(Boot(c, i).ar, map[]);
    }
  }

  lemma ActKeeps(c: Config, faulty: set<int>, s: Sys, i: int, ev: Event, env: Env, s': Sys)
    requires SysInv(c, faulty, s) && Next(c, faulty, s, Act(i, ev, env), s')
    ensures SysInv(c, faulty, s') && Later(s, s')
    ensures Fresh(s.replicas[i], React(c, s.replicas[i], ev, env).out)
  {
    var o := React(c, s.replicas[i], ev, env);
    ReactGood(c, s.net, s.replicas[i], ev, env);
    forall j | j in s'.replicas
      ensures s'.replicas[j].id == j && Sound(c, s'.net, s'.replicas[j]) && Advances(s.replicas[j], s'.replicas[j])
    {
      if j != i {
        OthersSend(c, s.net, o.out, s.replicas[j]);
      }
    }
  }

  /** One step of the system, honest or forged, keeps the invariant and goes forward. */
  lemma StepKeeps(c: Config, faulty: set<int>, s: Sys, l: Label, s': Sys)
    requires SysInv(c, faulty, s) && Next(c, faulty, s, l, s')
    ensures SysInv(c, faulty, s') && Later(s, s')
  {
    match l {
      case Act(i, ev, env) => ActKeeps(c, faulty, s, i, ev, env, s');
      case Forge(m) =>
        forall j | j in s'.replicas
          ensures Sound(c, s'.net, s'.replicas[j])
        {
          OthersSend(c, s.net, {m}, s.replicas[j]);
        }
    }
  }

  /** The invariant holds in every state of every run. */
  lemma {:induction false} RunInv(c: Config, faulty: set<int>, run: seq<Sys>, labels: seq<Label>, k: nat)
    requires IsRun(c, faulty, run, labels) && k < |run|
    ensures SysInv(c, faulty, run[k])
  {
    if k == 0 {
      InitInv(c, faulty, run[0]);
    } else {
      RunInv(c, faulty, run, labels, k - 1);
      assert Next(c, faulty, run[k - 1], labels[k - 1], run[k]);
      StepKeeps(c, faulty, run[k - 1], labels[k - 1], run[k]);
    }
  }

  lemma LaterIsReflexive(s: Sys)
    ensures Later(s, s)
  {
  }

  lemma LaterIsTransitive(s: Sys, t: Sys, u: Sys)
    requires Later(s, t) && Later(t, u)
    ensures Later(s, u)
  {
    forall i | i in s.replicas
      ensures Advances(s.replicas[i], u.replicas[i])
    {
      assert Advances(s.replicas[i], t.replicas[i]) && Advances(t.replicas[i], u.replicas[i]);
      assert forall n | n in s.replicas[i].accepted :: n in t.replicas[i].accepted;
    }
  }

  /** Stable points, execution and prepared points, window heads, logs and accepted
      digests never go back, and no message is ever unsent. */
  lemma {:induction false} NothingGoesBack(c: Config, faulty: set<int>, run: seq<Sys>, labels: seq<Label>, a: nat, b: nat)
    requires IsRun(c, faulty, run, labels) && a <= b < |run|
    ensures Later(run[a], run[b])
    decreases b - a
  {
    if a == b {
      LaterIsReflexive(run[a]);
    } else {
      StepIsLater(c, faulty, run, labels, a);
      NothingGoesBack(c, faulty, run, labels, a + 1, b);
      LaterIsTransitive(run[a], run[a + 1], run[b]);
    }
  }

  lemma StepIsLater(c: Config, faulty: set<int>, run: seq<Sys>, labels: seq<Label>, k: nat)
    requires IsRun(c, faulty, run, labels) && k < |labels|
    ensures Later(run[k], run[k + 1])
  {
    RunStep(c, faulty, run, labels, k);
  }

  lemma RunStep(c: Config, faulty: set<int>, run: seq<Sys>, labels: seq<Label>, k: nat)
    requires IsRun(c, faulty, run, labels) && k < |labels|
    ensures Next(c, faulty, run[k], labels[k], run[k + 1])
    ensures SysInv(c, faulty, run[k]) && SysInv(c, faulty, run[k + 1]) && Later(run[k], run[k + 1])
  {
    RunInv(c, faulty, run, labels, k);
    StepKeeps(c, faulty, run[k], labels[k], run[k + 1]);
  }

  // --------------------------------------------------------------- agreement

  /** A correct replica endorses at most one digest for a seqno, ever. */
  lemma EndorsesOnce(c: Config, faulty: set<int>, s: Sys, m: Msg, m': Msg, n: int, d: Digest, e: Digest)
    requires SysInv(c, faulty, s) && m in s.net && m' in s.net
    requires m.Sender() == m'.Sender() && m.Sender() in s.replicas
    requires Endorses(m, n, d) && Endorses(m', n, e)
    ensures d == e
  {
    assert EndorsedOk(s.net, m.Sender(), s.replicas[m.Sender()].accepted);
  }

  /** Two commit quorums for one seqno carry one digest, whatever the views of the votes. */
  lemma QuorumsAgree(c: Config, faulty: set<int>, s: Sys, n: int, d: Digest, e: Digest)
    requires SysInv(c, faulty, s)
    requires CommitQuorum(c, s.net, n, d) && CommitQuorum(c, s.net, n, e)
    ensures d == e
  {
    var p :| IsCommitQuorum(c, s.net, n, d, p);
    var q :| IsCommitQuorum(c, s.net, n, e, q);
    var i := QuorumsMeet(c.n, c.f, faulty, p, q);
    var v :| CommitMsg(v, n, d, i) in s.net;
    var w :| CommitMsg(w, n, e, i) in s.net;
    EndorsesOnce(c, faulty, s, CommitMsg(v, n, d, i), CommitMsg(w, n, e, i), n, d, e);
  }

  /** Replica i holds a complete commit certificate for digest d at seqno n. */
  ghost predicate HoldsCertificate(c: Config, s: Sys, i: int, n: int, d: Digest) {
    && i in s.replicas
    && s.replicas[i].ar.InRange(n)
    && Wins(s.replicas[i].ar.At(n).commits, c.CommitThreshold(), d)
  }

  lemma CertificateHasQuorum(c: Config, faulty: set<int>, s: Sys, i: int, n: int, d: Digest)
    requires SysInv(c, faulty, s) && HoldsCertificate(c, s, i, n, d)
    ensures CommitQuorum(c, s.net, n, d)
  {
    SlotOk(c, s.net, s.replicas[i], n);
    WinnerHasQuorum(c, s.net, n, s.replicas[i].ar.At(n), d);
  }

  /** Agreement: no two correct replicas ever, in any views, hold complete commit
      certificates for the same seqno with different digests. */
  lemma Agreement(c: Config, faulty: set<int>, run: seq<Sys>, labels: seq<Label>, a: nat, b: nat,
                  i: int, j: int, n: int, d: Digest, e: Digest)
    requires IsRun(c, faulty, run, labels) && a <= b < |run|
    requires HoldsCertificate(c, run[a], i, n, d) && HoldsCertificate(c, run[b], j, n, e)
    ensures d == e
  {
    RunInv(c, faulty, run, labels, a);
    RunInv(c, faulty, run, labels, b);
    NothingGoesBack(c, faulty, run, labels, a, b);
    CertificateHasQuorum(c, faulty, run[a], i, n, d);
    CertificateHasQuorum(c, faulty, run[b], j, n, e);
    QuorumGrows(c, run[a].net, run[b].net, n, d);
    QuorumsAgree(c, faulty, run[b], n, d, e);
  }

  // ------------------------------------------------------------ executed logs

  lemma ExecutedHasQuorum(c: Config, faulty: set<int>, s: Sys, i: int, k: nat)
    requires SysInv(c, faulty, s) && i in s.replicas
    requires k < |s.replicas[i].log| && s.replicas[i].log[k].Executed?
    ensures CommitQuorum(c, s.net, s.replicas[i].log[k].seqno, OfRequests(s.replicas[i].log[k].rset))
  {
    assert EntryOk(c, s.net, s.replicas[i].log, k);
  }

  /** Any two correct replicas executed the same requests at every seqno both executed. */
  lemma ExecutionsAgree(c: Config, faulty: set<int>, run: seq<Sys>, labels: seq<Label>, a: nat, b: nat,
                        i: int, j: int, k: nat, l: nat)
    requires IsRun(c, faulty, run, labels) && a <= b < |run|
    requires i in run[a].replicas && k < |run[a].replicas[i].log| && run[a].replicas[i].log[k].Executed?
    requires j in run[b].replicas && l < |run[b].replicas[j].log| && run[b].replicas[j].log[l].Executed?
    requires run[a].replicas[i].log[k].seqno == run[b].replicas[j].log[l].seqno
    ensures run[a].replicas[i].log[k] == run[b].replicas[j].log[l]
  {
    var x, y := run[a].replicas[i].log[k], run[b].replicas[j].log[l];
    RunInv(c, faulty, run, labels, a);
    RunInv(c, faulty, run, labels, b);
    NothingGoesBack(c, faulty, run, labels, a, b);
    ExecutedHasQuorum(c, faulty, run[a], i, k);
    ExecutedHasQuorum(c, faulty, run[b], j, l);
    QuorumGrows(c, run[a].net, run[b].net, x.seqno, OfRequests(x.rset));
    QuorumsAgree(c, faulty, run[b], x.seqno, OfRequests(x.rset), OfRequests(y.rset));
  }

  /** A log runs through the seqnos without gap or repetition, except that a jump skips
      ahead; it ends at the execution point. */
  lemma LogsAreContiguous(c: Config, faulty: set<int>, run: seq<Sys>, labels: seq<Label>, a: nat, i: int)
    requires IsRun(c, faulty, run, labels) && a < |run| && i in run[a].replicas
    ensures var log := run[a].replicas[i].log;
            && Reached(log, |log|) == run[a].replicas[i].lastExecuted
            && forall k | 0 <= k < |log| ::
                 && log[k].seqno > Reached(log, k)
                 && (log[k].Executed? ==> log[k].seqno == Reached(log, k) + 1)
  {
    RunInv(c, faulty, run, labels, a);
    var log := run[a].replicas[i].log;
    forall k | 0 <= k < |log|
      ensures log[k].seqno > Reached(log, k)
      ensures log[k].Executed? ==> log[k].seqno == Reached(log, k) + 1
    {
      assert EntryOk(c, run[a].net, log, k);
    }
  }

  lemma {:induction false} UnjumpedSeqnos(c: Config, net: set<Msg>, log: seq<LogEntry>, lastExecuted: int, k: nat)
    requires LogOk(c, net, log, lastExecuted) && k <= |log|
    requires forall l | 0 <= l < k :: log[l].Executed?
    ensures Reached(log, k) == k
  {
    if k > 0 {
      UnjumpedSeqnos(c, net, log, lastExecuted, k - 1);
      assert EntryOk(c, net, log, k - 1);
    }
  }

  /** When neither replica skipped ahead, one log is a prefix of the other. */
  lemma LogsArePrefixes(c: Config, faulty: set<int>, run: seq<Sys>, labels: seq<Label>, a: nat, b: nat, i: int, j: int)
    requires IsRun(c, faulty, run, labels) && a <= b < |run| && i in run[a].replicas && j in run[b].replicas
    requires forall k | 0 <= k < |run[a].replicas[i].log| :: run[a].replicas[i].log[k].Executed?
    requires forall k | 0 <= k < |run[b].replicas[j].log| :: run[b].replicas[j].log[k].Executed?
    ensures run[a].replicas[i].log <= run[b].replicas[j].log || run[b].replicas[j].log <= run[a].replicas[i].log
  {
    var p, q := run[a].replicas[i].log, run[b].replicas[j].log;
    forall k | 0 <= k < |p| && k < |q|
      ensures p[k] == q[k]
    {
      SamePlaceSameEntry(c, faulty, run, labels, a, b, i, j, k);
    }
  }

  /** The entries at one place of two logs without jumps are for the same seqno. */
  lemma SamePlaceSameEntry(c: Config, faulty: set<int>, run: seq<Sys>, labels: seq<Label>, a: nat, b: nat, i: int, j: int, k: nat)
    requires IsRun(c, faulty, run, labels) && a <= b < |run| && i in run[a].replicas && j in run[b].replicas
    requires k < |run[a].replicas[i].log| && forall l | 0 <= l <= k :: run[a].replicas[i].log[l].Executed?
    requires k < |run[b].replicas[j].log| && forall l | 0 <= l <= k :: run[b].replicas[j].log[l].Executed?
    ensures run[a].replicas[i].log[k] == run[b].replicas[j].log[k]
  {
    UnjumpedAt(c, faulty, run, labels, a, i, k);
    UnjumpedAt(c, faulty, run, labels, b, j, k);
    ExecutionsAgree(c, faulty, run, labels, a, b, i, j, k, k);
  }

  lemma UnjumpedAt(c: Config, faulty: set<int>, run: seq<Sys>, labels: seq<Label>, a: nat, i: int, k: nat)
    requires IsRun(c, faulty, run, labels) && a < |run| && i in run[a].replicas
    requires k < |run[a].replicas[i].log| && forall l | 0 <= l <= k :: run[a].replicas[i].log[l].Executed?
    ensures run[a].replicas[i].log[k].seqno == k + 1
  {
    RunInv(c, faulty, run, labels, a);
    UnjumpedSeqnos(c, run[a].net, run[a].replicas[i].log, run[a].replicas[i].lastExecuted, k + 1);
  }

  // ------------------------------------------------------ write-once proposals

  /** Once a correct replica has stored or endorsed a digest for a seqno, everything it
      ever stores or sends for that seqno carries the same digest, in all views. */
  lemma ProposalsAreWriteOnce(c: Config, faulty: set<int>, run: seq<Sys>, labels: seq<Label>, a: nat, b: nat,
                              i: int, n: int)
    requires IsRun(c, faulty, run, labels) && a <= b < |run| && i in run[a].replicas
    requires n in run[a].replicas[i].accepted
    ensures var d := run[a].replicas[i].accepted[n];
            && i in run[b].replicas
            && (run[b].replicas[i].ar.HasPp(n) ==> run[b].replicas[i].ar.At(n).pp.value.digest == d)
            && forall m, e | m in run[b].net && m.Sender() == i && Endorses(m, n, e) :: e == d
  {
    RunInv(c, faulty, run, labels, b);
    NothingGoesBack(c, faulty, run, labels, a, b);
    assert Advances(run[a].replicas[i], run[b].replicas[i]);
    if run[b].replicas[i].ar.HasPp(n) {
      SlotOk(c, run[b].net, run[b].replicas[i], n);
    }
  }

  /** Storing a Pre_prepare is what fixes the digest. */
  lemma StoredIsAccepted(c: Config, faulty: set<int>, run: seq<Sys>, labels: seq<Label>, a: nat, i: int, n: int)
    requires IsRun(c, faulty, run, labels) && a < |run| && i in run[a].replicas
    requires run[a].replicas[i].ar.HasPp(n)
    ensures var r := run[a].replicas[i];
            && r.ar.At(n).pp.value.seqno == n
            && n in r.accepted && r.accepted[n] == r.ar.At(n).pp.value.digest
  {
    RunInv(c, faulty, run, labels, a);
    SlotOk(c, run[a].net, run[a].replicas[i], n);
  }

  /** Nothing new is proposed, voted for or listed below a window head that was ever reached. */
  lemma NothingBelowTheHead(c: Config, faulty: set<int>, run: seq<Sys>, labels: seq<Label>, a: nat, b: nat,
                            m: Msg, n: int, d: Digest)
    requires IsRun(c, faulty, run, labels) && a <= b < |labels|
    requires m in run[b + 1].net && m !in run[b].net && Endorses(m, n, d)
    requires m.Sender() in run[a].replicas
    ensures run[a].replicas[m.Sender()].ar.head <= n
  {
    RunStep(c, faulty, run, labels, b);
    NothingGoesBack(c, faulty, run, labels, a, b);
    NewMessageIsFresh(c, faulty, run[b], labels[b], run[b + 1], m);
  }

  lemma NewMessageIsFresh(c: Config, faulty: set<int>, s: Sys, l: Label, s': Sys, m: Msg)
    requires SysInv(c, faulty, s) && Next(c, faulty, s, l, s')
    requires m in s'.net && m !in s.net && m.Sender() in s.replicas
    ensures forall n, d | Endorses(m, n, d) :: s.replicas[m.Sender()].ar.head <= n
  {
    match l {
      case Act(i, ev, env) => ActKeeps(c, faulty, s, i, ev, env, s');
      case Forge(_) =>
    }
  }

  // ------------------------------------------------------------- checkpoints

  /** Replica i sees a checkpoint quorum for digest d in the slot of seqno n. */
  ghost predicate SeesStable(c: Config, s: Sys, i: int, n: int, d: Digest) {
    && c.Valid()
    && i in s.replicas
    && |s.replicas[i].ckpts| == c.CheckpointSlots()
    && var slot := s.replicas[i].ckpts[SlotIndex(c, n)];
       slot.seqno == n && Wins(slot.votes, c.CommitThreshold(), d)
  }

  /** No two correct replicas ever see stable checkpoints at one seqno with different digests. */
  lemma StableCheckpointsAgree(c: Config, faulty: set<int>, run: seq<Sys>, labels: seq<Label>, a: nat, b: nat,
                               i: int, j: int, n: int, d: Digest, e: Digest)
    requires IsRun(c, faulty, run, labels) && a <= b < |run|
    requires SeesStable(c, run[a], i, n, d) && SeesStable(c, run[b], j, n, e)
    ensures d == e
  {
    RunInv(c, faulty, run, labels, a);
    RunInv(c, faulty, run, labels, b);
    NothingGoesBack(c, faulty, run, labels, a, b);
    var p := StableHasVotes(c, faulty, run[a], i, n, d);
    var p' := StableHasVotes(c, faulty, run[b], j, n, e);
    var q := QuorumsMeet(c.n, c.f, faulty, p, p');
    OneCheckpointVote(c, faulty, run[b], q, n, d, e);
  }

  lemma OneCheckpointVote(c: Config, faulty: set<int>, s: Sys, q: int, n: int, d: Digest, e: Digest)
    requires SysInv(c, faulty, s) && q in s.replicas
    requires CheckpointMsg(n, d, q) in s.net && CheckpointMsg(n, e, q) in s.net
    ensures d == e
  {
    assert CkptVotesOk(s.net, q, s.replicas[q].lastExecuted);
  }

  lemma StableHasVotes(c: Config, faulty: set<int>, s: Sys, i: int, n: int, d: Digest) returns (p: set<int>)
    requires SysInv(c, faulty, s) && SeesStable(c, s, i, n, d)
    ensures p <= Upto(c.n) && |p| >= c.CommitThreshold()
    ensures forall q | q in p :: CheckpointMsg(n, d, q) in s.net
  {
    var slot := s.replicas[i].ckpts[SlotIndex(c, n)];
    assert CkptSlotOk(c, s.net, slot);
    p := Supporters(slot.votes, d);
  }

  // ---------------------------------------------------------------- counters

  /** The order of the counters, and the two records of the stable point. */
  lemma CountersAreOrdered(c: Config, faulty: set<int>, run: seq<Sys>, labels: seq<Label>, a: nat, i: int)
    requires IsRun(c, faulty, run, labels) && a < |run| && i in run[a].replicas
    ensures var r := run[a].replicas[i];
            && 0 <= r.quorumLastStable <= r.lastStable <= r.lastExecuted <= r.lastPrepared <= r.lastStable + c.window
            && r.stateLastStable == r.lastStable
  {
    RunInv(c, faulty, run, labels, a);
  }

  /** The self-rescue of tbft_replica_send_view_change is dead code: every View_change
      reports exactly the sender's last stable seqno. */
  lemma ViewChangeReportsStable(c: Config, faulty: set<int>, run: seq<Sys>, labels: seq<Label>, a: nat, i: int, vc: ViewChange)
    requires IsRun(c, faulty, run, labels) && a < |run| && i in run[a].replicas
    requires ViewChangeMsg(vc) in SendViewChange(c, run[a].replicas[i]).out
    ensures vc.ls == run[a].replicas[i].lastStable && Increasing(vc.reqs)
  {
    RunInv(c, faulty, run, labels, a);
    var r := run[a].replicas[i];
    PreparedListOk(c, run[a].net, r, if c.window < c.maxReqs then c.window else c.maxReqs, r.lastPrepared);
  }

  /** A prepare certificate holds only its Pre_prepare's digest, so the digest comparison
      at the end of tbft_prepared_cert_is_complete never fails. */
  lemma PrepareWinnerIsPp(c: Config, faulty: set<int>, run: seq<Sys>, labels: seq<Label>, a: nat, i: int, n: int, d: Digest)
    requires IsRun(c, faulty, run, labels) && a < |run| && i in run[a].replicas
    requires run[a].replicas[i].ar.InRange(n)
    requires Wins(run[a].replicas[i].ar.At(n).prepares, c.PrepareThreshold(), d)
    ensures run[a].replicas[i].ar.PreparedAt(c, n) && run[a].replicas[i].ar.At(n).pp.value.digest == d
  {
    RunInv(c, faulty, run, labels, a);
    SlotOk(c, run[a].net, run[a].replicas[i], n);
    WinnerIsPp(c, run[a].net, run[a].replicas[i].ar, n, d);
  }

  lemma WinnerIsPp(c: Config, net: set<Msg>, ar: Region, n: int, d: Digest)
    requires ar.InRange(n) && SliceOk(c, net, n, ar.At(n))
    requires Wins(ar.At(n).prepares, c.PrepareThreshold(), d)
    ensures ar.PreparedAt(c, n) && ar.At(n).pp.value.digest == d
  {
    var votes := ar.At(n).prepares;
    var q :| q in votes && votes[q] == d;
  }
}
