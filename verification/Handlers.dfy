/** Every handler keeps the invariants, never moves a counter, the window head or the
    histories backwards, and endorses nothing below the window. */
module Handlers {
  import opened Types
  import opened Quorums
  import opened ViewChangeSpec
  import opened ReplicaSpec
  import opened Invariants
  import opened Protocol

  // --------------------------------------------------------------- statements

  ghost predicate Extends(a: map<int, Digest>, b: map<int, Digest>) {
    forall n | n in a :: n in b && b[n] == a[n]
  }

  ghost predicate Prolongs(p: seq<LogEntry>, q: seq<LogEntry>) {
    |p| <= |q| && p == q[..|p|]
  }

  /** Everything that must never go back (the view is not among it). */
  ghost predicate Advances(r: Replica, r': Replica) {
    && r'.id == r.id
    && r.ar.head <= r'.ar.head
    && r.quorumLastStable <= r'.quorumLastStable
    && r.lastStable <= r'.lastStable
    && r.lastExecuted <= r'.lastExecuted
    && r.lastPrepared <= r'.lastPrepared
    && Prolongs(r.log, r'.log)
    && Extends(r.accepted, r'.accepted)
  }

  ghost predicate Fresh(r: Replica, out: set<Msg>) {
    forall m | m in out ::
      m.Sender() == r.id && forall n, d | Endorses(m, n, d) :: r.ar.head <= n
  }

  ghost predicate Good(c: Config, net: set<Msg>, r: Replica, o: Outcome) {
    && Sound(c, net + o.out, o.r)
    && Advances(r, o.r)
    && Fresh(r, o.out)
  }

  lemma Then(c: Config, net: set<Msg>, r: Replica, o1: Outcome, o2: Outcome)
    requires Good(c, net, r, o1) && Good(c, net + o1.out, o1.r, o2)
    ensures Good(c, net, r, Outcome(o2.r, o1.out + o2.out))
  {
    assert net + o1.out + o2.out == net + (o1.out + o2.out);
    forall n | n in r.accepted
      ensures n in o2.r.accepted && o2.r.accepted[n] == r.accepted[n]
    {
      assert n in o1.r.accepted;
    }
  }

  /** A silent change of state. */
  lemma Quietly(c: Config, net: set<Msg>, r: Replica, r': Replica)
    requires Sound(c, net, r') && Advances(r, r')
    ensures Good(c, net, r, Outcome(r', {}))
  {
    assert net + {} == net;
  }

  /** A silent change of state followed by something good. */
  lemma After(c: Config, net: set<Msg>, r: Replica, r1: Replica, o: Outcome)
    requires Advances(r, r1) && Good(c, net, r1, o)
    ensures Good(c, net, r, o)
  {
    forall n | n in r.accepted
      ensures n in o.r.accepted && o.r.accepted[n] == r.accepted[n]
    {
      assert n in r1.accepted;
    }
  }

  // ------------------------------------------------------------ mark_stable

  /** Cutting both regions at `n`, going forward only. */
  lemma CutsGood(c: Config, net: set<Msg>, r: Replica, n: int)
    requires Sound(c, net, r)
    ensures Sound(c, net, r.(ar := Truncate(r.ar, n + 1), ckpts := TruncateCkpts(r.ckpts, n)))
    ensures r.ar.head <= Truncate(r.ar, n + 1).head
  {
    CutKeeps(c, net, r.ar, r.accepted, n + 1);
    TruncateCkptsKeeps(c, net, r.ckpts, n);
  }

  lemma BecomeStableGood(c: Config, net: set<Msg>, r: Replica, n: int, confirmed: bool)
    requires Sound(c, net, r) && n > r.lastStable
    ensures Sound(c, net, BecomeStable(r, n, confirmed)) && Advances(r, BecomeStable(r, n, confirmed))
  {
    CutsGood(c, net, r, n);
    JumpKeeps(c, net, r.log, r.lastExecuted, n);
  }

  lemma MarkStableGood(c: Config, net: set<Msg>, r: Replica, n: int, mayFetch: bool)
    requires Sound(c, net, r) && Shaped(c, r)
    ensures Sound(c, net, MarkStable(c, r, n, mayFetch)) && Advances(r, MarkStable(c, r, n, mayFetch))
  {
    if n > r.lastStable {
      BecomeStableGood(c, net, r, n, Winning(c, r.ckpts, n).Some?);
    }
  }

  lemma JumpKeeps(c: Config, net: set<Msg>, log: seq<LogEntry>, lastExecuted: int, n: int)
    requires LogOk(c, net, log, lastExecuted)
    ensures LogOk(c, net, if lastExecuted < n then log + [Jumped(n)] else log, Max(lastExecuted, n))
  {
    if lastExecuted < n {
      AppendKeeps(c, net, log, lastExecuted, Jumped(n));
    }
  }

  lemma AppendKeeps(c: Config, net: set<Msg>, log: seq<LogEntry>, lastExecuted: int, e: LogEntry)
    requires LogOk(c, net, log, lastExecuted)
    requires match e
             case Executed(n, rset) => n == lastExecuted + 1 && CommitQuorum(c, net, n, OfRequests(rset))
             case Jumped(n) => n > lastExecuted
    ensures LogOk(c, net, log + [e], e.seqno)
  {
    var log' := log + [e];
    forall k | 0 <= k < |log'|
      ensures EntryOk(c, net, log', k)
    {
      if k < |log| {
        assert EntryOk(c, net, log, k);
        assert Reached(log', k) == Reached(log, k);
      } else {
        assert Reached(log', k) == lastExecuted;
      }
    }
  }

  // ---------------------------------------------------------------- sending

  lemma SendCommitGood(c: Config, net: set<Msg>, r: Replica, n: int)
    requires Sound(c, net, r)
    ensures Good(c, net, r, SendCommit(c, r, n))
  {
    if r.ar.HasPp(n) {
      SlotOk(c, net, r, n);
      var d := r.ar.At(n).pp.value.digest;
      var m := CommitMsg(r.view, n, d, r.id);
      OwnSend(c, net, m, r);
      CommitVoteKeeps(c, net + {m}, r, n, r.id, d);
    } else {
      Quietly(c, net, r, r);
    }
  }

  lemma SendPrepareGood(c: Config, net: set<Msg>, r: Replica, n: int)
    requires Sound(c, net, r)
    ensures Good(c, net, r, SendPrepare(c, r, n))
  {
    var o := SendPrepare(c, r, n);
    if o.out == {} {
      Quietly(c, net, r, r);
    } else {
      SlotOk(c, net, r, n);
      var d := r.ar.At(n).pp.value.digest;
      var m := PrepareMsg(r.view, n, d, r.id);
      OwnSend(c, net, m, r);
      PrepareVoteKeeps(c, net + {m}, r, n, r.id, d);
    }
  }

  // --------------------------------------------------------------- execution

  /** A complete commit certificate rests on a quorum of sent Commits. */
  lemma WinnerHasQuorum(c: Config, net: set<Msg>, n: int, sl: Slice, d: Digest)
    requires c.Valid() && SliceOk(c, net, n, sl) && Wins(sl.commits, c.CommitThreshold(), d)
    ensures CommitQuorum(c, net, n, d)
  {
    assert IsCommitQuorum(c, net, n, d, Supporters(sl.commits, d));
  }

  lemma ExecuteOneGood(c: Config, net: set<Msg>, r: Replica, env: Env)
    requires Sound(c, net, r) && Shaped(c, r)
    requires r.lastExecuted < r.lastPrepared && r.ar.ReadyAt(c, r.lastExecuted + 1)
    ensures Good(c, net, r, ExecuteOne(c, r, env))
  {
    var n := r.lastExecuted + 1;
    var logged, o := Logged(r, n), ExecuteOne(c, r, env);
    LoggedGood(c, net, r);
    if n % c.interval != 0 {
      assert o == Outcome(logged, {});
      Quietly(c, net, r, logged);
    } else {
      assert o == TakeCheckpoint(c, logged, n, env);
      CheckpointGood(c, net, logged, n, env);
      After(c, net, r, logged, o);
    }
  }

  /** Recording the execution of a committed request. */
  lemma LoggedGood(c: Config, net: set<Msg>, r: Replica)
    requires Sound(c, net, r)
    requires r.lastExecuted < r.lastPrepared && r.ar.ReadyAt(c, r.lastExecuted + 1)
    ensures Sound(c, net, Logged(r, r.lastExecuted + 1)) && Advances(r, Logged(r, r.lastExecuted + 1))
    ensures forall m, d | CheckpointMsg(m, d, r.id) in net :: m < r.lastExecuted + 1
  {
    var n := r.lastExecuted + 1;
    var pp := r.ar.At(n).pp.value;
    SlotOk(c, net, r, n);
    WinnerHasQuorum(c, net, n, r.ar.At(n), pp.digest);
    AppendKeeps(c, net, r.log, r.lastExecuted, Executed(n, pp.rset));
  }

  /** Taking a checkpoint at the seqno just executed and voting for it. */
  lemma CheckpointGood(c: Config, net: set<Msg>, r: Replica, n: int, env: Env)
    requires Sound(c, net, r) && Shaped(c, r) && n == r.lastExecuted
    requires forall m, d | CheckpointMsg(m, d, r.id) in net :: m < n
    ensures Good(c, net, r, TakeCheckpoint(c, r, n, env))
  {
    var d := env.root(n);
    var k := SlotIndex(c, n);
    var m := CheckpointMsg(n, d, r.id);
    var net' := net + {m};
    var r1 := r.(root := d, records := r.records[k := Some(Record(n, d))]);
    assert Sound(c, net', r1) by {
      LogGrows(c, net, net', r.log, r.lastExecuted);
      WindowGrows(c, net, net', r.ar);
      CkptsGrow(c, net, net', r.ckpts);
    }
    StoreCkptKeeps(c, net', r1.ckpts, n, r.id, d);
    var r2 := r1.(ckpts := r.ckpts[k := StoreInSlot(r.ckpts[k], c.maxVals, n, r.id, d)]);
    assert Sound(c, net', r2);
    MarkStableGood(c, net', r2, n, env.mayFetch(n));
  }

  lemma {:induction false} ExecuteGood(c: Config, net: set<Msg>, r: Replica, env: Env)
    requires Sound(c, net, r) && Shaped(c, r)
    ensures Good(c, net, r, ExecuteCommitted(c, r, env))
    decreases r.lastPrepared - r.lastExecuted
  {
    var n := r.lastExecuted + 1;
    if n > r.lastPrepared || !r.ar.ReadyAt(c, n) || !env.accepts(n) {
      Quietly(c, net, r, ExecuteCommitted(c, r, env).r);
    } else {
      var one := ExecuteOne(c, r, env);
      ExecuteOneGood(c, net, r, env);
      ExecuteGood(c, net + one.out, one.r, env);
      Then(c, net, r, one, ExecuteCommitted(c, one.r, env));
    }
  }

  // ---------------------------------------------------------------- handlers

  lemma CutStoresGood(c: Config, net: set<Msg>, r: Replica, v: int)
    requires Sound(c, net, r) && r.ar.head <= r.lastStable + 1
    ensures Sound(c, net, CutStores(r, v)) && Advances(r, CutStores(r, v))
  {
    ForceIsTruncate(r.ar, r.lastStable + 1);
    CutsGood(c, net, r, r.lastStable);
  }

  /** The counters are ordered already, so raising them changes nothing. */
  lemma RaisingIsIdle(c: Config, net: set<Msg>, r: Replica, v: int)
    requires Sound(c, net, r)
    ensures AdvanceView(r, v) == CutStores(r, v)
  {
  }

  lemma HandlePrePrepareGood(c: Config, net: set<Msg>, r: Replica, pp: PrePrepare, sender: int)
    requires Sound(c, net, r)
    requires PassesWindow(c, r, pp, sender) && pp.view > r.view ==> r.ar.head <= r.lastStable + 1
    ensures Good(c, net, r, HandlePrePrepare(c, r, pp, sender))
  {
    if !PassesWindow(c, r, pp, sender) {
      Quietly(c, net, r, r);
      return;
    }
    if pp.view > r.view {
      RaisingIsIdle(c, net, r, pp.view);
      CutStoresGood(c, net, r, pp.view);
      var r1 := AdvanceView(r, pp.view).(vi := ViewInfo(pp.view + 1, false, map[]));
      StoreAndPrepare(c, net, r1, pp);
      After(c, net, r, r1, StoreAndAnswer(c, r1, pp));
    } else {
      StoreAndPrepare(c, net, r, pp);
    }
  }

  /** Storing an acceptable Pre_prepare and answering it. */
  lemma StoreAndPrepare(c: Config, net: set<Msg>, r: Replica, pp: PrePrepare)
    requires Sound(c, net, r)
    ensures Good(c, net, r, StoreAndAnswer(c, r, pp))
  {
    if ProposalOk(c, pp) && r.ar.InRange(pp.seqno) && CanStorePp(r.ar.At(pp.seqno).pp, pp) {
      StoreKeeps(c, net, r, pp);
      var r2 := StorePp(r, pp).(seqno := Max(r.seqno, pp.seqno + 1));
      SendPrepareGood(c, net, r2, pp.seqno);
      After(c, net, r, r2, SendPrepare(c, r2, pp.seqno));
    } else {
      Quietly(c, net, r, r);
    }
  }

  lemma HandlePrepareGood(c: Config, net: set<Msg>, r: Replica, v: int, n: int, d: Digest, sender: int, env: Env)
    requires Sound(c, net, r) && Shaped(c, r)
    requires PrepareMsg(v, n, d, sender) in net
    ensures Good(c, net, r, HandlePrepare(c, r, v, n, d, sender, env))
  {
    var o := HandlePrepare(c, r, v, n, d, sender, env);
    if o == Outcome(r, {}) {
      Quietly(c, net, r, r);
      return;
    }
    PrepareVoteKeeps(c, net, r, n, sender, d);
    var r1 := r.(ar := AddPrepare(c, r.ar, n, sender, d));
    if r1.ar.PreparedAt(c, n) {
      var r2 := r1.(lastPrepared := Max(r1.lastPrepared, n));
      var o3 := if r1.id !in r2.ar.At(n).commits then SendCommit(c, r2, n) else Outcome(r2, {});
      SendCommitGood(c, net, r2, n);
      Quietly(c, net, r2, r2);
      After(c, net, r, r2, o3);
      ExecuteAfter(c, net, r, o3, n, env);
    } else {
      Quietly(c, net, r, r1);
    }
  }

  /** Executing what is committed after some other step. */
  lemma ExecuteAfter(c: Config, net: set<Msg>, r: Replica, o: Outcome, n: int, env: Env)
    requires Good(c, net, r, o) && Shaped(c, o.r)
    ensures Good(c, net, r, ExecuteIfCommitted(c, o, n, env))
  {
    ExecuteGood(c, net + o.out, o.r, env);
    Then(c, net, r, o, ExecuteCommitted(c, o.r, env));
  }

  lemma HandleCommitGood(c: Config, net: set<Msg>, r: Replica, v: int, n: int, d: Digest, sender: int, env: Env)
    requires Sound(c, net, r) && Shaped(c, r)
    requires CommitMsg(v, n, d, sender) in net
    ensures Good(c, net, r, HandleCommit(c, r, v, n, d, sender, env))
  {
    var o := HandleCommit(c, r, v, n, d, sender, env);
    if o == Outcome(r, {}) {
      Quietly(c, net, r, r);
      return;
    }
    CommitVoteKeeps(c, net, r, n, sender, d);
    var r1 := r.(ar := AddCommit(c, r.ar, n, sender, d));
    var o2 := ResendCommit(c, r1, n, env.mayResend);
    SendCommitGood(c, net, r1, n);
    Quietly(c, net, r1, r1);
    After(c, net, r, r1, o2);
    ExecuteAfter(c, net, r, o2, n, env);
  }

  lemma HandleCheckpointGood(c: Config, net: set<Msg>, r: Replica, n: int, d: Digest, sender: int, env: Env)
    requires Sound(c, net, r) && Shaped(c, r)
    requires CheckpointMsg(n, d, sender) in net
    ensures Good(c, net, r, Outcome(HandleCheckpoint(c, r, n, d, sender, env), {}))
  {
    if 0 <= sender < c.n {
      CkptVoteKeeps(c, net, r, n, sender, d, env);
    }
    Quietly(c, net, r, HandleCheckpoint(c, r, n, d, sender, env));
  }

  lemma CkptVoteKeeps(c: Config, net: set<Msg>, r: Replica, n: int, q: int, d: Digest, env: Env)
    requires Sound(c, net, r) && Shaped(c, r)
    requires 0 <= q < c.n && CheckpointMsg(n, d, q) in net
    ensures var k := SlotIndex(c, n);
            var r1 := r.(ckpts := r.ckpts[k := StoreInSlot(r.ckpts[k], c.maxVals, n, q, d)]);
            && Sound(c, net, r1)
            && Sound(c, net, MarkStable(c, r1, n, env.mayFetch(n)))
            && Advances(r, MarkStable(c, r1, n, env.mayFetch(n)))
  {
    StoreCkptKeeps(c, net, r.ckpts, n, q, d);
    var k := SlotIndex(c, n);
    var r1 := r.(ckpts := r.ckpts[k := StoreInSlot(r.ckpts[k], c.maxVals, n, q, d)]);
    MarkStableGood(c, net, r1, n, env.mayFetch(n));
  }

  lemma RepositionKeeps(c: Config, net: set<Msg>, ar: Region, accepted: map<int, Digest>, h: int, next: int)
    requires WindowOk(c, net, ar) && HistoryOk(ar, accepted) && ar.head <= h
    ensures var ar' := Reposition(c, ar, h, next);
            WindowOk(c, net, ar') && HistoryOk(ar', accepted) && h <= ar'.head
  {
    ForceIsTruncate(ar, h);
    CutKeeps(c, net, ar, accepted, h);
    CutKeeps(c, net, Truncate(ar, h), accepted, next);
  }

  lemma InstallGood(c: Config, net: set<Msg>, r: Replica, nv: NewView)
    requires Sound(c, net, r) && r.ar.head <= nv.min + 1
    ensures Sound(c, net, InstallNewView(c, r, nv)) && Advances(r, InstallNewView(c, r, nv))
  {
    var start := LastProof(nv.proofs, |nv.proofs|, Max(Max(nv.min, r.lastPrepared), r.lastExecuted));
    var r1 := MovedStores(c, net, r, nv.min, start + 1);
    var r2 := RaisedCounters(c, net, r1, nv.min);
    assert InstallNewView(c, r, nv) == r2.(view := nv.view, seqno := start + 1, vi := ViewInfo(nv.view + 1, false, map[]));
  }

  lemma MovedStores(c: Config, net: set<Msg>, r: Replica, n: int, next: int) returns (r': Replica)
    requires Sound(c, net, r) && r.ar.head <= n + 1
    ensures r' == r.(ar := Reposition(c, r.ar, n + 1, next), ckpts := TruncateCkpts(r.ckpts, n))
    ensures Sound(c, net, r') && r.ar.head <= r'.ar.head
  {
    RepositionKeeps(c, net, r.ar, r.accepted, n + 1, next);
    TruncateCkptsKeeps(c, net, r.ckpts, n);
    r' := r.(ar := Reposition(c, r.ar, n + 1, next), ckpts := TruncateCkpts(r.ckpts, n));
  }

  lemma RaisedCounters(c: Config, net: set<Msg>, r: Replica, n: int) returns (r': Replica)
    requires Sound(c, net, r)
    ensures r' == r.(lastStable := Max(r.lastStable, n),
                     stateLastStable := Max(r.stateLastStable, n),
                     lastExecuted := Max(r.lastExecuted, n),
                     lastPrepared := Max(r.lastPrepared, n),
                     log := if r.lastExecuted < n then r.log + [Jumped(n)] else r.log)
    ensures Sound(c, net, r') && Advances(r, r')
  {
    JumpKeeps(c, net, r.log, r.lastExecuted, n);
    r' := r.(lastStable := Max(r.lastStable, n),
             stateLastStable := Max(r.stateLastStable, n),
             lastExecuted := Max(r.lastExecuted, n),
             lastPrepared := Max(r.lastPrepared, n),
             log := if r.lastExecuted < n then r.log + [Jumped(n)] else r.log);
  }

  lemma CollectKeeps(c: Config, net: set<Msg>, r: Replica, vc: ViewChange)
    requires Sound(c, net, r) && 0 <= vc.id < c.n && ViewChangeMsg(vc) in net
    ensures Sound(c, net, r.(vi := Collect(r.vi, vc.id, vc).0))
  {
  }

  lemma HandleViewChangeGood(c: Config, net: set<Msg>, r: Replica, vc: ViewChange)
    requires Sound(c, net, r) && ViewChangeMsg(vc) in net
    requires KeepsHead(c, r, Deliver(ViewChangeMsg(vc)))
    ensures Good(c, net, r, HandleViewChange(c, r, vc))
  {
    if !(0 <= vc.id < c.n) {
      Quietly(c, net, r, r);
      return;
    }
    CollectKeeps(c, net, r, vc);
    var (vi, collected) := Collect(r.vi, vc.id, vc);
    var r1 := r.(vi := vi);
    Quietly(c, net, r, r1);
    if !collected {
      if vc.view > r.view {
        RaisingIsIdle(c, net, r1, vc.view);
        CutStoresGood(c, net, r1, vc.view);
        Quietly(c, net, r, HandleViewChange(c, r, vc).r);
      }
    } else if CompletesViewChange(c, r, vc) {
      var nv := Build(c, vi, r.view);
      var m := NewViewMsg(nv, r.id);
      OwnSend(c, net, m, r1);
      InstallGood(c, net + {m}, r1, nv);
    }
  }

  lemma HandleNewViewGood(c: Config, net: set<Msg>, r: Replica, nv: NewView, sender: int)
    requires Sound(c, net, r)
    requires AcceptsNewView(c, r, nv, sender) ==> r.ar.head <= nv.min + 1
    ensures Good(c, net, r, Outcome(HandleNewView(c, r, nv, sender), {}))
  {
    if AcceptsNewView(c, r, nv, sender) {
      InstallGood(c, net, r, nv);
    }
    Quietly(c, net, r, HandleNewView(c, r, nv, sender));
  }

  lemma HandleStatusViewGood(c: Config, net: set<Msg>, r: Replica, st: Status)
    requires Sound(c, net, r)
    requires AcceptsStatusView(c, r, st) ==> r.ar.head <= r.lastStable + 1
    ensures Good(c, net, r, Outcome(HandleStatusView(c, r, st), {}))
  {
    if AcceptsStatusView(c, r, st) {
      CutStoresGood(c, net, r, st.view);
    }
    Quietly(c, net, r, HandleStatusView(c, r, st));
  }

  lemma ProposeGood(c: Config, net: set<Msg>, r: Replica, rset: RequestSet, ndet: Bytes)
    requires Sound(c, net, r)
    ensures Good(c, net, r, Propose(c, r, rset, ndet))
  {
    var o := Propose(c, r, rset, ndet);
    if o.out == {} {
      Quietly(c, net, r, r);
    } else {
      var n := r.seqno;
      var pp := PrePrepare(r.view, n, OfRequests(rset), rset, ndet);
      StoreKeeps(c, net, r, pp);
      var r1 := StorePp(r, pp);
      var m1, m2 := PrePrepareMsg(pp, r.id), PrepareMsg(r.view, n, pp.digest, r.id);
      OwnSend(c, net, m1, r1);
      OwnSend(c, net + {m1}, m2, r1);
      PrepareVoteKeeps(c, net + {m1} + {m2}, r1, n, r.id, pp.digest);
      assert net + {m1} + {m2} == net + o.out;
    }
  }

  /** A View_change lists, once each, only seqnos with their accepted digests. */
  lemma {:induction false} PreparedListOk(c: Config, net: set<Msg>, r: Replica, cap: int, s: int)
    requires Sound(c, net, r)
    ensures var reqs := PreparedList(c, r, cap, s);
            && Increasing(reqs)
            && forall k | 0 <= k < |reqs| ::
                 && r.ar.head <= reqs[k].seqno
                 && reqs[k].seqno in r.accepted && r.accepted[reqs[k].seqno] == reqs[k].digest
    decreases s - r.lastStable
  {
    if s > r.lastStable {
      PreparedListOk(c, net, r, cap, s - 1);
      if r.ar.PreparedAt(c, s) {
        SlotOk(c, net, r, s);
      }
    }
  }

  lemma SendViewChangeGood(c: Config, net: set<Msg>, r: Replica)
    requires Sound(c, net, r)
    ensures Good(c, net, r, SendViewChange(c, r))
  {
    var o := SendViewChange(c, r);
    var vc: ViewChange :| o.out == {ViewChangeMsg(vc)};
    var cap := if c.window < c.maxReqs then c.window else c.maxReqs;
    PreparedListOk(c, net, r, cap, r.lastPrepared);
    OwnSend(c, net, ViewChangeMsg(vc), r);
  }

  lemma ResendCheckpointGood(c: Config, net: set<Msg>, r: Replica, n: int)
    requires Sound(c, net, r) && Shaped(c, r)
    ensures Good(c, net, r, Outcome(r, ResendCheckpoint(c, r, n)))
  {
    assert net + ResendCheckpoint(c, r, n) == net;
  }

  lemma FinishFetchGood(c: Config, net: set<Msg>, r: Replica, root: Digest, env: Env)
    requires Sound(c, net, r) && Shaped(c, r)
    ensures Good(c, net, r, Outcome(FinishFetch(c, r, root, env), {}))
  {
    var r1 := r.(inFetch := false, root := root);
    MarkStableGood(c, net, r1, r.fetchSeqno, env.mayFetch(r.fetchSeqno));
    Quietly(c, net, r, FinishFetch(c, r, root, env));
  }

  lemma ReceiveGood(c: Config, net: set<Msg>, r: Replica, m: Msg, env: Env)
    requires Sound(c, net, r) && Shaped(c, r) && m in net && KeepsHead(c, r, Deliver(m))
    ensures Good(c, net, r, Receive(c, r, m, env))
  {
    match m {
      case PrePrepareMsg(pp, p) => HandlePrePrepareGood(c, net, r, pp, p);
      case PrepareMsg(v, n, d, q) => HandlePrepareGood(c, net, r, v, n, d, q, env);
      case CommitMsg(v, n, d, q) => HandleCommitGood(c, net, r, v, n, d, q, env);
      case CheckpointMsg(n, d, q) => HandleCheckpointGood(c, net, r, n, d, q, env);
      case ViewChangeMsg(vc) => HandleViewChangeGood(c, net, r, vc);
      case NewViewMsg(nv, p) => HandleNewViewGood(c, net, r, nv, p);
    }
  }

  /** Every reaction of a correct replica is good. */
  lemma ReactGood(c: Config, net: set<Msg>, r: Replica, ev: Event, env: Env)
    requires Sound(c, net, r) && Shaped(c, r) && KeepsHead(c, r, ev)
    requires ev.Deliver? ==> ev.m in net
    ensures Good(c, net, r, React(c, r, ev, env))
  {
    match ev {
      case Deliver(m) => ReceiveGood(c, net, r, m, env);
      case DeliverStatus(st) => HandleStatusViewGood(c, net, r, st);
      case Request(rset, ndet) => ProposeGood(c, net, r, rset, ndet);
      case ViewTimeout => SendViewChangeGood(c, net, r);
      case RepeatCommit(n) => SendCommitGood(c, net, r, n);
      case RepeatCheckpoint(n) => ResendCheckpointGood(c, net, r, n);
      case BeginFetch(_) => Quietly(c, net, r, React(c, r, ev, env).r);
      case FetchData(_) => Quietly(c, net, r, React(c, r, ev, env).r);
      case EndFetch(root) => FinishFetchGood(c, net, r, root, env);
    }
  }
}
