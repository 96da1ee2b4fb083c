/** Where stored proposals come from: each one was sent by the primary of its view, so only
    a faulty primary can have two of them for one seqno in one view. */
module Proposals {
  import opened Types
  import opened Quorums
  import opened ViewChangeSpec
  import opened ReplicaSpec
  import opened Invariants
  import opened Protocol
  import opened Handlers
  import opened Safety

  /** What is stored now was stored before, or is the given proposal. */
  ghost predicate PpsFrom(ar: Region, ar': Region, added: Option<PrePrepare>) {
    forall n | ar'.HasPp(n) :: PpFrom(ar, ar', added, n)
  }

  ghost predicate PpFrom(ar: Region, ar': Region, added: Option<PrePrepare>, n: int)
    requires ar'.HasPp(n)
  {
    || (ar.HasPp(n) && ar.At(n).pp == ar'.At(n).pp)
    || ar'.At(n).pp == added
  }

  lemma PpsCompose(a: Region, b: Region, d: Region, added: Option<PrePrepare>)
    requires PpsFrom(a, b, added) && PpsFrom(b, d, None)
    ensures PpsFrom(a, d, added)
  {
    forall n | d.HasPp(n)
      ensures PpFrom(a, d, added, n)
    {
      assert PpFrom(b, d, None, n);
      assert PpFrom(a, b, added, n);
    }
  }

  lemma VotesStorePps(c: Config, ar: Region, n: int, q: int, d: Digest)
    ensures PpsFrom(ar, AddPrepare(c, ar, n, q, d), None) && PpsFrom(ar, AddCommit(c, ar, n, q, d), None)
  {
    var x, y := AddPrepare(c, ar, n, q, d), AddCommit(c, ar, n, q, d);
    forall m | x.HasPp(m)
      ensures PpFrom(ar, x, None, m)
    {
    }
    forall m | y.HasPp(m)
      ensures PpFrom(ar, y, None, m)
    {
    }
  }

  lemma CutsStorePps(ar: Region, h: int)
    ensures PpsFrom(ar, Truncate(ar, h), None)
    ensures ar.head <= h ==> PpsFrom(ar, ForceHead(ar, h), None)
  {
    var x := Truncate(ar, h);
    forall m | x.HasPp(m)
      ensures PpFrom(ar, x, None, m)
    {
    }
    if ar.head <= h {
      ForceIsTruncate(ar, h);
    }
  }

  lemma StableStoresNone(c: Config, r: Replica, n: int, mayFetch: bool)
    requires c.Valid() && Shaped(c, r)
    ensures PpsFrom(r.ar, MarkStable(c, r, n, mayFetch).ar, None)
  {
    CutsStorePps(r.ar, n + 1);
  }

  lemma CommitStoresNone(c: Config, r: Replica, n: int)
    ensures PpsFrom(r.ar, SendCommit(c, r, n).r.ar, None)
  {
    if r.ar.HasPp(n) {
      VotesStorePps(c, r.ar, n, r.id, r.ar.At(n).pp.value.digest);
    }
  }

  lemma NextExecution(c: Config, r: Replica, env: Env)
    requires c.Valid() && Shaped(c, r)
    ensures var n, end := r.lastExecuted + 1, ExecuteCommitted(c, r, env).r;
            if n > r.lastPrepared || !r.ar.ReadyAt(c, n) || !env.accepts(n) then end.ar == r.ar
            else end == ExecuteCommitted(c, ExecuteOne(c, r, env).r, env).r
  {
  }

  lemma {:induction false} ExecutingStoresNone(c: Config, r: Replica, env: Env)
    requires c.Valid() && Shaped(c, r)
    ensures PpsFrom(r.ar, ExecuteCommitted(c, r, env).r.ar, None)
    decreases r.lastPrepared - r.lastExecuted
  {
    NextExecution(c, r, env);
    var n, end := r.lastExecuted + 1, ExecuteCommitted(c, r, env).r;
    if n <= r.lastPrepared && r.ar.ReadyAt(c, n) && env.accepts(n) {
      var one := ExecuteOne(c, r, env).r;
      OneStoresNone(c, r, env);
      ExecutingStoresNone(c, one, env);
      PpsCompose(r.ar, one.ar, end.ar, None);
    }
  }

  lemma CheckpointStoresNone(c: Config, r: Replica, n: int, env: Env)
    requires c.Valid() && Shaped(c, r)
    ensures PpsFrom(r.ar, TakeCheckpoint(c, r, n, env).r.ar, None)
  {
    var k, d := SlotIndex(c, n), env.root(n);
    var r1 := r.(root := d, records := r.records[k := Some(Record(n, d))],
                 ckpts := r.ckpts[k := StoreInSlot(r.ckpts[k], c.maxVals, n, r.id, d)]);
    StableStoresNone(c, r1, n, env.mayFetch(n));
  }

  lemma OneStoresNone(c: Config, r: Replica, env: Env)
    requires c.Valid() && Shaped(c, r) && r.ar.HasPp(r.lastExecuted + 1)
    ensures PpsFrom(r.ar, ExecuteOne(c, r, env).r.ar, None)
  {
    var n := r.lastExecuted + 1;
    if n % c.interval == 0 {
      CheckpointStoresNone(c, Logged(r, n), n, env);
    }
  }

  lemma ExecuteIfStoresNone(c: Config, ar: Region, o: Outcome, n: int, env: Env)
    requires c.Valid() && Shaped(c, o.r) && PpsFrom(ar, o.r.ar, None)
    ensures PpsFrom(ar, ExecuteIfCommitted(c, o, n, env).r.ar, None)
  {
    ExecutingStoresNone(c, o.r, env);
    PpsCompose(ar, o.r.ar, ExecuteCommitted(c, o.r, env).r.ar, None);
  }

  lemma PrepareStoresNone(c: Config, r: Replica, v: int, n: int, d: Digest, q: int, env: Env)
    requires c.Valid() && Shaped(c, r)
    ensures PpsFrom(r.ar, HandlePrepare(c, r, v, n, d, q, env).r.ar, None)
  {
    VotesStorePps(c, r.ar, n, q, d);
    var r1 := r.(ar := AddPrepare(c, r.ar, n, q, d));
    if r1.ar.PreparedAt(c, n) {
      var r2 := r1.(lastPrepared := Max(r1.lastPrepared, n));
      var o3 := if r1.id !in r2.ar.At(n).commits then SendCommit(c, r2, n) else Outcome(r2, {});
      CommitStoresNone(c, r2, n);
      PpsCompose(r.ar, r2.ar, o3.r.ar, None);
      ExecuteIfStoresNone(c, r.ar, o3, n, env);
    }
  }

  lemma CommitsStoreNone(c: Config, r: Replica, v: int, n: int, d: Digest, q: int, env: Env)
    requires c.Valid() && Shaped(c, r)
    ensures PpsFrom(r.ar, HandleCommit(c, r, v, n, d, q, env).r.ar, None)
  {
    VotesStorePps(c, r.ar, n, q, d);
    var r1 := r.(ar := AddCommit(c, r.ar, n, q, d));
    var o2 := ResendCommit(c, r1, n, env.mayResend);
    CommitStoresNone(c, r1, n);
    PpsCompose(r.ar, r1.ar, o2.r.ar, None);
    ExecuteIfStoresNone(c, r.ar, o2, n, env);
  }

  lemma StoringStoresIt(c: Config, r: Replica, pp: PrePrepare)
    requires c.Valid()
    ensures PpsFrom(r.ar, StoreAndAnswer(c, r, pp).r.ar, Some(pp))
    ensures PpsFrom(r.ar, ProposePp(c, r, pp).r.ar, Some(pp))
  {
    if r.ar.InRange(pp.seqno) {
      var r1 := StorePp(r, pp);
      assert forall n | r1.ar.HasPp(n) :: PpFrom(r.ar, r1.ar, Some(pp), n);
      VotesStorePps(c, r1.ar, pp.seqno, r.id, pp.digest);
      PpsCompose(r.ar, r1.ar, AddPrepare(c, r1.ar, pp.seqno, r.id, pp.digest), Some(pp));
    }
  }

  lemma InstallStoresNone(c: Config, r: Replica, nv: NewView)
    requires r.ar.head <= nv.min + 1
    ensures PpsFrom(r.ar, InstallNewView(c, r, nv).ar, None)
  {
    var next := InstallNewView(c, r, nv).seqno;
    CutsStorePps(r.ar, nv.min + 1);
    CutsStorePps(ForceHead(r.ar, nv.min + 1), next);
    PpsCompose(r.ar, ForceHead(r.ar, nv.min + 1), Truncate(ForceHead(r.ar, nv.min + 1), next), None);
  }

  // ------------------------------------------------------------------- origin

  /** Every stored proposal was sent by the primary of its view. */
  ghost predicate FromPrimary(c: Config, net: set<Msg>, ar: Region)
    requires c.n >= 1
  {
    forall n | ar.HasPp(n) :: PrePrepareMsg(ar.At(n).pp.value, c.Primary(ar.At(n).pp.value.view)) in net
  }

  lemma OriginKept(c: Config, net: set<Msg>, net': set<Msg>, ar: Region, ar': Region, added: Option<PrePrepare>)
    requires c.n >= 1 && FromPrimary(c, net, ar) && net <= net' && PpsFrom(ar, ar', added)
    requires added.Some? ==> PrePrepareMsg(added.value, c.Primary(added.value.view)) in net'
    ensures FromPrimary(c, net', ar')
  {
    forall n | ar'.HasPp(n)
      ensures PrePrepareMsg(ar'.At(n).pp.value, c.Primary(ar'.At(n).pp.value.view)) in net'
    {
      assert PpFrom(ar, ar', added, n);
    }
  }

  lemma PrePrepareKeepsOrigin(c: Config, net: set<Msg>, r: Replica, pp: PrePrepare, p: int, env: Env)
    requires c.Valid() && Shaped(c, r) && FromPrimary(c, net, r.ar) && PrePrepareMsg(pp, p) in net
    requires KeepsHead(c, r, Deliver(PrePrepareMsg(pp, p)))
    ensures FromPrimary(c, net, HandlePrePrepare(c, r, pp, p).r.ar)
  {
    if PassesWindow(c, r, pp, p) {
      var r1 := if pp.view > r.view
                then AdvanceView(r, pp.view).(vi := ViewInfo(pp.view + 1, false, map[])) else r;
      CutsStorePps(r.ar, r.lastStable + 1);
      if pp.view > r.view {
        OriginKept(c, net, net, r.ar, r1.ar, None);
      }
      StoringStoresIt(c, r1, pp);
      OriginKept(c, net, net, r1.ar, StoreAndAnswer(c, r1, pp).r.ar, Some(pp));
    }
  }

  lemma ProposeKeepsOrigin(c: Config, net: set<Msg>, r: Replica, rset: RequestSet, ndet: Bytes)
    requires c.Valid() && FromPrimary(c, net, r.ar)
    ensures var o := Propose(c, r, rset, ndet); FromPrimary(c, net + o.out, o.r.ar)
  {
    var o, pp := Propose(c, r, rset, ndet), PrePrepare(r.view, r.seqno, OfRequests(rset), rset, ndet);
    if o.out != {} {
      StoringStoresIt(c, r, pp);
      OriginKept(c, net, net + o.out, r.ar, o.r.ar, Some(pp));
    }
  }

  lemma CheckpointMsgStoresNone(c: Config, r: Replica, n: int, d: Digest, q: int, env: Env)
    requires c.Valid() && Shaped(c, r)
    ensures PpsFrom(r.ar, HandleCheckpoint(c, r, n, d, q, env).ar, None)
  {
    var k := SlotIndex(c, n);
    StableStoresNone(c, r.(ckpts := r.ckpts[k := StoreInSlot(r.ckpts[k], c.maxVals, n, q, d)]), n, env.mayFetch(n));
  }

  /** Every message but a Pre_prepare stores nothing new. */
  lemma MessagesStoreNone(c: Config, r: Replica, m: Msg, env: Env)
    requires c.Valid() && Shaped(c, r) && KeepsHead(c, r, Deliver(m)) && !m.PrePrepareMsg?
    ensures PpsFrom(r.ar, Receive(c, r, m, env).r.ar, None)
  {
    match m {
      case PrepareMsg(v, n, d, q) => PrepareStoresNone(c, r, v, n, d, q, env);
      case CommitMsg(v, n, d, q) => CommitsStoreNone(c, r, v, n, d, q, env);
      case CheckpointMsg(n, d, q) => CheckpointMsgStoresNone(c, r, n, d, q, env);
      case ViewChangeMsg(vc) => ViewChangeStoresNone(c, r, vc);
      case NewViewMsg(nv, p) =>
        if AcceptsNewView(c, r, nv, p) {
          InstallStoresNone(c, r, nv);
        }
    }
  }

  lemma FetchStoresNone(c: Config, r: Replica, root: Digest, env: Env)
    requires c.Valid() && Shaped(c, r)
    ensures PpsFrom(r.ar, FinishFetch(c, r, root, env).ar, None)
  {
    StableStoresNone(c, r.(inFetch := false, root := root), r.fetchSeqno, env.mayFetch(r.fetchSeqno));
  }

  /** Every event but a Pre_prepare and a request stores nothing new. */
  lemma OthersStoreNone(c: Config, r: Replica, ev: Event, env: Env)
    requires c.Valid() && Shaped(c, r) && KeepsHead(c, r, ev)
    requires !(ev.Deliver? && ev.m.PrePrepareMsg?) && !ev.Request?
    ensures PpsFrom(r.ar, React(c, r, ev, env).r.ar, None)
  {
    match ev {
      case Deliver(m) => MessagesStoreNone(c, r, m, env);
      case DeliverStatus(st) => CutsStorePps(r.ar, r.lastStable + 1);
      case ViewTimeout =>
      case RepeatCommit(n) => CommitStoresNone(c, r, n);
      case RepeatCheckpoint(n) =>
      case BeginFetch(n) =>
      case FetchData(root) =>
      case EndFetch(root) => FetchStoresNone(c, r, root, env);
    }
  }

  lemma ViewChangeStoresNone(c: Config, r: Replica, vc: ViewChange)
    requires c.Valid() && KeepsHead(c, r, Deliver(ViewChangeMsg(vc)))
    ensures PpsFrom(r.ar, HandleViewChange(c, r, vc).r.ar, None)
  {
    if 0 <= vc.id < c.n {
      var (vi, collected) := Collect(r.vi, vc.id, vc);
      CutsStorePps(r.ar, r.lastStable + 1);
      if CompletesViewChange(c, r, vc) {
        InstallStoresNone(c, r.(vi := vi), Build(c, vi, r.view));
      }
    }
  }

  ghost predicate OriginInv(c: Config, s: Sys)
    requires c.n >= 1
  {
    forall i | i in s.replicas :: FromPrimary(c, s.net, s.replicas[i].ar)
  }

  lemma StepKeepsOrigin(c: Config, faulty: set<int>, s: Sys, l: Label, s': Sys)
    requires c.Valid() && OriginInv(c, s) && Next(c, faulty, s, l, s')
    ensures OriginInv(c, s')
  {
    forall j | j in s'.replicas
      ensures FromPrimary(c, s'.net, s'.replicas[j].ar)
    {
      match l {
        case Forge(m) =>
        case Act(i, ev, env) =>
          if j == i {
            ActorKeepsOrigin(c, s.net, s.replicas[i], ev, env);
          }
      }
    }
  }

  lemma ActorKeepsOrigin(c: Config, net: set<Msg>, r: Replica, ev: Event, env: Env)
    requires c.Valid() && Shaped(c, r) && KeepsHead(c, r, ev) && FromPrimary(c, net, r.ar)
    requires ev.Deliver? ==> ev.m in net
    ensures var o := React(c, r, ev, env); FromPrimary(c, net + o.out, o.r.ar)
  {
    if ev.Deliver? && ev.m.PrePrepareMsg? {
      PrePrepareKeepsOrigin(c, net, r, ev.m.pp, ev.m.primary, env);
    } else if ev.Request? {
      ProposeKeepsOrigin(c, net, r, ev.rset, ev.ndet);
    } else {
      OthersStoreNone(c, r, ev, env);
      OriginKept(c, net, net + React(c, r, ev, env).out, r.ar, React(c, r, ev, env).r.ar, None);
    }
  }

  lemma {:induction false} RunKeepsOrigin(c: Config, faulty: set<int>, run: seq<Sys>, labels: seq<Label>, k: nat)
    requires IsRun(c, faulty, run, labels) && k < |run|
    ensures OriginInv(c, run[k])
  {
    if k > 0 {
      RunKeepsOrigin(c, faulty, run, labels, k - 1);
      StepKeepsOrigin(c, faulty, run[k - 1], labels[k - 1], run[k]);
    }
  }

  /** Two correct replicas that hold different proposals for one seqno in one view, at whatever
      times, have a faulty primary to blame. */
  lemma SplitsBlameThePrimary(c: Config, faulty: set<int>, run: seq<Sys>, labels: seq<Label>, a: nat, b: nat,
                              i: int, j: int, n: int)
    requires IsRun(c, faulty, run, labels) && a <= b < |run| && i in run[a].replicas && j in run[b].replicas
    requires run[a].replicas[i].ar.HasPp(n) && run[b].replicas[j].ar.HasPp(n)
    requires var p, q := run[a].replicas[i].ar.At(n).pp.value, run[b].replicas[j].ar.At(n).pp.value;
             p.view == q.view && p.digest != q.digest
    ensures c.Primary(run[a].replicas[i].ar.At(n).pp.value.view) in faulty
  {
    var p, q := run[a].replicas[i].ar.At(n).pp.value, run[b].replicas[j].ar.At(n).pp.value;
    RunKeepsOrigin(c, faulty, run, labels, a);
    RunKeepsOrigin(c, faulty, run, labels, b);
    RunInv(c, faulty, run, labels, b);
    NothingGoesBack(c, faulty, run, labels, a, b);
    StoredIsAccepted(c, faulty, run, labels, a, i, n);
    StoredIsAccepted(c, faulty, run, labels, b, j, n);
    var primary := c.Primary(p.view);
    if primary !in faulty {
      EndorsesOnce(c, faulty, run[b], PrePrepareMsg(p, primary), PrePrepareMsg(q, primary), n, p.digest, q.digest);
    }
  }
}
