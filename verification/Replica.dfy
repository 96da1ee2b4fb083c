/** What the replica's stores keep by themselves, whatever messages arrive. */
module Tidiness {
  import opened Types
  import opened Quorums
  import opened ViewChangeSpec
  import opened ReplicaSpec
  import opened PreparedCerts

  /** A slice for seqno `n`: its Pre_prepare is for `n`, Prepares match it, only replicas commit. */
  ghost predicate SliceTidy(c: Config, n: int, sl: Slice) {
    && (sl.pp.Some? ==> sl.pp.value.seqno == n)
    && PreparesMatch(sl.pp, sl.prepares)
    && (forall q | q in sl.commits :: 0 <= q < c.n)
  }

  ghost predicate WindowTidy(c: Config, ar: Region) {
    |ar.slots| == c.window && forall k | 0 <= k < |ar.slots| :: SliceTidy(c, ar.head + k, ar.slots[k])
  }

  ghost predicate CkptsTidy(c: Config, ckpts: seq<CkptSlot>)
    requires c.interval >= 1
  {
    && |ckpts| == c.CheckpointSlots()
    && forall k | 0 <= k < |ckpts| :: forall q | q in ckpts[k].votes :: 0 <= q < c.n
  }

  ghost predicate CollectedTidy(c: Config, vi: ViewInfo) {
    forall q | q in vi.received :: 0 <= q < c.n
  }

  lemma BootTidy(c: Config, id: int)
    requires c.Valid()
    ensures WindowTidy(c, Boot(c, id).ar) && CkptsTidy(c, Boot(c, id).ckpts) && CollectedTidy(c, Boot(c, id).vi)
  {
  }

  lemma SlotTidy(c: Config, ar: Region, n: int)
    requires WindowTidy(c, ar) && ar.InRange(n)
    ensures SliceTidy(c, n, ar.At(n))
  {
    assert SliceTidy(c, ar.head + (n - ar.head), ar.slots[n - ar.head]);
  }

  lemma PutTidy(c: Config, ar: Region, n: int, sl: Slice)
    requires WindowTidy(c, ar) && ar.InRange(n) && SliceTidy(c, n, sl)
    ensures WindowTidy(c, ar.Put(n, sl))
  {
  }

  lemma StorePpTidy(c: Config, ar: Region, pp: PrePrepare)
    requires WindowTidy(c, ar) && ar.InRange(pp.seqno) && CanStorePp(ar.At(pp.seqno).pp, pp)
    ensures WindowTidy(c, ar.Put(pp.seqno, ar.At(pp.seqno).(pp := Some(pp))))
  {
    SlotTidy(c, ar, pp.seqno);
    PutTidy(c, ar, pp.seqno, ar.At(pp.seqno).(pp := Some(pp)));
  }

  lemma AddPrepareTidy(c: Config, ar: Region, n: int, q: int, d: Digest)
    requires WindowTidy(c, ar)
    requires ar.InRange(n) ==> ar.HasPp(n) && ar.At(n).pp.value.digest == d
    ensures WindowTidy(c, AddPrepare(c, ar, n, q, d))
  {
    if ar.InRange(n) {
      SlotTidy(c, ar, n);
      PutTidy(c, ar, n, ar.At(n).(prepares := AddVote(ar.At(n).prepares, q, d, c.maxVals)));
    }
  }

  lemma AddCommitTidy(c: Config, ar: Region, n: int, q: int, d: Digest)
    requires WindowTidy(c, ar) && 0 <= q < c.n
    ensures WindowTidy(c, AddCommit(c, ar, n, q, d))
  {
    if ar.InRange(n) {
      SlotTidy(c, ar, n);
      PutTidy(c, ar, n, ar.At(n).(commits := AddVote(ar.At(n).commits, q, d, c.maxVals)));
    }
  }

  lemma TruncateTidy(c: Config, ar: Region, h: int)
    requires WindowTidy(c, ar)
    ensures WindowTidy(c, Truncate(ar, h))
  {
    var ar' := Truncate(ar, h);
    forall k | 0 <= k < |ar'.slots|
      ensures SliceTidy(c, ar'.head + k, ar'.slots[k])
    {
      if h > ar.head && k + (h - ar.head) < |ar.slots| {
        assert SliceTidy(c, ar.head + (k + (h - ar.head)), ar.slots[k + (h - ar.head)]);
      }
    }
  }

  lemma StoreTidy(c: Config, ckpts: seq<CkptSlot>, k: int, n: int, q: int, d: Digest)
    requires c.Valid() && CkptsTidy(c, ckpts) && 0 <= k < |ckpts| && 0 <= q < c.n
    ensures CkptsTidy(c, ckpts[k := StoreInSlot(ckpts[k], c.maxVals, n, q, d)])
  {
  }

  lemma CutTidy(c: Config, ckpts: seq<CkptSlot>, stable: int)
    requires c.Valid() && CkptsTidy(c, ckpts)
    ensures CkptsTidy(c, TruncateCkpts(ckpts, stable))
  {
  }

  /** The quorum for the stored digest is the only one there can be. */
  lemma OnlyQuorum(c: Config, ar: Region, n: int, d: Digest)
    requires c.Valid() && WindowTidy(c, ar) && ar.InRange(n)
    requires Wins(ar.At(n).commits, c.CommitThreshold(), d)
    ensures ar.ReadyAt(c, n) <==> ar.HasPp(n) && ar.At(n).pp.value.digest == d
  {
    SlotTidy(c, ar, n);
    if ar.ReadyAt(c, n) {
      WinnerIsUnique(ar.At(n).commits, c.n, c.f, d, ar.At(n).pp.value.digest);
    }
  }
}

/** The replica object: its counters and stores changed in place by the handlers, each
    proved to do what its function in `ReplicaSpec` says. */
module Replicas {
  import opened Types
  import opened Quorums
  import opened ViewChangeSpec
  import S = ReplicaSpec
  import P = Protocol
  import opened PreparedCerts
  import opened AgreementRegions
  import opened CheckpointRegions
  import opened ViewInfos
  import opened Tidiness

  method EmptyStores(c: Config, bits: nat, id: int, maxReplicas: nat)
    returns (a: AgreementRegion, k: CheckpointRegion, v: Collector, ghost repr: set<object>)
    requires c.Valid() && c.window == Pow2(bits) && c.n <= maxReplicas
    ensures a.Valid() && k.Valid() && v.Valid()
    ensures fresh(repr) && repr == {a, k, v} + a.Repr + k.Repr + v.Repr
    ensures a.Repr !! k.Repr && a.Repr !! v.Repr && k.Repr !! v.Repr
    ensures a.c == c && k.c == c && v.c == c && k.maxReplicas == maxReplicas == v.received.Length
    ensures var r := S.Boot(c, id); a.model == r.ar && k.model == r.ckpts && v.model == r.vi
    ensures WindowTidy(c, a.model) && CkptsTidy(c, k.model) && CollectedTidy(c, v.model)
  {
    a := new AgreementRegion(c, bits);
    k := new CheckpointRegion(c, maxReplicas);
    v := new Collector(c, maxReplicas);
    repr := {a, k, v} + a.Repr + k.Repr + v.Repr;
    BootTidy(c, id);
  }

  class Replica {
    const c: Config
    const id: int
    const ar: AgreementRegion
    const cr: CheckpointRegion
    const vi: Collector
    const records: array<Option<S.Record>>
    var view: int
    var seqno: int
    var lastStable: int
    var quorumLastStable: int
    var lastPrepared: int
    var lastExecuted: int
    var pendingFill: int
    var root: Digest
    var stateLastStable: int
    var inFetch: bool
    var fetchSeqno: int

    /** History: the first digest accepted for each seqno, and what was executed. */
    ghost var accepted: map<int, Digest>
    ghost var log: seq<S.LogEntry>
    ghost const Repr: set<object>

    ghost predicate Parts()
      reads this, Repr
    {
      && c.Valid() && 0 <= id < c.n
      && this in Repr && records in Repr
      && ar in Repr && ar.Repr <= Repr && this !in ar.Repr && records !in ar.Repr
      && cr in Repr && cr.Repr <= Repr && this !in cr.Repr && records !in cr.Repr
      && vi in Repr && vi.Repr <= Repr && this !in vi.Repr && records !in vi.Repr
      && ar.Repr !! cr.Repr && ar.Repr !! vi.Repr && cr.Repr !! vi.Repr
      && ar.Valid() && cr.Valid() && vi.Valid()
      && ar.c == c && cr.c == c && vi.c == c
      && c.n <= cr.maxReplicas && c.n <= vi.received.Length
      && records.Length == c.CheckpointSlots()
    }

    ghost predicate Valid()
      reads this, Repr
    {
      && Parts()
      && WindowTidy(c, ar.model)
      && CkptsTidy(c, cr.model)
      && CollectedTidy(c, vi.model)
    }

    /** The replica as a value. */
    ghost function Abs(): (r: S.Replica)
      reads this, Repr
      requires Parts()
      ensures S.Shaped(c, r)
    {
      S.Replica(id, view, seqno, lastStable, quorumLastStable, lastPrepared, lastExecuted, pendingFill,
                ar.model, cr.model, vi.model, root, records[..], stateLastStable, inFetch, fetchSeqno, accepted, log)
    }

    constructor (c: Config, bits: nat, id: int, maxReplicas: nat)
      requires c.Valid() && c.window == Pow2(bits) && 0 <= id < c.n <= maxReplicas
      ensures Valid() && fresh(Repr)
      ensures this.c == c && Abs() == S.Boot(c, id)
    {
      var a, k, v;
      ghost var repr;
      a, k, v, repr := EmptyStores(c, bits, id, maxReplicas);
      var recs := new Option<S.Record>[c.CheckpointSlots()](_ => None);
      this.c, this.id, ar, cr, vi, records := c, id, a, k, v, recs;
      view, seqno, lastStable, quorumLastStable, lastPrepared, lastExecuted, pendingFill := 0, 1, 0, 0, 0, 0, 0;
      root, stateLastStable, inFetch, fetchSeqno, accepted, log := Zero, 0, false, 0, map[], [];
      Repr := {this, recs} + repr;
      new;
      assert records[..] == seq(c.CheckpointSlots(), _ => None);
    }

    predicate InWindow(n: int)
      reads this
    {
      n > lastStable && n <= lastStable + c.window
    }

    predicate IsPrimary()
      reads this
      requires c.n >= 1
    {
      c.Primary(view) == id
    }

    /** Changing counters disturbs no store. */
    twostate lemma StoresUntouched()
      requires old(Valid())
      requires forall o | o in Repr && o != this :: unchanged(o)
      ensures Valid()
      ensures ar.model == old(ar.model) && cr.model == old(cr.model) && vi.model == old(vi.model)
      ensures records[..] == old(records[..])
    {
    }

    // ------------------------------------------------------ changes of one store

    method RecordPrepare(n: int, d: Digest, sender: int, mine: bool) returns (ok: bool)
      requires Valid()
      requires ar.model.InRange(n) ==> ar.model.HasPp(n) && ar.model.At(n).pp.value.digest == d
      modifies Repr
      ensures Valid()
      ensures ok <==> old(ar.model).InRange(n) && S.CanVote(old(ar.model).At(n).prepares, sender, d, c.maxVals)
      ensures Abs() == old(Abs()).(ar := S.AddPrepare(c, old(ar.model), n, sender, d))
    {
      AddPrepareTidy(c, ar.model, n, sender, d);
      ok := ar.AddPrepare(n, d, sender, mine);
    }

    method RecordCommit(n: int, d: Digest, sender: int, mine: bool) returns (ok: bool)
      requires Valid() && 0 <= sender < c.n
      modifies Repr
      ensures Valid()
      ensures ok <==> old(ar.model).InRange(n) && S.CanVote(old(ar.model).At(n).commits, sender, d, c.maxVals)
      ensures Abs() == old(Abs()).(ar := S.AddCommit(c, old(ar.model), n, sender, d))
    {
      AddCommitTidy(c, ar.model, n, sender, d);
      ok := ar.AddCommit(n, d, sender, mine);
    }

    method StorePp(pp: PrePrepare) returns (ok: bool)
      requires Valid()
      modifies Repr
      ensures Valid()
      ensures ok <==> old(ar.model).InRange(pp.seqno) && S.CanStorePp(old(ar.model).At(pp.seqno).pp, pp)
      ensures Abs() == if ok then S.StorePp(old(Abs()), pp) else old(Abs())
    {
      if ar.model.InRange(pp.seqno) && S.CanStorePp(ar.model.At(pp.seqno).pp, pp) {
        StorePpTidy(c, ar.model, pp);
      }
      ok := ar.StorePp(pp.seqno, pp);
      if ok && pp.seqno !in accepted {
        accepted := accepted[pp.seqno := pp.digest];
      }
    }

    method CutWindow(h: int)
      requires Valid()
      modifies Repr
      ensures Valid()
      ensures Abs() == old(Abs()).(ar := S.Truncate(old(ar.model), h))
    {
      TruncateTidy(c, ar.model, h);
      ar.Truncate(h);
    }

    /** Truncating and then assigning the head, to a head that is not behind. */
    method CutAndSetHead(h: int)
      requires Valid() && ar.model.head <= h
      modifies Repr
      ensures Valid()
      ensures Abs() == old(Abs()).(ar := S.ForceHead(old(ar.model), h))
    {
      TruncateTidy(c, ar.model, h);
      ar.Truncate(h);
      ar.SetHead(h);
    }

    method CutCheckpoints(stable: int)
      requires Valid()
      modifies Repr
      ensures Valid()
      ensures Abs() == old(Abs()).(ckpts := S.TruncateCkpts(old(cr.model), stable))
    {
      CutTidy(c, cr.model, stable);
      cr.Truncate(stable);
    }

    method StoreCheckpoint(n: int, sender: int, d: Digest) returns (stable: bool)
      requires Valid() && 0 <= sender < c.n
      modifies Repr
      ensures Valid()
      ensures var k := S.SlotIndex(c, n);
              && Abs() == old(Abs()).(ckpts := old(cr.model)[k := S.StoreInSlot(old(cr.model)[k], c.maxVals, n, sender, d)])
              && (stable <==> S.StoreMakesStable(c, old(cr.model)[k], n, sender, d))
    {
      StoreTidy(c, cr.model, S.SlotIndex(c, n), n, sender, d);
      stable := cr.Store(n, sender, d);
    }

    method ResetCollector(target: int)
      requires Valid()
      modifies Repr
      ensures Valid()
      ensures Abs() == old(Abs()).(vi := ViewInfo(target, false, map[]))
    {
      vi.ResetTo(target);
      vi.SetInProgress(false);
    }

    // ------------------------------------------------------------ sending votes

    /** tbft_replica_send_prepare. */
    method SendPrepare(n: int) returns (out: set<Msg>)
      requires Valid()
      modifies Repr
      ensures Valid()
      ensures S.Outcome(Abs(), out) == S.SendPrepare(c, old(Abs()), n)
    {
      out := {};
      if IsPrimary() {
        return;
      }
      var pp := ar.LoadPp(n);
      if pp.None? {
        return;
      }
      var recorded := RecordPrepare(n, pp.value.digest, id, true);
      if !recorded {
        return;
      }
      out := {PrepareMsg(view, n, pp.value.digest, id)};
    }

    /** tbft_replica_send_commit. */
    method SendCommit(n: int) returns (out: set<Msg>)
      requires Valid()
      modifies Repr
      ensures Valid()
      ensures S.Outcome(Abs(), out) == S.SendCommit(c, old(Abs()), n)
    {
      out := {};
      var pp := ar.LoadPp(n);
      if pp.None? {
        return;
      }
      var first := RecordCommit(n, pp.value.digest, id, true);
      out := {CommitMsg(view, n, pp.value.digest, id)};
    }

    // -------------------------------------------------------------- mark_stable

    /** tbft_replica_mark_stable. */
    method MarkStable(n: int, mayFetch: bool)
      requires Valid()
      modifies Repr
      ensures Valid()
      ensures Abs() == S.MarkStable(c, old(Abs()), n, mayFetch)
    {
      if n <= lastStable {
        return;
      }
      var winning := StableDigest(n);
      if winning.Some? && winning.value != root {
        if (!inFetch || n > fetchSeqno) && mayFetch {
          inFetch, fetchSeqno := true, n;
        }
        return;
      }
      BecomeStable(n, winning.Some?);
    }

    method StableDigest(n: int) returns (winning: Option<Digest>)
      requires Valid()
      ensures winning == S.Winning(c, cr.model, n)
    {
      assert cr.model[S.SlotIndex(c, n)].votes.Keys <= Upto(c.n);
      winning := cr.WinningDigest(n);
    }

    method BecomeStable(n: int, confirmed: bool)
      requires Valid()
      modifies Repr
      ensures Valid()
      ensures Abs() == S.BecomeStable(old(Abs()), n, confirmed)
    {
      MoveStable(n, confirmed);
      JumpTo(n);
      ForgetFill(n);
      CutWindow(n + 1);
      CutCheckpoints(n);
    }

    method MoveStable(n: int, confirmed: bool)
      requires Valid()
      modifies this
      ensures Valid()
      ensures Abs() == old(Abs()).(
                         stateLastStable := Max(old(stateLastStable), n),
                         lastStable := n,
                         quorumLastStable := if confirmed then n else old(quorumLastStable))
    {
      stateLastStable := Max(stateLastStable, n);
      lastStable := n;
      if confirmed {
        quorumLastStable := n;
      }
      StoresUntouched();
    }

    /** Execution and prepared points that lag behind jump ahead. */
    method JumpTo(n: int)
      requires Valid()
      modifies this
      ensures Valid()
      ensures Abs() == old(Abs()).(
                         lastPrepared := Max(old(lastPrepared), n),
                         lastExecuted := Max(old(lastExecuted), n),
                         log := if old(lastExecuted) < n then old(log) + [S.Jumped(n)] else old(log))
    {
      lastPrepared := Max(lastPrepared, n);
      if lastExecuted < n {
        lastExecuted, log := n, log + [S.Jumped(n)];
      }
      StoresUntouched();
    }

    method ForgetFill(n: int)
      requires Valid()
      modifies this
      ensures Valid()
      ensures Abs() == old(Abs()).(pendingFill := if 0 < old(pendingFill) <= n then 0 else old(pendingFill))
    {
      if pendingFill > 0 && pendingFill <= n {
        pendingFill := 0;
      }
    }

    // ---------------------------------------------------------------- execution

    /** The checkpoint the execution loop takes at a multiple of the interval. */
    method TakeCheckpoint(n: int, env: S.Env) returns (out: set<Msg>)
      requires Valid()
      modifies Repr
      ensures Valid()
      ensures S.Outcome(Abs(), out) == S.TakeCheckpoint(c, old(Abs()), n, env)
    {
      root := env.root(n);
      records[S.SlotIndex(c, n)] := Some(S.Record(n, root));
      ghost var r1 := Abs();
      assert r1 == old(Abs()).(root := root, records := old(records[..])[S.SlotIndex(c, n) := Some(S.Record(n, root))]);
      out := {CheckpointMsg(n, root, id)};
      var stable := StoreCheckpoint(n, id, root);
      if stable {
        MarkStable(n, env.mayFetch(n));
      }
    }

    /** One iteration of the execution loop. */
    method ExecuteOne(n: int, env: S.Env) returns (out: set<Msg>)
      requires Valid() && n == lastExecuted + 1 && ar.model.HasPp(n)
      modifies Repr
      ensures Valid()
      ensures S.Outcome(Abs(), out) == S.ExecuteOne(c, old(Abs()), env)
    {
      log := log + [S.Executed(n, ar.model.At(n).pp.value.rset)];
      lastExecuted := n;
      out := {};
      if n % c.interval == 0 {
        assert Abs() == S.Logged(old(Abs()), n);
        out := TakeCheckpoint(n, env);
      }
    }

    /** Whether seqno `n` is committed for its stored Pre_prepare. */
    method IsReady(n: int) returns (ready: bool)
      requires Valid()
      ensures ready <==> ar.model.ReadyAt(c, n)
    {
      var committed := ar.CommitValue(n);
      if committed.None? {
        return false;
      }
      OnlyQuorum(c, ar.model, n, committed.value);
      var pp := ar.LoadPp(n);
      ready := pp.Some? && pp.value.digest == committed.value;
    }

    method AskToFill(n: int)
      requires Valid()
      modifies this
      ensures Valid()
      ensures Abs() == if !vi.model.inProgress && old(pendingFill) != n then old(Abs()).(pendingFill := n) else old(Abs())
    {
      if !vi.inProgress && pendingFill != n {
        pendingFill := n;
      }
    }

    /** Executing seqno `n` if it can be; otherwise the loop ends here. */
    method ExecuteNext(n: int, env: S.Env) returns (executed: bool, out: set<Msg>)
      requires Valid() && n == lastExecuted + 1 && n <= lastPrepared
      modifies Repr
      ensures Valid()
      ensures executed ==> old(ar.model).ReadyAt(c, n) && env.accepts(n)
                           && S.Outcome(Abs(), out) == S.ExecuteOne(c, old(Abs()), env)
      ensures !executed ==> !(old(ar.model).ReadyAt(c, n) && env.accepts(n))
                            && S.Outcome(Abs(), out) == S.ExecuteCommitted(c, old(Abs()), env)
    {
      executed, out := false, {};
      var ready := IsReady(n);
      if !ready {
        AskToFill(n);
        return;
      }
      if !env.accepts(n) {
        return;
      }
      out := ExecuteOne(n, env);
      executed := true;
    }

    /** tbft_replica_execute_committed. */
    method ExecuteCommitted(env: S.Env) returns (out: set<Msg>)
      requires Valid()
      modifies Repr
      ensures Valid()
      ensures S.Outcome(Abs(), out) == S.ExecuteCommitted(c, old(Abs()), env)
    {
      out := {};
      var n := lastExecuted + 1;
      ghost var whole := S.ExecuteCommitted(c, Abs(), env);
      while n <= lastPrepared
        invariant Valid() && n == lastExecuted + 1
        invariant var rest := S.ExecuteCommitted(c, Abs(), env); S.Outcome(rest.r, out + rest.out) == whole
        decreases lastPrepared - n
      {
        var executed, more := ExecuteNext(n, env);
        out := out + more;
        if !executed {
          return;
        }
        n := n + 1;
      }
    }

    // ------------------------------------------------------------ view advances

    /** The next seqno to propose stays beyond everything known. */
    method BumpSeqno()
      requires Valid()
      modifies this
      ensures Valid()
      ensures Abs() == old(Abs()).(
                         seqno := Max(old(seqno), Max(Max(old(lastStable), old(lastPrepared)), old(lastExecuted)) + 1))
    {
      var startSeq := lastStable;
      if lastPrepared > startSeq {
        startSeq := lastPrepared;
      }
      if lastExecuted > startSeq {
        startSeq := lastExecuted;
      }
      if seqno < startSeq + 1 {
        seqno := startSeq + 1;
      }
    }

    method CutStores(v: int)
      requires Valid() && ar.model.head <= lastStable + 1
      modifies Repr
      ensures Valid()
      ensures Abs() == S.CutStores(old(Abs()), v)
    {
      view := v;
      StoresUntouched();
      CutCheckpoints(lastStable);
      CutAndSetHead(lastStable + 1);
    }

    method AdvanceView(v: int)
      requires Valid() && ar.model.head <= lastStable + 1
      modifies Repr
      ensures Valid()
      ensures Abs() == S.AdvanceView(old(Abs()), v)
    {
      if lastPrepared < lastStable {
        lastPrepared := lastStable;
      }
      if lastExecuted < lastStable {
        lastExecuted := lastStable;
      }
      StoresUntouched();
      CutStores(v);
    }

    /** Installing a New_view, the own one or a received one. */
    method InstallNewView(nv: NewView)
      requires Valid() && ar.model.head <= nv.min + 1
      modifies Repr
      ensures Valid()
      ensures Abs() == S.InstallNewView(c, old(Abs()), nv)
    {
      EnterView(nv);
      RaiseStable(nv.min);
      JumpTo(nv.min);
      CutCheckpoints(nv.min);
      Reposition(nv.min + 1);
      ResetCollector(view + 1);
    }

    method RaiseStable(n: int)
      requires Valid()
      modifies this
      ensures Valid()
      ensures Abs() == old(Abs()).(
                         lastStable := Max(old(lastStable), n), stateLastStable := Max(old(stateLastStable), n))
    {
      lastStable, stateLastStable := Max(lastStable, n), Max(stateLastStable, n);
    }

    /** The window moves to `h`, and on to the next seqno to propose if that is beyond it. */
    method Reposition(h: int)
      requires Valid() && ar.model.head <= h
      modifies Repr
      ensures Valid()
      ensures Abs() == old(Abs()).(ar := S.Reposition(c, old(ar.model), h, seqno))
    {
      CutAndSetHead(h);
      if seqno >= ar.head + c.window {
        CutWindow(seqno);
      }
    }

    /** The new view, and the next seqno to propose in it. */
    method EnterView(nv: NewView)
      requires Valid()
      modifies this
      ensures Valid()
      ensures Abs() == old(Abs()).(
                         view := nv.view,
                         seqno := S.LastProof(nv.proofs, |nv.proofs|,
                                              Max(Max(nv.min, old(lastPrepared)), old(lastExecuted))) + 1)
    {
      var startSeq := nv.min;
      if lastPrepared > startSeq {
        startSeq := lastPrepared;
      }
      if lastExecuted > startSeq {
        startSeq := lastExecuted;
      }
      ghost var start := startSeq;
      for p := 0 to |nv.proofs|
        invariant startSeq == S.LastProof(nv.proofs, p, start)
      {
        if nv.proofs[p].seqno > startSeq {
          startSeq := nv.proofs[p].seqno;
        }
      }
      view, seqno := nv.view, startSeq + 1;
    }

    // ----------------------------------------------------------------- handlers

    /** The request hashes to the digest and its client signed it: the checks the source
        makes on the embedded request, in its order. */
    method CheckProposal(pp: PrePrepare) returns (ok: bool)
      requires Valid()
      ensures ok <==> S.ProposalOk(c, pp)
    {
      if pp.rset.NoRequest? {
        return false;
      }
      if pp.digest != OfRequests(pp.rset) {
        return false;
      }
      if !pp.rset.Holds? {
        return false;
      }
      if pp.rset.request.cid < 0 || pp.rset.request.cid >= c.principals {
        return false;
      }
      ok := pp.rset.request.signed;
    }

    /** tbft_replica_handle_pre_prepare. */
    method HandlePrePrepare(pp: PrePrepare, sender: int) returns (out: set<Msg>)
      requires Valid() && P.KeepsHead(c, Abs(), P.Deliver(PrePrepareMsg(pp, sender)))
      modifies Repr
      ensures Valid()
      ensures S.Outcome(Abs(), out) == S.HandlePrePrepare(c, old(Abs()), pp, sender)
    {
      out := {};
      var expected := c.Primary(pp.view);
      if pp.view < view || id == expected || !InWindow(pp.seqno) || sender != expected {
        return;
      }
      if pp.view > view {
        AdvanceView(pp.view);
        ResetCollector(view + 1);
      }
      out := StoreAndAnswer(pp);
    }

    /** Checking the proposal, storing it and answering with a Prepare. */
    method StoreAndAnswer(pp: PrePrepare) returns (out: set<Msg>)
      requires Valid()
      modifies Repr
      ensures Valid()
      ensures S.Outcome(Abs(), out) == S.StoreAndAnswer(c, old(Abs()), pp)
    {
      out := {};
      var fine := CheckProposal(pp);
      if !fine {
        return;
      }
      var stored := StorePp(pp);
      if !stored {
        return;
      }
      RaiseSeqno(pp.seqno + 1);
      out := SendPrepare(pp.seqno);
    }

    method RaiseSeqno(n: int)
      requires Valid()
      modifies this
      ensures Valid()
      ensures Abs() == old(Abs()).(seqno := Max(old(seqno), n))
    {
      if seqno < n {
        seqno := n;
      }
    }

    method IsPrepared(n: int) returns (r: bool)
      requires Valid()
      ensures r <==> ar.model.PreparedAt(c, n)
    {
      if ar.model.InRange(n) {
        SlotTidy(c, ar.model, n);
      }
      r := ar.Prepared(n);
    }

    /** tbft_replica_handle_prepare. */
    method HandlePrepare(v: int, n: int, d: Digest, sender: int, env: S.Env) returns (out: set<Msg>)
      requires Valid()
      modifies Repr
      ensures Valid()
      ensures S.Outcome(Abs(), out) == S.HandlePrepare(c, old(Abs()), v, n, d, sender, env)
    {
      out := {};
      if v != view || !InWindow(n) || sender < 0 || sender >= c.n || sender == id {
        return;
      }
      out := CountPrepare(n, d, sender, env);
    }

    method CountPrepare(n: int, d: Digest, sender: int, env: S.Env) returns (out: set<Msg>)
      requires Valid()
      modifies Repr
      ensures Valid()
      ensures S.Outcome(Abs(), out) == S.CountPrepare(c, old(Abs()), n, d, sender, env)
    {
      out := {};
      var pp := ar.LoadPp(n);
      if pp.None? || pp.value.digest != d {
        return;
      }
      var counted := RecordPrepare(n, d, sender, false);
      if !counted {
        return;
      }
      var prepared := IsPrepared(n);
      if prepared {
        out := OnPrepared(n, env);
      }
    }

    /** What happens once seqno `n` is prepared: vote to commit, and execute if possible. */
    method OnPrepared(n: int, env: S.Env) returns (out: set<Msg>)
      requires Valid() && ar.model.InRange(n)
      modifies Repr
      ensures Valid()
      ensures S.Outcome(Abs(), out) == S.OnPrepared(c, old(Abs()), n, env)
    {
      out := {};
      if n > lastPrepared {
        lastPrepared := n;
      }
      StoresUntouched();
      var voted := ar.HasCommitOf(n, id);
      if !voted {
        out := SendCommit(n);
      }
      out := ExecuteIfCommitted(n, out, env);
    }

    /** The last step of both vote handlers; `sent` is what was sent before. */
    method ExecuteIfCommitted(n: int, sent: set<Msg>, env: S.Env) returns (out: set<Msg>)
      requires Valid()
      modifies Repr
      ensures Valid()
      ensures S.Outcome(Abs(), out) == S.ExecuteIfCommitted(c, S.Outcome(old(Abs()), sent), n, env)
    {
      out := sent;
      var committed := ar.CommitValue(n);
      if committed.Some? {
        var more := ExecuteCommitted(env);
        out := out + more;
      }
    }

    /** tbft_replica_handle_commit. */
    method HandleCommit(v: int, n: int, d: Digest, sender: int, env: S.Env) returns (out: set<Msg>)
      requires Valid()
      modifies Repr
      ensures Valid()
      ensures S.Outcome(Abs(), out) == S.HandleCommit(c, old(Abs()), v, n, d, sender, env)
    {
      out := {};
      if v != view || !InWindow(n) || sender < 0 || sender >= c.n || sender == id {
        return;
      }
      out := CountCommit(n, d, sender, env);
    }

    method CountCommit(n: int, d: Digest, sender: int, env: S.Env) returns (out: set<Msg>)
      requires Valid() && 0 <= sender < c.n
      modifies Repr
      ensures Valid()
      ensures S.Outcome(Abs(), out) == S.CountCommit(c, old(Abs()), n, d, sender, env)
    {
      out := {};
      var pp := ar.LoadPp(n);
      if pp.Some? && pp.value.digest != d {
        return;
      }
      var counted := RecordCommit(n, d, sender, false);
      if !counted {
        return;
      }
      out := OnCommitCounted(n, env);
    }

    method OnCommitCounted(n: int, env: S.Env) returns (out: set<Msg>)
      requires Valid()
      modifies Repr
      ensures Valid()
      ensures S.Outcome(Abs(), out) ==
                S.ExecuteIfCommitted(c, S.ResendCommit(c, old(Abs()), n, env.mayResend), n, env)
    {
      out := ResendCommit(n, env.mayResend);
      out := ExecuteIfCommitted(n, out, env);
    }

    /** Repeating the own Commit while prepared but not committed. */
    method ResendCommit(n: int, mayResend: bool) returns (out: set<Msg>)
      requires Valid()
      modifies Repr
      ensures Valid()
      ensures S.Outcome(Abs(), out) == S.ResendCommit(c, old(Abs()), n, mayResend)
    {
      out := {};
      var prepared := IsPrepared(n);
      var committed := ar.CommitValue(n);
      if prepared && committed.None? {
        if mayResend {
          out := SendCommit(n);
        }
      }
    }

    /** tbft_replica_handle_checkpoint. */
    method HandleCheckpoint(n: int, d: Digest, sender: int, env: S.Env)
      requires Valid()
      modifies Repr
      ensures Valid()
      ensures Abs() == S.HandleCheckpoint(c, old(Abs()), n, d, sender, env)
    {
      if n <= 0 || n % c.interval != 0 {
        return;
      }
      if sender < 0 || sender >= c.n || sender == id {
        return;
      }
      var stable := StoreCheckpoint(n, sender, d);
      if stable {
        MarkStable(n, env.mayFetch(n));
      }
    }

    method Collect(vc: ViewChange) returns (collected: bool)
      requires Valid() && 0 <= vc.id < c.n
      modifies Repr
      ensures Valid()
      ensures var (after, ok) := ViewChangeSpec.Collect(old(vi.model), vc.id, vc);
              Abs() == old(Abs()).(vi := after) && collected == ok
    {
      collected := vi.CollectVc(vc.id, vc);
    }

    /** tbft_replica_handle_view_change.  The source's branch for a View_change beyond the
        target is never taken: collecting it has already raised the target. */
    method HandleViewChange(vc: ViewChange) returns (out: set<Msg>)
      requires Valid() && P.KeepsHead(c, Abs(), P.Deliver(ViewChangeMsg(vc)))
      modifies Repr
      ensures Valid()
      ensures S.Outcome(Abs(), out) == S.HandleViewChange(c, old(Abs()), vc)
    {
      out := {};
      if vc.id < 0 || vc.id >= c.n {
        return;
      }
      var collected := Collect(vc);
      if !collected {
        if vc.view > view {
          BumpSeqno();
          AdvanceView(vc.view);
        }
        return;
      }
      if vc.view > vi.targetView {
        assert false;
      }
      if c.Primary(vi.targetView) == id && vi.nReceived >= c.CommitThreshold() {
        var nv := vi.BuildNewView(view);
        InstallNewView(nv);
        out := {NewViewMsg(nv, id)};
      }
    }

    /** tbft_replica_handle_new_view. */
    method HandleNewView(nv: NewView, sender: int)
      requires Valid() && P.KeepsHead(c, Abs(), P.Deliver(NewViewMsg(nv, sender)))
      modifies Repr
      ensures Valid()
      ensures Abs() == S.HandleNewView(c, old(Abs()), nv, sender)
    {
      if nv.view < view || sender != c.Primary(nv.view) {
        return;
      }
      assert vi.model.received.Keys <= Upto(c.n);
      var verified := vi.VerifyNv(nv);
      if !verified || |nv.proofs| > c.window {
        return;
      }
      InstallNewView(nv);
    }

    /** The part of the Status handler that catches up to a later view. */
    method HandleStatusView(st: Status)
      requires Valid() && P.KeepsHead(c, Abs(), P.DeliverStatus(st))
      modifies Repr
      ensures Valid()
      ensures Abs() == S.HandleStatusView(c, old(Abs()), st)
    {
      if st.id < 0 || st.id >= c.n || st.id == id || st.view <= view {
        return;
      }
      if st.view - view > 10 && st.lastStable < lastStable + c.window {
        return;
      }
      BumpSeqno();
      CutStores(st.view);
      if vi.inProgress {
        ResetCollector(view + 1);
      }
    }

    /** tbft_replica_send_pre_prepare for the request at the front of the queue. */
    method SendPrePrepare(rset: RequestSet, ndet: Bytes) returns (out: set<Msg>)
      requires Valid()
      modifies Repr
      ensures Valid()
      ensures S.Outcome(Abs(), out) == S.Propose(c, old(Abs()), rset, ndet)
    {
      out := {};
      if !IsPrimary() || vi.inProgress || !InWindow(seqno) {
        return;
      }
      out := ProposePp(PrePrepare(view, seqno, OfRequests(rset), rset, ndet));
    }

    method ProposePp(pp: PrePrepare) returns (out: set<Msg>)
      requires Valid()
      modifies Repr
      ensures Valid()
      ensures S.Outcome(Abs(), out) == S.ProposePp(c, old(Abs()), pp)
    {
      out := {};
      var stored := StoreOwn(pp);
      if stored {
        out := {PrePrepareMsg(pp, id), PrepareMsg(pp.view, pp.seqno, pp.digest, id)};
        SetSeqno(pp.seqno + 1);
      }
    }

    method SetSeqno(n: int)
      requires Valid()
      modifies this
      ensures Valid()
      ensures Abs() == old(Abs()).(seqno := n)
    {
      seqno := n;
    }

    /** The primary stores its proposal and counts itself as having prepared it. */
    method StoreOwn(pp: PrePrepare) returns (stored: bool)
      requires Valid()
      modifies Repr
      ensures Valid()
      ensures stored <==> old(ar.model).InRange(pp.seqno) && S.CanStorePp(old(ar.model).At(pp.seqno).pp, pp)
      ensures stored ==> var r1 := S.StorePp(old(Abs()), pp);
                         Abs() == r1.(ar := S.AddPrepare(c, r1.ar, pp.seqno, id, pp.digest))
      ensures !stored ==> Abs() == old(Abs())
    {
      stored := StorePp(pp);
      if stored {
        var voted := RecordPrepare(pp.seqno, pp.digest, id, true);
      }
    }

    /** The prepared entries for a View_change, oldest first. */
    method ListPrepared(cap: int) returns (reqs: seq<ReqInfo>)
      requires Valid()
      ensures reqs == S.PreparedList(c, Abs(), cap, lastPrepared)
    {
      reqs := [];
      var s := lastStable + 1;
      while s <= lastPrepared
        invariant s <= Max(lastPrepared, lastStable) + 1 && lastStable < s
        invariant reqs == S.PreparedList(c, Abs(), cap, s - 1)
      {
        reqs := ListOne(reqs, s, cap);
        s := s + 1;
      }
    }

    method ListOne(before: seq<ReqInfo>, s: int, cap: int) returns (reqs: seq<ReqInfo>)
      requires Valid()
      ensures reqs == if ar.model.PreparedAt(c, s) && |before| < cap
                      then before + [ReqInfo(s, view, ar.model.At(s).pp.value.digest)] else before
    {
      reqs := before;
      var prepared := IsPrepared(s);
      if prepared && |reqs| < cap {
        var pp := ar.LoadPp(s);
        reqs := reqs + [ReqInfo(s, view, pp.value.digest)];
      }
    }

    method Retarget(target: int)
      requires Valid()
      modifies Repr
      ensures Valid()
      ensures Abs() == old(Abs()).(
                         vi := (if old(vi.model).target != target then Reset(old(vi.model), target)
                                else old(vi.model)).(inProgress := true))
    {
      if vi.targetView != target {
        vi.ResetTo(target);
      }
      vi.SetInProgress(true);
    }

    /** tbft_replica_send_view_change. */
    method SendViewChange() returns (out: set<Msg>)
      requires Valid()
      modifies Repr
      ensures Valid()
      ensures S.Outcome(Abs(), out) == S.SendViewChange(c, old(Abs()))
    {
      var target := view + 1;
      if vi.targetView > target {
        target := vi.targetView;
      }
      ghost var r := Abs();
      Retarget(target);
      var ls := lastStable;
      if lastExecuted > ls + c.window {
        ls := lastExecuted - c.window;
      }
      var cap := if c.window < c.maxReqs then c.window else c.maxReqs;
      var reqs := ListPrepared(cap);
      SameList(r, Abs(), cap, lastPrepared);
      var vc := ViewChange(target, ls, reqs, id);
      out := {ViewChangeMsg(vc)};
      CollectOwn(vc);
    }

    method CollectOwn(vc: ViewChange)
      requires Valid() && vc.id == id
      modifies Repr
      ensures Valid()
      ensures Abs() == old(Abs()).(
                         vi := if id in old(vi.model).received then old(vi.model)
                               else ViewChangeSpec.Collect(old(vi.model), id, vc).0)
    {
      var own := vi.HasFrom(id);
      if !own {
        var collected := Collect(vc);
      }
    }

    /** The list does not depend on what has been collected. */
    lemma {:induction false} SameList(r: S.Replica, r': S.Replica, cap: int, s: int)
      requires r' == r.(vi := r'.vi)
      ensures S.PreparedList(c, r, cap, s) == S.PreparedList(c, r', cap, s)
      decreases s - r.lastStable
    {
      if s > r.lastStable {
        SameList(r, r', cap, s - 1);
      }
    }

    /** The end of a completed state fetch, where the root is what was fetched. */
    method FinishFetch(fetchedRoot: Digest, env: S.Env)
      requires Valid()
      modifies Repr
      ensures Valid()
      ensures Abs() == S.FinishFetch(c, old(Abs()), fetchedRoot, env)
    {
      if !inFetch {
        return;
      }
      var n := fetchSeqno;
      inFetch, root := false, fetchedRoot;
      StoresUntouched();
      MarkStable(n, env.mayFetch(n));
      RaiseSeqno(n + 1);
    }

    /** Repeating the recorded checkpoint of a seqno, if the record is still that seqno's. */
    method ResendCheckpoint(n: int) returns (out: set<Msg>)
      requires Valid()
      ensures out == S.ResendCheckpoint(c, Abs(), n)
    {
      var record := records[S.SlotIndex(c, n)];
      if record.None? || record.value.seqno != n {
        return {};
      }
      out := {CheckpointMsg(n, record.value.root, id)};
    }
  }
}
