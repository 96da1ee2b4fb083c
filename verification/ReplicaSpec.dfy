/** The replica as a value: its stores, counters and what each handler makes of them.
    Every function here mirrors one routine of the replica; the class `Replica`
    refines them and the safety proofs are about them. */
module ReplicaSpec {
  import opened Types
  import opened Quorums
  import opened ViewChangeSpec

  // ------------------------------------------------------- agreement region

  datatype Slice = Slice(pp: Option<PrePrepare>, prepares: map<int, Digest>, commits: map<int, Digest>)

  const EMPTY_SLICE := Slice(None, map[], map[])

  /** The window of slices; `slots[k]` belongs to seqno `head + k`. */
  datatype Region = Region(head: int, slots: seq<Slice>) {
    predicate InRange(n: int) { head <= n < head + |slots| }

    function At(n: int): Slice
      requires InRange(n)
    {
      slots[n - head]
    }

    function Put(n: int, sl: Slice): Region
      requires InRange(n)
    {
      Region(head, slots[n - head := sl])
    }

    predicate HasPp(n: int) { InRange(n) && At(n).pp.Some? }

    predicate PreparedAt(c: Config, n: int) {
      HasPp(n) && Wins(At(n).prepares, c.PrepareThreshold(), At(n).pp.value.digest)
    }

    ghost predicate CommittedAt(c: Config, n: int) {
      InRange(n) && HasWinner(At(n).commits, c.CommitThreshold())
    }

    /** The commit quorum is for the digest of the stored Pre_prepare. */
    predicate ReadyAt(c: Config, n: int) {
      HasPp(n) && Wins(At(n).commits, c.CommitThreshold(), At(n).pp.value.digest)
    }
  }

  /** tbft_ar_truncate: a shift that drops the slices below `h`. */
  function Truncate(ar: Region, h: int): Region {
    if h <= ar.head then ar
    else
      var keep := if h - ar.head <= |ar.slots| then ar.slots[h - ar.head..] else [];
      Region(h, keep + seq(|ar.slots| - |keep|, _ => EMPTY_SLICE))
  }

  /** tbft_ar_truncate followed by the direct assignment `ar.head = h`. */
  function ForceHead(ar: Region, h: int): Region {
    Truncate(ar, h).(head := h)
  }

  /** A certificate takes a vote from a new sender, for a known digest or while
      there is a free value slot. */
  predicate CanVote(votes: map<int, Digest>, sender: int, d: Digest, maxVals: int) {
    0 <= sender < 64 && sender !in votes && (d in votes.Values || |votes.Values| < maxVals)
  }

  function AddVote(votes: map<int, Digest>, sender: int, d: Digest, maxVals: int): map<int, Digest> {
    if CanVote(votes, sender, d, maxVals) then votes[sender := d] else votes
  }

  /** tbft_prepared_cert_add_pp: empty slot, recycled slot, or the same request in a later view. */
  predicate CanStorePp(stored: Option<PrePrepare>, pp: PrePrepare) {
    match stored
    case None => true
    case Some(o) => o.seqno != pp.seqno || (o.digest == pp.digest && pp.view > o.view)
  }

  function AddPrepare(c: Config, ar: Region, n: int, sender: int, d: Digest): Region {
    if !ar.InRange(n) then ar
    else ar.Put(n, ar.At(n).(prepares := AddVote(ar.At(n).prepares, sender, d, c.maxVals)))
  }

  function AddCommit(c: Config, ar: Region, n: int, sender: int, d: Digest): Region {
    if !ar.InRange(n) then ar
    else ar.Put(n, ar.At(n).(commits := AddVote(ar.At(n).commits, sender, d, c.maxVals)))
  }

  // ------------------------------------------------------ checkpoint region

  datatype CkptSlot = CkptSlot(seqno: int, present: set<int>, votes: map<int, Digest>)

  function SlotIndex(c: Config, n: int): (k: int)
    requires c.interval >= 1 && c.window >= 0
    ensures 0 <= k < c.CheckpointSlots()
  {
    (n / c.interval) % c.CheckpointSlots()
  }

  function StoreInSlot(slot: CkptSlot, maxVals: int, n: int, sender: int, d: Digest): CkptSlot {
    var slot := if slot.seqno != n then CkptSlot(n, {}, map[]) else slot;
    if sender in slot.present then slot
    else CkptSlot(n, slot.present + {sender},
                  if d in slot.votes.Values || |slot.votes.Values| < maxVals
                  then slot.votes[sender := d] else slot.votes)
  }

  /** What tbft_cr_store answers: this message was counted and the slot has a quorum. */
  ghost predicate StoreMakesStable(c: Config, slot: CkptSlot, n: int, sender: int, d: Digest) {
    var after := StoreInSlot(slot, c.maxVals, n, sender, d);
    && (slot.seqno == n ==> sender !in slot.present)
    && sender in after.votes
    && HasWinner(after.votes, c.CommitThreshold())
  }

  /** tbft_cr_winning_digest: the slot is found by index alone. */
  ghost function Winning(c: Config, ckpts: seq<CkptSlot>, n: int): Option<Digest>
    requires c.Valid() && |ckpts| == c.CheckpointSlots()
  {
    var votes := ckpts[SlotIndex(c, n)].votes;
    if HasWinner(votes, c.CommitThreshold())
    then Some(var d :| Wins(votes, c.CommitThreshold(), d); d)
    else None
  }

  const EMPTY_CKPT := CkptSlot(0, {}, map[])

  function TruncateCkpts(ckpts: seq<CkptSlot>, stable: int): seq<CkptSlot> {
    seq(|ckpts|, k requires 0 <= k < |ckpts| =>
      if ckpts[k].seqno <= stable then EMPTY_CKPT else ckpts[k])
  }

  // ---------------------------------------------------------------- replica

  /** What a replica did to its execution point: executed a request, or skipped
      ahead to a stable checkpoint. */
  datatype LogEntry = Executed(seqno: int, rset: RequestSet) | Jumped(seqno: int)

  datatype Record = Record(seqno: int, root: Digest)

  /** `accepted` and `log` are history: the digest of the first Pre_prepare stored for
      each seqno, and the execution history. */
  datatype Replica = Replica(
    id: int,
    view: int,
    seqno: int,
    lastStable: int,
    quorumLastStable: int,
    lastPrepared: int,
    lastExecuted: int,
    pendingFill: int,
    ar: Region,
    ckpts: seq<CkptSlot>,
    vi: ViewInfo,
    root: Digest,
    records: seq<Option<Record>>,
    stateLastStable: int,
    inFetch: bool,
    fetchSeqno: int,
    accepted: map<int, Digest>,
    log: seq<LogEntry>)
  {
    predicate InWindow(c: Config, n: int) { lastStable < n <= lastStable + c.window }

    predicate IsPrimary(c: Config)
      requires c.n >= 1
    {
      id == c.Primary(view)
    }
  }

  predicate Shaped(c: Config, r: Replica)
    requires c.interval >= 1
  {
    && |r.ar.slots| == c.window
    && |r.ckpts| == c.CheckpointSlots()
    && |r.records| == c.CheckpointSlots()
  }

  function Boot(c: Config, id: int): (r: Replica)
    requires c.Valid()
    ensures Shaped(c, r)
  {
    Replica(id, 0, 1, 0, 0, 0, 0, 0,
            Region(1, seq(c.window, _ => EMPTY_SLICE)),
            seq(c.CheckpointSlots(), _ => EMPTY_CKPT),
            ViewInfo(0, false, map[]),
            Zero, seq(c.CheckpointSlots(), _ => None), 0, false, 0, map[], [])
  }

  /** Answers of the environment during one step: does the application accept the
      request at a seqno, the root digest after executing it, and do the time-based
      throttles allow a state fetch or a repeated commit. */
  datatype Env = Env(accepts: int -> bool, root: int -> Digest, mayFetch: int -> bool, mayResend: bool)

  datatype Outcome = Outcome(r: Replica, out: set<Msg>)

  // ----------------------------------------------------------- mark_stable

  /** Moving the stable point to `n`; `confirmed` if a checkpoint quorum backs it. */
  function BecomeStable(r: Replica, n: int, confirmed: bool): (r': Replica)
    ensures |r'.ar.slots| == |r.ar.slots| && |r'.ckpts| == |r.ckpts| && r'.records == r.records
  {
    r.(stateLastStable := Max(r.stateLastStable, n),
       lastStable := n,
       quorumLastStable := if confirmed then n else r.quorumLastStable,
       lastPrepared := Max(r.lastPrepared, n),
       lastExecuted := Max(r.lastExecuted, n),
       log := if r.lastExecuted < n then r.log + [Jumped(n)] else r.log,
       pendingFill := if 0 < r.pendingFill <= n then 0 else r.pendingFill,
       ar := Truncate(r.ar, n + 1),
       ckpts := TruncateCkpts(r.ckpts, n))
  }

  ghost function MarkStable(c: Config, r: Replica, n: int, mayFetch: bool): (r': Replica)
    requires c.Valid() && Shaped(c, r)
    ensures Shaped(c, r')
  {
    if n <= r.lastStable then r
    else
      var winning := Winning(c, r.ckpts, n);
      if winning.Some? && winning.value != r.root then
        if (!r.inFetch || n > r.fetchSeqno) && mayFetch then r.(inFetch := true, fetchSeqno := n) else r
      else BecomeStable(r, n, winning.Some?)
  }

  // --------------------------------------------------- sending votes

  /** tbft_replica_send_commit. */
  function SendCommit(c: Config, r: Replica, n: int): Outcome {
    if !r.ar.HasPp(n) then Outcome(r, {})
    else
      var d := r.ar.At(n).pp.value.digest;
      Outcome(r.(ar := AddCommit(c, r.ar, n, r.id, d)), {CommitMsg(r.view, n, d, r.id)})
  }

  /** tbft_replica_send_prepare: broadcast only if the own vote was newly recorded. */
  function SendPrepare(c: Config, r: Replica, n: int): Outcome
    requires c.n >= 1
  {
    if r.IsPrimary(c) || !r.ar.HasPp(n) then Outcome(r, {})
    else
      var d := r.ar.At(n).pp.value.digest;
      if !CanVote(r.ar.At(n).prepares, r.id, d, c.maxVals) then Outcome(r, {})
      else Outcome(r.(ar := AddPrepare(c, r.ar, n, r.id, d)), {PrepareMsg(r.view, n, d, r.id)})
  }

  // --------------------------------------------------------------- execution

  /** Recording that the request stored at `n` has been executed. */
  function Logged(r: Replica, n: int): Replica
    requires r.ar.HasPp(n)
  {
    r.(lastExecuted := n, log := r.log + [Executed(n, r.ar.At(n).pp.value.rset)])
  }

  /** Taking a checkpoint at `n`: record the root, vote for it, broadcast the vote. */
  ghost function TakeCheckpoint(c: Config, r: Replica, n: int, env: Env): (o: Outcome)
    requires c.Valid() && Shaped(c, r)
    ensures Shaped(c, o.r)
    ensures r.lastExecuted <= o.r.lastExecuted <= Max(r.lastExecuted, n)
    ensures r.lastPrepared <= o.r.lastPrepared <= Max(r.lastPrepared, n)
  {
    var d := env.root(n);
    var k := SlotIndex(c, n);
    var r1 := r.(root := d,
                 records := r.records[k := Some(Record(n, d))],
                 ckpts := r.ckpts[k := StoreInSlot(r.ckpts[k], c.maxVals, n, r.id, d)]);
    Outcome(if StoreMakesStable(c, r.ckpts[k], n, r.id, d) then MarkStable(c, r1, n, env.mayFetch(n)) else r1,
            {CheckpointMsg(n, d, r.id)})
  }

  /** One iteration of the execution loop at `n = lastExecuted + 1`. */
  ghost function ExecuteOne(c: Config, r: Replica, env: Env): (o: Outcome)
    requires c.Valid() && Shaped(c, r)
    requires r.ar.HasPp(r.lastExecuted + 1)
    ensures Shaped(c, o.r)
    ensures o.r.lastExecuted == r.lastExecuted + 1
    ensures r.lastExecuted < r.lastPrepared ==> o.r.lastPrepared == r.lastPrepared
  {
    var n := r.lastExecuted + 1;
    if n % c.interval != 0 then Outcome(Logged(r, n), {})
    else TakeCheckpoint(c, Logged(r, n), n, env)
  }

  /** tbft_replica_execute_committed. */
  ghost function ExecuteCommitted(c: Config, r: Replica, env: Env): (o: Outcome)
    requires c.Valid() && Shaped(c, r)
    ensures Shaped(c, o.r)
    decreases r.lastPrepared - r.lastExecuted
  {
    var n := r.lastExecuted + 1;
    if n > r.lastPrepared then Outcome(r, {})
    else if !r.ar.ReadyAt(c, n) then
      Outcome(if !r.vi.inProgress && r.pendingFill != n then r.(pendingFill := n) else r, {})
    else if !env.accepts(n) then Outcome(r, {})
    else
      var one := ExecuteOne(c, r, env);
      var rest := ExecuteCommitted(c, one.r, env);
      Outcome(rest.r, one.out + rest.out)
  }

  // ---------------------------------------------------------------- handlers

  /** A view advance that does not go through a New_view: both regions are cut at the
      last stable checkpoint and the agreement head is set there. */
  function CutStores(r: Replica, v: int): (r': Replica)
    ensures |r'.ar.slots| == |r.ar.slots| && |r'.ckpts| == |r.ckpts| && r'.records == r.records
  {
    r.(view := v,
       ckpts := TruncateCkpts(r.ckpts, r.lastStable),
       ar := ForceHead(r.ar, r.lastStable + 1))
  }

  /** The same, with the execution and prepared points raised to the stable one. */
  function AdvanceView(r: Replica, v: int): (r': Replica)
    ensures |r'.ar.slots| == |r.ar.slots| && |r'.ckpts| == |r.ckpts| && r'.records == r.records
  {
    CutStores(r, v).(
      lastPrepared := Max(r.lastPrepared, r.lastStable),
      lastExecuted := Max(r.lastExecuted, r.lastStable))
  }

  /** The embedded request hashes to the digest and carries its client's signature. */
  predicate ProposalOk(c: Config, pp: PrePrepare) {
    && pp.rset.Holds?
    && pp.digest == OfRequests(pp.rset)
    && 0 <= pp.rset.request.cid < c.principals
    && pp.rset.request.signed
  }

  function StorePp(r: Replica, pp: PrePrepare): Replica
    requires r.ar.InRange(pp.seqno)
  {
    var n := pp.seqno;
    r.(ar := r.ar.Put(n, r.ar.At(n).(pp := Some(pp))),
       accepted := if n in r.accepted then r.accepted else r.accepted[n := pp.digest])
  }

  /** The checks made before anything changes: view, sender and window. */
  predicate PassesWindow(c: Config, r: Replica, pp: PrePrepare, sender: int)
    requires c.Valid()
  {
    pp.view >= r.view && r.id != c.Primary(pp.view) && r.InWindow(c, pp.seqno) && sender == c.Primary(pp.view)
  }

  /** Checking the proposal itself, storing it and answering with a Prepare. */
  function StoreAndAnswer(c: Config, r: Replica, pp: PrePrepare): Outcome
    requires c.Valid()
  {
    if !ProposalOk(c, pp) || !r.ar.InRange(pp.seqno) || !CanStorePp(r.ar.At(pp.seqno).pp, pp)
    then Outcome(r, {})
    else
      var r1 := StorePp(r, pp).(seqno := Max(r.seqno, pp.seqno + 1));
      SendPrepare(c, r1, pp.seqno)
  }

  function HandlePrePrepare(c: Config, r: Replica, pp: PrePrepare, sender: int): Outcome
    requires c.Valid()
  {
    if !PassesWindow(c, r, pp, sender) then Outcome(r, {})
    else
      var r1 := if pp.view > r.view
                then AdvanceView(r, pp.view).(vi := ViewInfo(pp.view + 1, false, map[]))
                else r;
      StoreAndAnswer(c, r1, pp)
  }

  /** Executing what can be executed, if the commit certificate of `n` is complete. */
  ghost function ExecuteIfCommitted(c: Config, o: Outcome, n: int, env: Env): Outcome
    requires c.Valid() && Shaped(c, o.r)
  {
    if !o.r.ar.CommittedAt(c, n) then o
    else
      var e := ExecuteCommitted(c, o.r, env);
      Outcome(e.r, o.out + e.out)
  }

  /** What a replica does once `n` is prepared: it votes to commit, and executes if possible. */
  ghost function OnPrepared(c: Config, r: Replica, n: int, env: Env): Outcome
    requires c.Valid() && Shaped(c, r) && r.ar.InRange(n)
  {
    var r2 := r.(lastPrepared := Max(r.lastPrepared, n));
    var o3 := if r.id !in r2.ar.At(n).commits then SendCommit(c, r2, n) else Outcome(r2, {});
    ExecuteIfCommitted(c, o3, n, env)
  }

  /** Counting a Prepare that belongs to the current view and window. */
  ghost function CountPrepare(c: Config, r: Replica, n: int, d: Digest, sender: int, env: Env): Outcome
    requires c.Valid() && Shaped(c, r)
  {
    if !r.ar.HasPp(n) || r.ar.At(n).pp.value.digest != d then Outcome(r, {})
    else if !CanVote(r.ar.At(n).prepares, sender, d, c.maxVals) then Outcome(r, {})
    else
      var r1 := r.(ar := AddPrepare(c, r.ar, n, sender, d));
      if r1.ar.PreparedAt(c, n) then OnPrepared(c, r1, n, env) else Outcome(r1, {})
  }

  ghost function HandlePrepare(c: Config, r: Replica, v: int, n: int, d: Digest, sender: int, env: Env): (o: Outcome)
    requires c.Valid() && Shaped(c, r)
  {
    if v != r.view || !r.InWindow(c, n) || !(0 <= sender < c.n) || sender == r.id then Outcome(r, {})
    else CountPrepare(c, r, n, d, sender, env)
  }

  /** Repeating the own Commit while prepared but not committed. */
  ghost function ResendCommit(c: Config, r: Replica, n: int, mayResend: bool): Outcome {
    if r.ar.PreparedAt(c, n) && !r.ar.CommittedAt(c, n) && mayResend then SendCommit(c, r, n) else Outcome(r, {})
  }

  /** Counting a Commit that belongs to the current view and window. */
  ghost function CountCommit(c: Config, r: Replica, n: int, d: Digest, sender: int, env: Env): Outcome
    requires c.Valid() && Shaped(c, r)
  {
    if !r.ar.InRange(n) then Outcome(r, {})
    else if r.ar.HasPp(n) && r.ar.At(n).pp.value.digest != d then Outcome(r, {})
    else if !CanVote(r.ar.At(n).commits, sender, d, c.maxVals) then Outcome(r, {})
    else
      var r1 := r.(ar := AddCommit(c, r.ar, n, sender, d));
      ExecuteIfCommitted(c, ResendCommit(c, r1, n, env.mayResend), n, env)
  }

  ghost function HandleCommit(c: Config, r: Replica, v: int, n: int, d: Digest, sender: int, env: Env): (o: Outcome)
    requires c.Valid() && Shaped(c, r)
  {
    if v != r.view || !r.InWindow(c, n) || !(0 <= sender < c.n) || sender == r.id then Outcome(r, {})
    else CountCommit(c, r, n, d, sender, env)
  }

  ghost function HandleCheckpoint(c: Config, r: Replica, n: int, d: Digest, sender: int, env: Env): (r': Replica)
    requires c.Valid() && Shaped(c, r)
  {
    if n <= 0 || n % c.interval != 0 || !(0 <= sender < c.n) || sender == r.id then r
    else
      var k := SlotIndex(c, n);
      var r1 := r.(ckpts := r.ckpts[k := StoreInSlot(r.ckpts[k], c.maxVals, n, sender, d)]);
      if StoreMakesStable(c, r.ckpts[k], n, sender, d) then MarkStable(c, r1, n, env.mayFetch(n)) else r1
  }

  /** The largest seqno among the first `k` proofs and `start`. */
  function LastProof(proofs: seq<ReqInfo>, k: nat, start: int): int
    requires k <= |proofs|
  {
    if k == 0 then start else Max(LastProof(proofs, k - 1, start), proofs[k - 1].seqno)
  }

  /** The region after a New_view: cut at its low bound, and moved on when the next seqno
      to propose would lie beyond the window. */
  function Reposition(c: Config, ar: Region, h: int, next: int): Region {
    var ar := ForceHead(ar, h);
    if next >= ar.head + c.window then Truncate(ar, next) else ar
  }

  /** Installing a New_view, by its builder and by its receivers alike. */
  function InstallNewView(c: Config, r: Replica, nv: NewView): (r': Replica)
    ensures |r'.ar.slots| == |r.ar.slots| && |r'.ckpts| == |r.ckpts| && r'.records == r.records
  {
    var start := LastProof(nv.proofs, |nv.proofs|, Max(Max(nv.min, r.lastPrepared), r.lastExecuted));
    r.(view := nv.view,
       seqno := start + 1,
       lastStable := Max(r.lastStable, nv.min),
       stateLastStable := Max(r.stateLastStable, nv.min),
       lastExecuted := Max(r.lastExecuted, nv.min),
       lastPrepared := Max(r.lastPrepared, nv.min),
       log := if r.lastExecuted < nv.min then r.log + [Jumped(nv.min)] else r.log,
       ckpts := TruncateCkpts(r.ckpts, nv.min),
       ar := Reposition(c, r.ar, nv.min + 1, start + 1),
       vi := ViewInfo(nv.view + 1, false, map[]))
  }

  /** This View_change is the one with which the next primary has a quorum. */
  predicate CompletesViewChange(c: Config, r: Replica, vc: ViewChange)
    requires c.Valid()
  {
    var (vi, collected) := Collect(r.vi, vc.id, vc);
    collected && c.Primary(vi.target) == r.id && |vi.received| >= c.CommitThreshold()
  }

  function HandleViewChange(c: Config, r: Replica, vc: ViewChange): Outcome
    requires c.Valid()
  {
    if !(0 <= vc.id < c.n) then Outcome(r, {})
    else
      var (vi, collected) := Collect(r.vi, vc.id, vc);
      var r1 := r.(vi := vi);
      if !collected then
        if vc.view <= r.view then Outcome(r1, {})
        else
          var r2 := AdvanceView(r1, vc.view);
          Outcome(r2.(seqno := Max(r.seqno, Max(Max(r.lastStable, r.lastPrepared), r.lastExecuted) + 1)), {})
      else if CompletesViewChange(c, r, vc) then
        var nv := Build(c, vi, r.view);
        Outcome(InstallNewView(c, r1, nv), {NewViewMsg(nv, r.id)})
      else Outcome(r1, {})
  }

  predicate AcceptsNewView(c: Config, r: Replica, nv: NewView, sender: int)
    requires c.Valid()
  {
    nv.view >= r.view && sender == c.Primary(nv.view) && Verify(c, r.vi, nv) && |nv.proofs| <= c.window
  }

  function HandleNewView(c: Config, r: Replica, nv: NewView, sender: int): Replica
    requires c.Valid()
  {
    if AcceptsNewView(c, r, nv, sender) then InstallNewView(c, r, nv) else r
  }

  /** A Status of a later view is believed unless it is far ahead within the same window. */
  predicate AcceptsStatusView(c: Config, r: Replica, st: Status) {
    && 0 <= st.id < c.n && st.id != r.id
    && st.view > r.view
    && !(st.view - r.view > 10 && st.lastStable < r.lastStable + c.window)
  }

  /** The part of the Status handler that catches up to a later view. */
  function HandleStatusView(c: Config, r: Replica, st: Status): Replica
    requires c.Valid()
  {
    if !AcceptsStatusView(c, r, st) then r
    else
      CutStores(r, st.view).(
        vi := if r.vi.inProgress then ViewInfo(st.view + 1, false, map[]) else r.vi,
        seqno := Max(r.seqno, Max(Max(r.lastStable, r.lastPrepared), r.lastExecuted) + 1))
  }

  /** Storing the own proposal, counting the own Prepare for it and broadcasting both. */
  function ProposePp(c: Config, r: Replica, pp: PrePrepare): Outcome {
    if !r.ar.InRange(pp.seqno) || !CanStorePp(r.ar.At(pp.seqno).pp, pp) then Outcome(r, {})
    else
      var r1 := StorePp(r, pp);
      Outcome(r1.(ar := AddPrepare(c, r1.ar, pp.seqno, r.id, pp.digest), seqno := pp.seqno + 1),
              {PrePrepareMsg(pp, r.id), PrepareMsg(pp.view, pp.seqno, pp.digest, r.id)})
  }

  /** tbft_replica_send_pre_prepare for the request at the front of the queue. */
  function Propose(c: Config, r: Replica, rset: RequestSet, ndet: Bytes): Outcome
    requires c.Valid()
  {
    if !r.IsPrimary(c) || r.vi.inProgress || !r.InWindow(c, r.seqno) then Outcome(r, {})
    else ProposePp(c, r, PrePrepare(r.view, r.seqno, OfRequests(rset), rset, ndet))
  }

  /** The prepared entries a View_change lists, for seqnos up to `s`. */
  function PreparedList(c: Config, r: Replica, cap: int, s: int): (reqs: seq<ReqInfo>)
    ensures forall k :: 0 <= k < |reqs| ==> r.lastStable < reqs[k].seqno <= s
    decreases s - r.lastStable
  {
    if s <= r.lastStable then []
    else
      var reqs := PreparedList(c, r, cap, s - 1);
      if r.ar.PreparedAt(c, s) && |reqs| < cap
      then reqs + [ReqInfo(s, r.view, r.ar.At(s).pp.value.digest)]
      else reqs
  }

  /** tbft_replica_send_view_change. */
  function SendViewChange(c: Config, r: Replica): Outcome {
    var target := Max(r.view + 1, r.vi.target);
    var vi := (if r.vi.target != target then Reset(r.vi, target) else r.vi).(inProgress := true);
    var ls := if r.lastExecuted > r.lastStable + c.window then r.lastExecuted - c.window else r.lastStable;
    var cap := if c.window < c.maxReqs then c.window else c.maxReqs;
    var vc := ViewChange(target, ls, PreparedList(c, r, cap, r.lastPrepared), r.id);
    Outcome(r.(vi := if r.id in vi.received then vi else Collect(vi, r.id, vc).0), {ViewChangeMsg(vc)})
  }

  /** A completed state fetch: the state root is whatever the replier supplied. */
  ghost function FinishFetch(c: Config, r: Replica, root: Digest, env: Env): (r': Replica)
    requires c.Valid() && Shaped(c, r)
  {
    if !r.inFetch then r
    else
      var n := r.fetchSeqno;
      var r1 := MarkStable(c, r.(inFetch := false, root := root), n, env.mayFetch(n));
      r1.(seqno := Max(r1.seqno, n + 1))
  }

  /** Re-sending the recorded checkpoint for `n` to a lagging peer. */
  function ResendCheckpoint(c: Config, r: Replica, n: int): set<Msg>
    requires c.Valid() && Shaped(c, r)
  {
    match r.records[SlotIndex(c, n)]
    case None => {}
    case Some(rec) => if rec.seqno == n then {CheckpointMsg(n, rec.root, r.id)} else {}
  }
}
