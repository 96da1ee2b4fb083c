/** View-change bookkeeping on values: which View_changes have been collected, the
    bounds they imply, the New_view built from them and the check of a received one. */
module ViewChangeSpec {
  import opened Types
  import opened Quorums

  datatype ViewInfo = ViewInfo(target: int, inProgress: bool, received: map<int, ViewChange>)

  function Reset(vi: ViewInfo, target: int): ViewInfo {
    vi.(target := target, received := map[])
  }

  /** The view info after a View_change arrived, and whether it was newly accepted. */
  function Collect(vi: ViewInfo, sender: int, vc: ViewChange): (ViewInfo, bool) {
    var vi := if vc.view > vi.target then Reset(vi, vc.view) else vi;
    if vc.view < vi.target || sender in vi.received then (vi, false)
    else (vi.(received := vi.received[sender := vc]), true)
  }

  /** The largest last-stable seqno among the senders below `k`. */
  function Low(received: map<int, ViewChange>, k: nat): Option<int> {
    if k == 0 then None
    else if k - 1 !in received then Low(received, k - 1)
    else match Low(received, k - 1)
      case None => Some(received[k - 1].ls)
      case Some(m) => Some(Max(m, received[k - 1].ls))
  }

  /** The smallest last-stable seqno among the senders below `k`. */
  function Least(received: map<int, ViewChange>, k: nat): Option<int> {
    if k == 0 then None
    else if k - 1 !in received then Least(received, k - 1)
    else match Least(received, k - 1)
      case None => Some(received[k - 1].ls)
      case Some(m) => Some(if received[k - 1].ls < m then received[k - 1].ls else m)
  }

  function MinBound(c: Config, received: map<int, ViewChange>): int
    requires c.n >= 0
  {
    match Low(received, c.n) case None => 0 case Some(m) => m
  }

  function MaxBound(c: Config, received: map<int, ViewChange>): int
    requires c.n >= 0
  {
    match Least(received, c.n) case None => c.window case Some(m) => m + c.window
  }

  /** The View_change names this digest for this seqno. */
  predicate Lists(vc: ViewChange, seqno: int, digest: Digest) {
    exists k :: 0 <= k < |vc.reqs| && vc.reqs[k].seqno == seqno && vc.reqs[k].digest == digest
  }

  function Attesters(received: map<int, ViewChange>, seqno: int, digest: Digest): set<int> {
    set q | q in received && Lists(received[q], seqno, digest)
  }

  predicate Attested(c: Config, received: map<int, ViewChange>, proof: ReqInfo) {
    |Attesters(received, proof.seqno, proof.digest)| >= c.CommitThreshold()
  }

  /** tbft_vi_verify_nv. */
  predicate Verify(c: Config, vi: ViewInfo, nv: NewView)
    requires c.n >= 0
  {
    && nv.view == vi.target
    && nv.min <= nv.max
    && |vi.received| >= c.CommitThreshold()
    && MinBound(c, vi.received) <= nv.min
    && nv.max <= MaxBound(c, vi.received)
    && forall p :: 0 <= p < |nv.proofs| ==> Attested(c, vi.received, nv.proofs[p])
  }

  // ---------------------------------------------------------------- building

  datatype Count = Count(seqno: int, digest: Digest, count: int)

  /** The position of a (seqno, digest) pair in the counting table, or the table's length. */
  function Find(table: seq<Count>, seqno: int, digest: Digest): (k: nat)
    ensures k <= |table|
    ensures k < |table| ==> table[k].seqno == seqno && table[k].digest == digest
    ensures forall i :: 0 <= i < k ==> table[i].seqno != seqno || table[i].digest != digest
  {
    if table == [] || (table[0].seqno == seqno && table[0].digest == digest) then 0
    else 1 + Find(table[1..], seqno, digest)
  }

  function CountEntry(table: seq<Count>, cap: int, e: ReqInfo): seq<Count> {
    var k := Find(table, e.seqno, e.digest);
    if k < |table| then table[k := table[k].(count := table[k].count + 1)]
    else if |table| < cap then table + [Count(e.seqno, e.digest, 1)]
    else table
  }

  /** The counting table after the first `j` entries of one View_change. */
  function CountReqs(table: seq<Count>, cap: int, lo: int, hi: int, reqs: seq<ReqInfo>, j: nat): seq<Count>
    requires j <= |reqs|
  {
    if j == 0 then table
    else
      var t := CountReqs(table, cap, lo, hi, reqs, j - 1);
      if lo <= reqs[j - 1].seqno <= hi then CountEntry(t, cap, reqs[j - 1]) else t
  }

  /** The counting table after the View_changes of the senders below `k`.  A message
      claiming more than a window of entries is skipped. */
  function CountAll(c: Config, received: map<int, ViewChange>, lo: int, hi: int, k: nat): seq<Count> {
    if k == 0 then []
    else
      var t := CountAll(c, received, lo, hi, k - 1);
      if k - 1 in received && |received[k - 1].reqs| <= c.window
      then CountReqs(t, c.window, lo, hi, received[k - 1].reqs, |received[k - 1].reqs|)
      else t
  }

  /** The row reached the quorum and the proof is for its pair. */
  predicate Proves(row: Count, quorum: int, proof: ReqInfo) {
    row.count >= quorum && proof.seqno == row.seqno && proof.digest == row.digest
  }

  /** The table rows with at least `quorum` votes among the first `k`, at most `cap` of them. */
  function Select(table: seq<Count>, quorum: int, cap: int, lastView: int, k: nat): (proofs: seq<ReqInfo>)
    requires k <= |table|
    ensures forall p :: 0 <= p < |proofs| ==>
              exists i :: 0 <= i < k && Proves(table[i], quorum, proofs[p])
  {
    if k == 0 then []
    else
      var proofs := Select(table, quorum, cap, lastView, k - 1);
      if table[k - 1].count >= quorum && |proofs| < cap
      then proofs + [ReqInfo(table[k - 1].seqno, lastView, table[k - 1].digest)]
      else proofs
  }

  /** The New_view the primary of the target view builds. */
  function Build(c: Config, vi: ViewInfo, view: int): NewView
    requires c.n >= 0
  {
    var lo, hi := MinBound(c, vi.received), MaxBound(c, vi.received);
    var table := CountAll(c, vi.received, lo, hi, c.n);
    NewView(vi.target, lo, hi,
            Select(table, 2 * ((c.n - 1) / 3) + 1, c.maxProofs, if view > 0 then view - 1 else 0, |table|))
  }
}
