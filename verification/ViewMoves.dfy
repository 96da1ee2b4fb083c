/** When and how a replica moves to another view: exactly. */
module ViewMoves {
  import opened Types
  import opened Quorums
  import opened ViewChangeSpec
  import opened ReplicaSpec
  import opened Invariants
  import opened Protocol
  import opened Handlers
  import opened Safety
  import opened NewViews
  import opened Executions
  import opened Reactions

  // ------------------------------------------------------------ a later view

  /** The largest of the stable, prepared and execution points. */
  ghost predicate IsReached(r: Replica, m: int) {
    && m >= r.lastStable && m >= r.lastPrepared && m >= r.lastExecuted
    && (m == r.lastStable || m == r.lastPrepared || m == r.lastExecuted)
  }

  /** The replica after catching up with a later view: both regions cut at the stable point,
      the next seqno beyond all it has reached, and nothing else but its collector changed. */
  ghost predicate CatchesUp(c: Config, r: Replica, e: Replica, view: int) {
    && e == r.(view := view, seqno := e.seqno, vi := e.vi, ar := e.ar, ckpts := e.ckpts)
    && SameAbove(r.ar, e.ar, r.lastStable) && e.ar.head == r.lastStable + 1 && IsCut(r.ckpts, e.ckpts, r.lastStable)
    && exists m :: IsReached(r, m) && e.seqno == Max(r.seqno, m + 1)
  }

  lemma CutsAtStable(c: Config, net: set<Msg>, r: Replica, view: int)
    requires Sound(c, net, r) && r.ar.head <= r.lastStable + 1
    ensures var e := CutStores(r, view);
            && e == r.(view := view, ar := e.ar, ckpts := e.ckpts)
            && SameAbove(r.ar, e.ar, r.lastStable) && e.ar.head == r.lastStable + 1 && IsCut(r.ckpts, e.ckpts, r.lastStable)
  {
    ForceIsTruncate(r.ar, r.lastStable + 1);
    CutIsSameAbove(r.ar, r.lastStable);
  }

  lemma ReachedIsMax(r: Replica)
    ensures IsReached(r, Max(Max(r.lastStable, r.lastPrepared), r.lastExecuted))
  {
  }

  /** A Status of another replica is believed when it reports a later view, unless more than ten
      views ahead without being a window ahead in stability. */
  lemma StatusIsBelieved(c: Config, net: set<Msg>, r: Replica, st: Status)
    requires Sound(c, net, r) && KeepsHead(c, r, DeliverStatus(st))
    ensures var e := HandleStatusView(c, r, st);
            if 0 <= st.id < c.n && st.id != r.id && st.view > r.view
               && (st.view <= r.view + 10 || st.lastStable >= r.lastStable + c.window)
            then CatchesUp(c, r, e, st.view)
                 && e.vi == (if r.vi.inProgress then ViewInfo(st.view + 1, false, map[]) else r.vi)
            else e == r
  {
    if AcceptsStatusView(c, r, st) {
      CutsAtStable(c, net, r, st.view);
      ReachedIsMax(r);
    }
  }

  // ----------------------------------------------------- collecting View_changes

  /** The View_changes collected for the view of this one: what there was for the same view,
      nothing if it is for a later one. */
  function Before(vi: ViewInfo, view: int): map<int, ViewChange> {
    if view == vi.target then vi.received else map[]
  }

  /** The View_change is for the target view or a later one, and the first of its sender for it. */
  predicate IsCollected(vi: ViewInfo, vc: ViewChange) {
    vc.view >= vi.target && vc.id !in Before(vi, vc.view)
  }

  lemma CollectsExactly(vi: ViewInfo, vc: ViewChange)
    ensures var (e, collected) := Collect(vi, vc.id, vc);
            && (collected <==> IsCollected(vi, vc))
            && (IsCollected(vi, vc) ==> e == vi.(target := vc.view, received := Before(vi, vc.view)[vc.id := vc]))
            && (!IsCollected(vi, vc) ==> e == vi)
  {
  }

  /** The View_change completes a quorum for a view of which this replica is the primary. */
  predicate HasQuorum(c: Config, r: Replica, vc: ViewChange)
    requires c.n >= 1
  {
    r.id == vc.view % c.n && |Before(r.vi, vc.view)[vc.id := vc]| >= 2 * c.f + 1
  }

  /** A View_change is collected, with a quorum answered by building and installing a New_view
      for its view; one that is not collected is followed to its view if that is later. */
  lemma ViewChangeIsHandled(c: Config, net: set<Msg>, r: Replica, vc: ViewChange)
    requires Sound(c, net, r) && ViewChangeMsg(vc) in net && KeepsHead(c, r, Deliver(ViewChangeMsg(vc)))
    ensures var o := HandleViewChange(c, r, vc);
            if !(0 <= vc.id < c.n) then o == Outcome(r, {})
            else if IsCollected(r.vi, vc) then
              var vi := r.vi.(target := vc.view, received := Before(r.vi, vc.view)[vc.id := vc]);
              if HasQuorum(c, r, vc)
              then var nv := Build(c, vi, r.view);
                   o == Outcome(InstallNewView(c, r.(vi := vi), nv), {NewViewMsg(nv, r.id)})
              else o == Outcome(r.(vi := vi), {})
            else
              && o.out == {}
              && if vc.view > r.view then CatchesUp(c, r, o.r, vc.view) && o.r.vi == r.vi else o.r == r
  {
    CollectsExactly(r.vi, vc);
    if 0 <= vc.id < c.n && !IsCollected(r.vi, vc) && vc.view > r.view {
      CutsAtStable(c, net, r, vc.view);
      RaisingIsIdle(c, net, r, vc.view);
      ReachedIsMax(r);
    }
  }

  // ------------------------------------------------------------- a New_view

  /** The last seqno known: of the low bound, the own progress and the proofs the largest. */
  ghost predicate IsLast(r: Replica, nv: NewView, m: int) {
    && m >= nv.min && m >= r.lastPrepared && m >= r.lastExecuted
    && (forall p | 0 <= p < |nv.proofs| :: nv.proofs[p].seqno <= m)
    && (m == nv.min || m == r.lastPrepared || m == r.lastExecuted || exists p :: 0 <= p < |nv.proofs| && nv.proofs[p].seqno == m)
  }

  /** The replica after installing a New_view whose low bound is not behind its window. */
  ghost predicate Installs(c: Config, r: Replica, e: Replica, nv: NewView) {
    && e == r.(view := nv.view, vi := ViewInfo(nv.view + 1, false, map[]), seqno := e.seqno,
               lastStable := Max(r.lastStable, nv.min), stateLastStable := Max(r.stateLastStable, nv.min),
               lastExecuted := Max(r.lastExecuted, nv.min), lastPrepared := Max(r.lastPrepared, nv.min),
               log := e.log, ar := e.ar, ckpts := e.ckpts)
    && e.log == (if nv.min > r.lastExecuted then r.log + [Jumped(nv.min)] else r.log)
    && IsLast(r, nv, e.seqno - 1)
    && IsCut(r.ckpts, e.ckpts, nv.min)
    && e.ar.head == (if e.seqno >= nv.min + 1 + c.window then e.seqno else nv.min + 1)
    && SameAbove(r.ar, e.ar, e.ar.head - 1)
  }

  lemma {:induction false} LastProofIsLast(proofs: seq<ReqInfo>, k: nat, start: int)
    requires k <= |proofs|
    ensures var m := LastProof(proofs, k, start);
            && m >= start && (forall p | 0 <= p < k :: proofs[p].seqno <= m)
            && (m == start || exists p :: 0 <= p < k && proofs[p].seqno == m)
  {
    if k > 0 {
      LastProofIsLast(proofs, k - 1, start);
      var m := LastProof(proofs, k - 1, start);
      if m != start && proofs[k - 1].seqno <= m {
        var p :| 0 <= p < k - 1 && proofs[p].seqno == m;
        assert 0 <= p < k;
      }
    }
  }

  /** The window that starts at `h`, or at `next` when that would lie beyond it. */
  lemma RepositionMoves(c: Config, ar: Region, h: int, next: int)
    requires c.Valid() && ar.head <= h
    ensures var ar' := Reposition(c, ar, h, next);
            && ar'.head == (if next >= h + c.window then next else h)
            && SameAbove(ar, ar', ar'.head - 1)
  {
    ForceIsTruncate(ar, h);
    var cut := Truncate(ar, h);
    var h0 := h - 1;
    CutIsSameAbove(ar, h0);
    if next >= h + c.window {
      var next0 := next - 1;
      CutIsSameAbove(cut, next0);
      SameAboveMore(ar, cut, Truncate(cut, next), h0, next0);
    }
  }

  /** The fields of the replica after the installation, its window aside. */
  lemma InstalledFields(c: Config, r: Replica, nv: NewView)
    ensures var e := InstallNewView(c, r, nv);
            && e == r.(view := nv.view, vi := ViewInfo(nv.view + 1, false, map[]), seqno := e.seqno,
                       lastStable := Max(r.lastStable, nv.min), stateLastStable := Max(r.stateLastStable, nv.min),
                       lastExecuted := Max(r.lastExecuted, nv.min), lastPrepared := Max(r.lastPrepared, nv.min),
                       log := e.log, ar := e.ar, ckpts := e.ckpts)
            && e.log == (if nv.min > r.lastExecuted then r.log + [Jumped(nv.min)] else r.log)
            && IsCut(r.ckpts, e.ckpts, nv.min)
            && e.ar == Reposition(c, r.ar, nv.min + 1, e.seqno)
            && e.seqno == LastProof(nv.proofs, |nv.proofs|, Max(Max(nv.min, r.lastPrepared), r.lastExecuted)) + 1
  {
  }

  lemma InstallsExactly(c: Config, r: Replica, nv: NewView)
    requires c.Valid() && r.ar.head <= nv.min + 1
    ensures Installs(c, r, InstallNewView(c, r, nv), nv)
  {
    InstalledFields(c, r, nv);
    var e, start := InstallNewView(c, r, nv), Max(Max(nv.min, r.lastPrepared), r.lastExecuted);
    LastProofIsLast(nv.proofs, |nv.proofs|, start);
    var h := nv.min + 1;
    RepositionMoves(c, r.ar, h, e.seqno);
    LastIsLast(r, nv, start, e.seqno - 1);
  }

  lemma LastIsLast(r: Replica, nv: NewView, start: int, m: int)
    requires start == Max(Max(nv.min, r.lastPrepared), r.lastExecuted)
    requires m >= start && (forall p | 0 <= p < |nv.proofs| :: nv.proofs[p].seqno <= m)
    requires m == start || exists p :: 0 <= p < |nv.proofs| && nv.proofs[p].seqno == m
    ensures IsLast(r, nv, m)
  {
  }

  /** An accepted New_view is installed, any other one changes nothing. */
  lemma NewViewIsInstalled(c: Config, net: set<Msg>, r: Replica, nv: NewView, sender: int)
    requires Sound(c, net, r) && KeepsHead(c, r, Deliver(NewViewMsg(nv, sender)))
    ensures var e := HandleNewView(c, r, nv, sender);
            if AcceptsNewView(c, r, nv, sender) then Installs(c, r, e, nv) else e == r
  {
    if AcceptsNewView(c, r, nv, sender) {
      InstallsExactly(c, r, nv);
    }
  }

  /** The New_view that a primary builds and installs has the largest and the smallest stable
      seqno that any sender of its quorum reports, faulty or not, as its bounds. */
  lemma BuiltBoundsAre(c: Config, vi: ViewInfo, view: int)
    requires c.Valid() && |vi.received| >= 1 && forall q | q in vi.received :: 0 <= q < c.n
    ensures var nv := Build(c, vi, view);
            && nv.view == vi.target
            && (exists q :: q in vi.received && vi.received[q].ls == nv.min)
            && (exists q :: q in vi.received && vi.received[q].ls + c.window == nv.max)
            && forall q | q in vi.received :: vi.received[q].ls <= nv.min && nv.max <= vi.received[q].ls + c.window
  {
    FoldsAreExtremes(vi.received, c.n);
    var q := Pick(vi.received.Keys);
    assert 0 <= q < c.n && q in vi.received;
    var a :| 0 <= a < c.n && a in vi.received && vi.received[a].ls == Low(vi.received, c.n).value;
    var b :| 0 <= b < c.n && b in vi.received && vi.received[b].ls == Least(vi.received, c.n).value;
    assert vi.received[b].ls + c.window == Build(c, vi, view).max;
  }
}
