/** Runs in which the New_view that a correct primary builds is not what its backups need:
    one that they reject, and one that leaves out what they all have prepared. */
module BuilderRuns {
  import opened Types
  import opened Quorums
  import opened ViewChangeSpec
  import opened ReplicaSpec
  import opened Invariants
  import opened Protocol
  import opened Safety
  import opened NewViews
  import opened Builders
  import opened PreparedSplit
  import opened LimitRuns

  // --------------------------------------------------------------- who repeats

  /** A correct replica's View_change never repeats an entry. */
  lemma CorrectOnesDoNotRepeat(c: Config, faulty: set<int>, run: seq<Sys>, labels: seq<Label>, a: nat, i: int, q: int)
    requires IsRun(c, faulty, run, labels) && a < |run| && i in run[a].replicas
    requires q in run[a].replicas[i].vi.received && q !in faulty
    ensures NoRepeats(run[a].replicas[i].vi.received[q].reqs)
  {
    RunInv(c, faulty, run, labels, a);
    CollectedFromCorrect(c, faulty, run[a], i, q);
    IncreasingDoesNotRepeat(run[a].replicas[i].vi.received[q].reqs);
  }

  lemma CollectedFromCorrect(c: Config, faulty: set<int>, s: Sys, i: int, q: int)
    requires SysInv(c, faulty, s) && i in s.replicas && q in s.replicas[i].vi.received && q !in faulty
    ensures Increasing(s.replicas[i].vi.received[q].reqs)
  {
    var vc := s.replicas[i].vi.received[q];
    assert 0 <= q < c.n && vc.id == q && ViewChangeMsg(vc) in s.net;
    assert q in Upto(c.n) - faulty && q in s.replicas;
    assert ListsOk(s.net, q, s.replicas[q].lastStable);
  }

  lemma IncreasingDoesNotRepeat(reqs: seq<ReqInfo>)
    requires Increasing(reqs)
    ensures NoRepeats(reqs)
  {
    forall a, b | 0 <= a < b < |reqs|
      ensures PairOf(reqs[a]) != PairOf(reqs[b])
    {
      assert reqs[a].seqno < reqs[b].seqno;
    }
  }

  // ----------------------------------------------------- View_changes for view 1

  const ENTRY := ReqInfo(1, 0, D)

  /** A View_change for view 1 from a replica whose stable point is at the start. */
  function Vc1(i: int, reqs: seq<ReqInfo>): ViewChange { ViewChange(1, 0, reqs, i) }

  /** A replica that has collected these View_changes for view 1. */
  function With(r: Replica, inProgress: bool, from: map<int, ViewChange>): Replica {
    r.(vi := ViewInfo(1, inProgress, from))
  }

  /** A replica in view 0 that has not moved its stable point or window. */
  ghost predicate AtStart(r: Replica) {
    && Shaped(W2, r) && r.view == 0 && r.lastStable == 0 && r.lastExecuted == 0 && r.ar.head == 1
    && r.vi == ViewInfo(0, false, map[])
  }

  lemma HearsForged(r: Replica, vc: ViewChange)
    requires W2.Valid() && AtStart(r) && vc.view == 1 && 0 <= vc.id < 4
    ensures Makes(W2, r, Deliver(ViewChangeMsg(vc)), CALM, Outcome(With(r, false, map[vc.id := vc]), {}))
  {
    ValidW2();
    assert |map[vc.id := vc]| == 1;
  }

  lemma HearsAnother(r: Replica, inProgress: bool, from: map<int, ViewChange>, vc: ViewChange)
    requires W2.Valid() && AtStart(r) && vc.view == 1 && 0 <= vc.id < 4 && vc.id !in from
    requires r.id != 1 || |from| < 2
    ensures Makes(W2, With(r, inProgress, from), Deliver(ViewChangeMsg(vc)), CALM,
                  Outcome(With(r, inProgress, from[vc.id := vc]), {}))
  {
    ValidW2();
    assert |from[vc.id := vc]| == |from| + 1;
  }

  lemma AsksForView1(r: Replica, from: map<int, ViewChange>, reqs: seq<ReqInfo>)
    requires W2.Valid() && AtStart(r) && r.id !in from && reqs == PreparedList(W2, r, 2, r.lastPrepared)
    ensures var own := Vc1(r.id, reqs);
            Makes(W2, With(r, false, from), ViewTimeout, CALM,
                  Outcome(With(r, true, from[r.id := own]), {ViewChangeMsg(own)}))
  {
    SameList(r, With(r, true, from), r.lastPrepared);
    SameList(r, With(r, false, from), r.lastPrepared);
  }

  /** The list does not depend on what has been collected. */
  lemma {:induction false} SameList(r: Replica, r': Replica, s: int)
    requires r' == r.(vi := r'.vi)
    ensures PreparedList(W2, r', 2, s) == PreparedList(W2, r, 2, s)
    decreases s - r.lastStable
  {
    if s > r.lastStable {
      SameList(r, r', s - 1);
    }
  }

  lemma PreparedLists(i: int)
    requires i != 0 && W2.Valid()
    ensures AtStart(Voting(i, map[i := D])) && AtStart(Boot(W2, i))
    ensures PreparedList(W2, Voting(i, map[i := D]), 2, 1) == [ENTRY] && PreparedList(W2, Boot(W2, i), 2, 0) == []
  {
    var r := Voting(i, map[i := D]);
    assert Supporters(map[i := D, 0 := D], D) == {i, 0};
    assert r.ar.At(1).prepares == map[i := D, 0 := D] && r.ar.PreparedAt(W2, 1);
    assert PreparedList(W2, r, 2, 0) == [];
  }

  /** The New_view of the primary of view 1. */
  lemma BuildsNewView(r: Replica, inProgress: bool, from: map<int, ViewChange>, vc: ViewChange) returns (o: Outcome)
    requires W2.Valid() && AtStart(r) && r.id == 1 && vc.view == 1 && 0 <= vc.id < 4 && vc.id !in from
    requires |from| >= 2 && MinBound(W2, from[vc.id := vc]) == 0
    ensures Makes(W2, With(r, inProgress, from), Deliver(ViewChangeMsg(vc)), CALM, o)
    ensures o.out == {NewViewMsg(Build(W2, ViewInfo(1, inProgress, from[vc.id := vc]), 0), 1)}
  {
    ValidW2();
    assert |from[vc.id := vc]| == |from| + 1;
    o := React(W2, With(r, inProgress, from), Deliver(ViewChangeMsg(vc)), CALM);
  }

  // ----------------------------------------------------------------- steps

  lemma HearsForgedStep(s: Sys, i: int, r: Replica, vc: ViewChange) returns (s': Sys)
    requires W2.Valid() && Reachable(W2, {0}, s) && i in s.replicas && s.replicas[i] == r && AtStart(r)
    requires vc.view == 1 && 0 <= vc.id < 4 && ViewChangeMsg(vc) in s.net
    ensures Reachable(W2, {0}, s') && Moved(s, s', {i}) && s'.replicas[i] == With(r, false, map[vc.id := vc])
  {
    HearsForged(r, vc);
    s' := Reacts(W2, {0}, s, i, r, Deliver(ViewChangeMsg(vc)), CALM, Outcome(With(r, false, map[vc.id := vc]), {}));
  }

  lemma HearsAnotherStep(s: Sys, i: int, r: Replica, inProgress: bool, from: map<int, ViewChange>, vc: ViewChange)
    returns (s': Sys)
    requires W2.Valid() && Reachable(W2, {0}, s) && i in s.replicas && s.replicas[i] == With(r, inProgress, from)
    requires AtStart(r) && vc.view == 1 && 0 <= vc.id < 4 && vc.id !in from && ViewChangeMsg(vc) in s.net
    requires r.id != 1 || |from| < 2
    ensures Reachable(W2, {0}, s') && Moved(s, s', {i}) && s'.replicas[i] == With(r, inProgress, from[vc.id := vc])
  {
    HearsAnother(r, inProgress, from, vc);
    s' := Reacts(W2, {0}, s, i, With(r, inProgress, from), Deliver(ViewChangeMsg(vc)), CALM,
                 Outcome(With(r, inProgress, from[vc.id := vc]), {}));
  }

  lemma AsksStep1(s: Sys, i: int, r: Replica, from: map<int, ViewChange>, reqs: seq<ReqInfo>) returns (s': Sys)
    requires W2.Valid() && Reachable(W2, {0}, s) && i in s.replicas && s.replicas[i] == With(r, false, from) && r.id == i
    requires AtStart(r) && i !in from && reqs == PreparedList(W2, r, 2, r.lastPrepared)
    ensures Reachable(W2, {0}, s') && Moved(s, s', {i}) && s'.replicas[i] == With(r, true, from[i := Vc1(i, reqs)])
    ensures ViewChangeMsg(Vc1(i, reqs)) in s'.net
  {
    AsksForView1(r, from, reqs);
    s' := Reacts(W2, {0}, s, i, With(r, false, from), ViewTimeout, CALM,
                 Outcome(With(r, true, from[i := Vc1(i, reqs)]), {ViewChangeMsg(Vc1(i, reqs))}));
  }

  lemma BuildsStep(s: Sys, r: Replica, from: map<int, ViewChange>, vc: ViewChange) returns (s': Sys)
    requires W2.Valid() && Reachable(W2, {0}, s) && 1 in s.replicas && s.replicas[1] == With(r, true, from)
    requires AtStart(r) && r.id == 1 && vc.view == 1 && 0 <= vc.id < 4 && vc.id !in from && ViewChangeMsg(vc) in s.net
    requires |from| >= 2 && MinBound(W2, from[vc.id := vc]) == 0
    ensures Reachable(W2, {0}, s') && Moved(s, s', {1})
    ensures NewViewMsg(Build(W2, ViewInfo(1, true, from[vc.id := vc]), 0), 1) in s'.net
  {
    var o := BuildsNewView(r, true, from, vc);
    s' := Reacts(W2, {0}, s, 1, With(r, true, from), Deliver(ViewChangeMsg(vc)), CALM, o);
  }

  /** Replica `i` is prepared for the first request. */
  lemma PreparesFirst(s: Sys, i: int) returns (s': Sys)
    requires W2.Valid() && Reachable(W2, {0}, s) && 1 <= i < 4 && i in s.replicas && s.replicas[i] == Boot(W2, i)
    requires PrePrepareMsg(Proposal(0, FIRST), 0) in s.net && PrepareMsg(0, 1, D, 0) in s.net
    ensures Reachable(W2, {0}, s') && Moved(s, s', {i}) && s'.replicas[i] == Voting(i, map[i := D])
  {
    var s1 := TakesStep(s, i);
    s' := PreparesStep(s1, i);
  }

  /** Replica `i` hears of the forged View_change, times out and asks for view 1, too. */
  lemma JoinsView1(s: Sys, i: int, r: Replica, vc: ViewChange, reqs: seq<ReqInfo>) returns (s': Sys)
    requires W2.Valid() && Reachable(W2, {0}, s) && 1 <= i < 4 && i in s.replicas && s.replicas[i] == r
    requires r.id == i && AtStart(r) && reqs == PreparedList(W2, r, 2, r.lastPrepared)
    requires vc.view == 1 && vc.id == 0 && ViewChangeMsg(vc) in s.net
    ensures Reachable(W2, {0}, s') && Moved(s, s', {i})
    ensures s'.replicas[i] == With(r, true, map[0 := vc, i := Vc1(i, reqs)]) && ViewChangeMsg(Vc1(i, reqs)) in s'.net
  {
    var s1 := HearsForgedStep(s, i, r, vc);
    s' := AsksStep1(s1, i, r, map[0 := vc], reqs);
  }

  /** What replica 0 forges: the proposal, its Prepare for it, and a View_change. */
  lemma Forged(vc: ViewChange) returns (s: Sys)
    requires vc.id == 0
    ensures W2.Valid() && Reachable(W2, {0}, s)
    ensures IsFresh(W2, s, 1) && IsFresh(W2, s, 2) && IsFresh(W2, s, 3)
    ensures PrePrepareMsg(Proposal(0, FIRST), 0) in s.net && PrepareMsg(0, 1, D, 0) in s.net && ViewChangeMsg(vc) in s.net
  {
    ValidW2();
    StartIsReachable(W2, {0});
    s := Start(W2, {0});
    s := ForgeAll(W2, {0}, s, {PrePrepareMsg(Proposal(0, FIRST), 0), PrepareMsg(0, 1, D, 0), ViewChangeMsg(vc)});
  }

  // ------------------------------------------------------- a repeated entry

  const TWICE := Vc1(0, [ENTRY, ENTRY])

  /** What both replicas 1 and 2 have collected. */
  const REPEATED: map<int, ViewChange> := map[0 := TWICE, 1 := Vc1(1, [ENTRY]), 2 := Vc1(2, [])]

  lemma RepeatedBounds()
    ensures MinBound(W2, REPEATED) == 0 && MaxBound(W2, REPEATED) == 2
  {
    var r := REPEATED;
    assert Low(r, 1) == Some(0) && Low(r, 2) == Some(0) && Low(r, 3) == Some(0) && Low(r, 4) == Some(0);
    assert Least(r, 1) == Some(0) && Least(r, 2) == Some(0) && Least(r, 3) == Some(0) && Least(r, 4) == Some(0);
  }

  lemma RepeatedLooked()
    ensures Looked(W2, REPEATED, 0, 2, 4) == [PairOf(ENTRY), PairOf(ENTRY), PairOf(ENTRY)]
  {
    var r, p := REPEATED, PairOf(ENTRY);
    assert Within(0, 2, [ENTRY, ENTRY], 0) == [];
    assert Within(0, 2, [ENTRY, ENTRY], 1) == [p];
    assert Within(0, 2, [ENTRY, ENTRY], 2) == [p, p];
    assert Within(0, 2, [ENTRY], 0) == [];
    assert Within(0, 2, [ENTRY], 1) == [p];
    assert Looked(W2, r, 0, 2, 1) == [p, p];
    assert Looked(W2, r, 0, 2, 2) == [p, p, p];
    assert Looked(W2, r, 0, 2, 3) == [p, p, p];
  }

  /** The pair is counted three times, and two senders list it. */
  lemma TwiceIsNotHonest(inProgress: bool)
    ensures var vi := ViewInfo(1, inProgress, REPEATED);
            W2.Valid() && !CountsAreSenders(W2, vi) && !Verify(W2, vi, Build(W2, vi, 0))
  {
    ValidW2();
    RepeatedBounds();
    RepeatedLooked();
    var vi, p := ViewInfo(1, inProgress, REPEATED), PairOf(ENTRY);
    assert AllLooked(W2, vi) == [p, p, p];
    ThreeTimes(p);
    assert Candidates(W2, vi)[0] == p && HasRoom(W2, vi, 0);
    SubsetSize(Attesters(REPEATED, 1, D), {0, 1});
    assert !IsHonest(W2, vi, p);
    assert REPEATED.Keys == {0, 1, 2} && |REPEATED| == |REPEATED.Keys|;
    BuiltNewViewVerifiesExactly(W2, vi, 0);
  }

  lemma ThreeTimes(p: Pair)
    ensures Occurs([p, p, p], p) == 3 && Firsts([p, p, p]) == [p]
  {
    assert [p][..0] == [] && Firsts([]) == [];
    assert Occurs([p], p) == 1 && Firsts([p]) == [p];
    assert [p, p][..1] == [p];
    assert Occurs([p, p], p) == 2 && Firsts([p, p]) == [p];
    assert [p, p, p][..2] == [p, p];
  }

  /** The correct replicas 1 and 2 collect the same three View_changes: the one of the faulty
      replica 0 lists what replica 1 has prepared twice, replica 2 has nothing to list.
      Replica 1, the primary of view 1, builds a New_view that replica 2 rejects. */
  lemma RepeatedEntryIsRejected() returns (s: Sys, nv: NewView)
    ensures W2.Valid() && Reachable(W2, {0}, s) && 1 in s.replicas && 2 in s.replicas
    ensures NewViewMsg(nv, 1) in s.net && nv == Build(W2, ViewInfo(1, true, REPEATED), 0)
    ensures s.replicas[2].vi == ViewInfo(1, true, REPEATED)
    ensures !AcceptsNewView(W2, s.replicas[2], nv, 1)
  {
    s := RepeatedIsCollected();
    RepeatedBounds();
    var two := map[0 := TWICE, 1 := Vc1(1, [ENTRY])];
    PreparedLists(1);
    s := BuildsStep(s, Voting(1, map[1 := D]), two, Vc1(2, []));
    nv := Build(W2, ViewInfo(1, true, REPEATED), 0);
    TwiceIsNotHonest(true);
  }

  lemma RepeatedIsCollected() returns (s: Sys)
    ensures W2.Valid() && Reachable(W2, {0}, s) && 1 in s.replicas && 2 in s.replicas
    ensures s.replicas[1] == With(Voting(1, map[1 := D]), true, map[0 := TWICE, 1 := Vc1(1, [ENTRY])])
    ensures s.replicas[2] == With(Boot(W2, 2), true, REPEATED)
    ensures ViewChangeMsg(Vc1(2, [])) in s.net
  {
    var s1 := PrimaryAsks(TWICE);
    PreparedLists(2);
    var s2 := JoinsView1(s1, 2, Boot(W2, 2), TWICE, []);
    NotMoved(s1, s2, 2, 2, 1);
    s := HearsAnotherStep(s2, 2, Boot(W2, 2), true, map[0 := TWICE, 2 := Vc1(2, [])], Vc1(1, [ENTRY]));
    NotMoved(s2, s, 2, 2, 1);
    SameCollected();
  }

  lemma SameCollected()
    ensures var from: map<int, ViewChange> := map[0 := TWICE, 2 := Vc1(2, [])];
            from[1 := Vc1(1, [ENTRY])] == REPEATED
  {
  }

  /** Replica 1 has prepared the first request and asks for view 1; replica 2 is fresh. */
  lemma PrimaryAsks(vc: ViewChange) returns (s: Sys)
    requires vc.view == 1 && vc.id == 0
    ensures W2.Valid() && Reachable(W2, {0}, s) && 1 in s.replicas && IsFresh(W2, s, 2)
    ensures s.replicas[1] == With(Voting(1, map[1 := D]), true, map[0 := vc, 1 := Vc1(1, [ENTRY])])
    ensures ViewChangeMsg(vc) in s.net && ViewChangeMsg(Vc1(1, [ENTRY])) in s.net
  {
    var s0 := Forged(vc);
    var s1 := PreparesFirst(s0, 1);
    NotMoved(s0, s1, 1, 1, 2);
    PreparedLists(1);
    s := JoinsView1(s1, 1, Voting(1, map[1 := D]), vc, [ENTRY]);
    NotMoved(s1, s, 1, 1, 2);
  }

  // --------------------------------------------------------- a flooded table

  /** A whole window of pairs that nobody has prepared. */
  const FLOOD := Vc1(0, [ReqInfo(1, 0, Zero), ReqInfo(2, 0, Zero)])
  const FLOODED: map<int, ViewChange> :=
    map[0 := FLOOD, 1 := Vc1(1, [ENTRY]), 2 := Vc1(2, [ENTRY]), 3 := Vc1(3, [ENTRY])]

  lemma FloodedBounds()
    ensures MinBound(W2, FLOODED) == 0 && MaxBound(W2, FLOODED) == 2
  {
    var r := FLOODED;
    assert Low(r, 1) == Some(0) && Low(r, 2) == Some(0) && Low(r, 3) == Some(0) && Low(r, 4) == Some(0);
    assert Least(r, 1) == Some(0) && Least(r, 2) == Some(0) && Least(r, 3) == Some(0) && Least(r, 4) == Some(0);
  }

  lemma EnoughListEntry()
    ensures |Listers(W2, FLOODED, PairOf(ENTRY), 4)| >= 3
  {
    var listers := Listers(W2, FLOODED, PairOf(ENTRY), 4);
    forall q | q in {1, 2, 3}
      ensures q in listers
    {
      assert FLOODED[q].reqs[0] == ENTRY;
      assert IsCounted(W2, FLOODED, q) && Lists(FLOODED[q], 1, D);
    }
    SubsetSize({1, 2, 3}, listers);
  }

  lemma EntryIsHidden(inProgress: bool)
    ensures W2.Valid() && !Proven(Build(W2, ViewInfo(1, inProgress, FLOODED), 0).proofs, PairOf(ENTRY))
  {
    ValidW2();
    FloodedBounds();
    FloodingHidesTheRest(W2, ViewInfo(1, inProgress, FLOODED), 0, PairOf(ENTRY));
  }

  /** Replicas 1, 2 and 3 have all prepared the first request and say so; the faulty replica 0
      lists a whole window of other pairs. */
  lemma FloodIsCollected() returns (s: Sys)
    ensures W2.Valid() && Reachable(W2, {0}, s) && 1 in s.replicas
    ensures s.replicas[1] == With(Voting(1, map[1 := D]), true, map[0 := FLOOD, 2 := Vc1(2, [ENTRY]), 1 := Vc1(1, [ENTRY])])
    ensures ViewChangeMsg(Vc1(3, [ENTRY])) in s.net
  {
    var s1 := BackupsAsk();
    PreparedLists(1);
    var r := Voting(1, map[1 := D]);
    var s2 := HearsForgedStep(s1, 1, r, FLOOD);
    var s3 := HearsAnotherStep(s2, 1, r, false, map[0 := FLOOD], Vc1(2, [ENTRY]));
    s := AsksStep1(s3, 1, r, map[0 := FLOOD, 2 := Vc1(2, [ENTRY])], [ENTRY]);
  }

  /** Replicas 2 and 3 ask for view 1; replica 1 is prepared. */
  lemma BackupsAsk() returns (s: Sys)
    ensures W2.Valid() && Reachable(W2, {0}, s) && 1 in s.replicas && s.replicas[1] == Voting(1, map[1 := D])
    ensures ViewChangeMsg(FLOOD) in s.net
    ensures ViewChangeMsg(Vc1(2, [ENTRY])) in s.net && ViewChangeMsg(Vc1(3, [ENTRY])) in s.net
  {
    var s0 := Forged(FLOOD);
    var s1 := BackupAsks(s0, 2);
    NotMoved(s0, s1, 2, 2, 3);
    NotMoved(s0, s1, 2, 2, 1);
    var s2 := BackupAsks(s1, 3);
    NotMoved(s1, s2, 3, 3, 1);
    s := PreparesFirst(s2, 1);
  }

  lemma BackupAsks(s: Sys, i: int) returns (s': Sys)
    requires W2.Valid() && Reachable(W2, {0}, s) && 1 <= i < 4 && IsFresh(W2, s, i)
    requires PrePrepareMsg(Proposal(0, FIRST), 0) in s.net && PrepareMsg(0, 1, D, 0) in s.net
    requires ViewChangeMsg(FLOOD) in s.net
    ensures Reachable(W2, {0}, s') && Moved(s, s', {i}) && ViewChangeMsg(Vc1(i, [ENTRY])) in s'.net
  {
    var s1 := PreparesFirst(s, i);
    PreparedLists(i);
    s' := JoinsView1(s1, i, Voting(i, map[i := D]), FLOOD, [ENTRY]);
  }

  /** All three correct replicas list the request that they have prepared, the primary of
      view 1 has collected their View_changes, and its New_view does not prove it. */
  lemma PreparedEntryIsHidden() returns (s: Sys, nv: NewView)
    ensures W2.Valid() && Reachable(W2, {0}, s)
    ensures nv == Build(W2, ViewInfo(1, true, FLOODED), 0) && NewViewMsg(nv, 1) in s.net
    ensures |Listers(W2, FLOODED, PairOf(ENTRY), 4)| >= W2.CommitThreshold() && !Proven(nv.proofs, PairOf(ENTRY))
  {
    s := FloodIsCollected();
    FloodedBounds();
    PreparedLists(1);
    FloodOrder();
    s := BuildsStep(s, Voting(1, map[1 := D]), map[0 := FLOOD, 2 := Vc1(2, [ENTRY]), 1 := Vc1(1, [ENTRY])], Vc1(3, [ENTRY]));
    nv := Build(W2, ViewInfo(1, true, FLOODED), 0);
    EnoughListEntry();
    EntryIsHidden(true);
  }

  lemma FloodOrder()
    ensures var from: map<int, ViewChange> := map[0 := FLOOD, 2 := Vc1(2, [ENTRY]), 1 := Vc1(1, [ENTRY])];
            from[3 := Vc1(3, [ENTRY])] == FLOODED && from.Keys == {0, 1, 2} && |from| >= 2
  {
    var from: map<int, ViewChange> := map[0 := FLOOD, 2 := Vc1(2, [ENTRY]), 1 := Vc1(1, [ENTRY])];
    assert from.Keys == {0, 1, 2} && |from| == |from.Keys|;
  }
}
