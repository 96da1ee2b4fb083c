/** Runs in which the code does less than its documentation says: the states that `Limits`
    describes do come about. */
module LimitRuns {
  import opened Types
  import opened Quorums
  import opened ViewChangeSpec
  import opened ReplicaSpec
  import opened Invariants
  import opened Protocol
  import opened Safety
  import opened PreparedSplit
  import opened StableQuorums
  import opened Tallies

  // ------------------------------------------------------ moving the head back

  /** Four replicas, a window of four and a checkpoint at every second seqno. */
  const C4 := Config(4, 1, 8, 4, 2, 2, 16, 16)
  const OLD := PrePrepare(0, 3, OfRequests(FIRST), FIRST, [])
  const NEW := PrePrepare(4, 3, OfRequests(SECOND), SECOND, [])
  const VIEW4 := NewView(4, 0, 4, [])

  /** The View_change that nobody with an empty log can be denied. */
  function Vc(i: int): ViewChange { ViewChange(4, 0, [], i) }

  /** A replica that has not done anything but collect View_changes. */
  function Collecting(i: int, inProgress: bool, from: map<int, ViewChange>): Replica {
    Boot(C4, i).(vi := ViewInfo(4, inProgress, from))
  }

  /** Replica 1 after it has fetched the state of seqno 2 ... */
  function Fetched(from: map<int, ViewChange>): Replica {
    Collecting(1, false, from).(
      lastStable := 2, stateLastStable := 2, lastExecuted := 2, lastPrepared := 2, seqno := 3, fetchSeqno := 2,
      ar := Region(3, [EMPTY_SLICE, EMPTY_SLICE, EMPTY_SLICE, EMPTY_SLICE]), log := [Jumped(2)])
  }

  /** ... and has voted for seqno 3. */
  function Backup(from: map<int, ViewChange>): Replica {
    Fetched(from).(
      seqno := 4, accepted := map[3 := OLD.digest],
      ar := Region(3, [Slice(Some(OLD), map[1 := OLD.digest], map[]), EMPTY_SLICE, EMPTY_SLICE, EMPTY_SLICE]))
  }

  lemma ValidC4()
    ensures C4.Valid() && C4.Primary(4) == 0 && C4.Primary(0) == 0
  {
  }

  lemma Collects(i: int, from: map<int, ViewChange>, q: int)
    requires C4.Valid() && 1 <= i < 4 && 0 <= q < 4 && q !in from
    ensures Makes(C4, Collecting(i, false, from), Deliver(ViewChangeMsg(Vc(q))), CALM,
                  Outcome(Collecting(i, false, from[q := Vc(q)]), {}))
  {
    ValidC4();
  }

  lemma CollectsFirst(i: int)
    requires C4.Valid() && 1 <= i < 4
    ensures Makes(C4, Boot(C4, i), Deliver(ViewChangeMsg(Vc(0))), CALM, Outcome(Collecting(i, false, map[0 := Vc(0)]), {}))
  {
    ValidC4();
  }

  lemma TimesOut(i: int) returns (o: Outcome)
    requires C4.Valid() && 1 <= i < 4
    ensures Makes(C4, Collecting(i, false, map[0 := Vc(0)]), ViewTimeout, CALM, o)
    ensures ViewChangeMsg(Vc(i)) in o.out
  {
    o := React(C4, Collecting(i, false, map[0 := Vc(0)]), ViewTimeout, CALM);
  }

  function Fetching(from: map<int, ViewChange>): Replica {
    Collecting(1, false, from).(inFetch := true, fetchSeqno := 2)
  }

  lemma EndsFetch(from: map<int, ViewChange>)
    requires C4.Valid()
    ensures Makes(C4, Fetching(from), EndFetch(Zero), CALM, Outcome(Fetched(from), {}))
  {
    var r := Collecting(1, false, from).(fetchSeqno := 2);
    var none: map<int, Digest> := map[];
    assert r.ckpts[SlotIndex(C4, 2)] == EMPTY_CKPT && !HasWinner(none, 3);
    assert TruncateCkpts(r.ckpts, 2) == r.ckpts;
    assert Truncate(r.ar, 3) == Region(3, [EMPTY_SLICE, EMPTY_SLICE, EMPTY_SLICE, EMPTY_SLICE]);
  }

  lemma VotesAtThree(from: map<int, ViewChange>)
    requires C4.Valid()
    ensures Makes(C4, Fetched(from), Deliver(PrePrepareMsg(OLD, 0)), CALM,
                  Outcome(Backup(from), {PrepareMsg(0, 3, OfRequests(FIRST), 1)}))
  {
    ValidC4();
    var r := Fetched(from);
    assert PassesWindow(C4, r, OLD, 0) && ProposalOk(C4, OLD) && r.ar.InRange(3) && r.ar.At(3) == EMPTY_SLICE;
    var none: map<int, Digest> := map[];
    assert none.Values == {} && CanVote(none, 1, OLD.digest, 2);
    assert AddVote(none, 1, OLD.digest, 2) == map[1 := OLD.digest];
    var stored := [Slice(Some(OLD), none, none), EMPTY_SLICE, EMPTY_SLICE, EMPTY_SLICE];
    assert StorePp(r, OLD).ar == Region(3, stored);
  }

  lemma HearsFirst(s: Sys, i: int) returns (s': Sys)
    requires C4.Valid() && Reachable(C4, {0}, s) && 1 <= i < 4 && i in s.replicas && s.replicas[i] == Boot(C4, i)
    requires ViewChangeMsg(Vc(0)) in s.net
    ensures Reachable(C4, {0}, s') && Moved(s, s', {i}) && s'.replicas[i] == Collecting(i, false, map[0 := Vc(0)])
  {
    CollectsFirst(i);
    s' := Reacts(C4, {0}, s, i, Boot(C4, i), Deliver(ViewChangeMsg(Vc(0))), CALM,
                 Outcome(Collecting(i, false, map[0 := Vc(0)]), {}));
  }

  /** Replica `i` hears of view 4, times out and asks for it, too. */
  lemma Joins(s: Sys, i: int) returns (s': Sys)
    requires C4.Valid() && Reachable(C4, {0}, s) && 1 <= i < 4 && i in s.replicas && s.replicas[i] == Boot(C4, i)
    requires ViewChangeMsg(Vc(0)) in s.net
    ensures Reachable(C4, {0}, s') && Moved(s, s', {i}) && ViewChangeMsg(Vc(i)) in s'.net
  {
    var s1 := HearsFirst(s, i);
    var o := TimesOut(i);
    s' := Reacts(C4, {0}, s1, i, Collecting(i, false, map[0 := Vc(0)]), ViewTimeout, CALM, o);
  }

  lemma HearsOf(s: Sys, from: map<int, ViewChange>, q: int) returns (s': Sys)
    requires C4.Valid() && Reachable(C4, {0}, s) && 1 in s.replicas && s.replicas[1] == Collecting(1, false, from)
    requires 0 <= q < 4 && q !in from && ViewChangeMsg(Vc(q)) in s.net
    ensures Reachable(C4, {0}, s') && Moved(s, s', {1}) && s'.replicas[1] == Collecting(1, false, from[q := Vc(q)])
  {
    Collects(1, from, q);
    s' := Reacts(C4, {0}, s, 1, Collecting(1, false, from), Deliver(ViewChangeMsg(Vc(q))), CALM,
                 Outcome(Collecting(1, false, from[q := Vc(q)]), {}));
  }

  lemma StartsFetch(from: map<int, ViewChange>)
    requires C4.Valid()
    ensures Makes(C4, Collecting(1, false, from), BeginFetch(2), CALM, Outcome(Fetching(from), {}))
  {
  }

  lemma BeginsFetch(s: Sys, from: map<int, ViewChange>) returns (s': Sys)
    requires C4.Valid() && Reachable(C4, {0}, s) && 1 in s.replicas && s.replicas[1] == Collecting(1, false, from)
    ensures Reachable(C4, {0}, s') && Moved(s, s', {1}) && s'.replicas[1] == Fetching(from)
  {
    StartsFetch(from);
    s' := Reacts(C4, {0}, s, 1, Collecting(1, false, from), BeginFetch(2), CALM, Outcome(Fetching(from), {}));
  }

  lemma FetchesTwo(s: Sys, from: map<int, ViewChange>) returns (s': Sys)
    requires C4.Valid() && Reachable(C4, {0}, s) && 1 in s.replicas && s.replicas[1] == Collecting(1, false, from)
    ensures Reachable(C4, {0}, s') && Moved(s, s', {1}) && s'.replicas[1] == Fetched(from)
  {
    var s1 := BeginsFetch(s, from);
    EndsFetch(from);
    s' := Reacts(C4, {0}, s1, 1, Fetching(from), EndFetch(Zero), CALM, Outcome(Fetched(from), {}));
  }

  /** Replica 1 votes. */
  lemma MovesOn(s: Sys, from: map<int, ViewChange>) returns (s': Sys)
    requires C4.Valid() && Reachable(C4, {0}, s) && 1 in s.replicas && s.replicas[1] == Fetched(from)
    requires PrePrepareMsg(OLD, 0) in s.net
    ensures Reachable(C4, {0}, s') && Moved(s, s', {1}) && s'.replicas[1] == Backup(from)
    ensures PrepareMsg(0, 3, OfRequests(FIRST), 1) in s'.net
  {
    VotesAtThree(from);
    s' := Reacts(C4, {0}, s, 1, Fetched(from), Deliver(PrePrepareMsg(OLD, 0)), CALM,
                 Outcome(Backup(from), {PrepareMsg(0, 3, OfRequests(FIRST), 1)}));
  }

  const COLLECTED: map<int, ViewChange> := map[0 := Vc(0), 2 := Vc(2), 3 := Vc(3)]

  lemma AllHaveSent() returns (s: Sys)
    ensures C4.Valid() && Reachable(C4, {0}, s)
    ensures 1 in s.replicas && s.replicas[1] == Boot(C4, 1)
    ensures ViewChangeMsg(Vc(0)) in s.net && ViewChangeMsg(Vc(2)) in s.net && ViewChangeMsg(Vc(3)) in s.net
    ensures PrePrepareMsg(OLD, 0) in s.net && NewViewMsg(VIEW4, 0) in s.net && PrePrepareMsg(NEW, 0) in s.net
  {
    ValidC4();
    StartIsReachable(C4, {0});
    s := Start(C4, {0});
    s := ForgeAll(C4, {0}, s, {ViewChangeMsg(Vc(0)), PrePrepareMsg(OLD, 0), NewViewMsg(VIEW4, 0), PrePrepareMsg(NEW, 0)});
    s := Joins(s, 2);
    s := Joins(s, 3);
  }

  /** The state in which only the guard on the head keeps replica 1 from going back. */
  lemma BackupIsReachable() returns (s: Sys)
    ensures C4.Valid() && Reachable(C4, {0}, s)
    ensures 1 in s.replicas && s.replicas[1] == Backup(COLLECTED)
    ensures NewViewMsg(VIEW4, 0) in s.net && PrePrepareMsg(NEW, 0) in s.net
    ensures PrepareMsg(0, 3, OfRequests(FIRST), 1) in s.net
  {
    s := AllHaveSent();
    s := HearsFirst(s, 1);
    s := HearsOf(s, map[0 := Vc(0)], 2);
    s := HearsOf(s, map[0 := Vc(0), 2 := Vc(2)], 3);
    s := FetchesTwo(s, COLLECTED);
    s := MovesOn(s, COLLECTED);
  }

  /** The New_view is accepted: its low bound is the one that the collected View_changes give. */
  lemma OldBoundIsAccepted()
    ensures C4.Valid() && AcceptsNewView(C4, Backup(COLLECTED), VIEW4, 0)
  {
    ValidC4();
    var r := COLLECTED;
    assert Low(r, 1) == Some(0) && Low(r, 2) == Some(0) && Low(r, 3) == Some(0) && Low(r, 4) == Some(0);
    assert Least(r, 1) == Some(0) && Least(r, 2) == Some(0) && Least(r, 3) == Some(0) && Least(r, 4) == Some(0);
    assert r.Keys == {0, 2, 3};
    assert |r| == |r.Keys|;
  }

  /** Replica 1 after the New_view. */
  function Behind(): Replica {
    InstallNewView(C4, Backup(COLLECTED), VIEW4)
  }

  lemma GoesBack()
    requires C4.Valid()
    ensures var r, ev := Backup(COLLECTED), Deliver(NewViewMsg(VIEW4, 0));
            && !KeepsHead(C4, r, ev)
            && React(C4, r, ev, CALM) == Outcome(Behind(), {})
  {
    OldBoundIsAccepted();
  }

  lemma VotesAgain()
    requires C4.Valid()
    ensures Behind().ar.head == 1 && Shaped(C4, Behind()) && !HistoryOk(Behind().ar, Behind().accepted)
    ensures React(C4, Behind(), Deliver(PrePrepareMsg(NEW, 0)), CALM).out == {PrepareMsg(4, 3, OfRequests(SECOND), 1)}
  {
    ValidC4();
    var b, r := Backup(COLLECTED), Behind();
    assert r.seqno == 3 && r.lastStable == 2;
    assert Truncate(b.ar, 1) == b.ar;
    assert r.ar == Region(1, b.ar.slots);
    assert PassesWindow(C4, r, NEW, 0);
    assert r.ar.InRange(3) && r.ar.At(3) == EMPTY_SLICE;
    assert r.ar.HasPp(1) && !HistoryAt(r.ar, r.accepted, 1);
    var none: map<int, Digest> := map[];
    assert none.Values == {} && CanVote(none, 1, NEW.digest, 2);
  }

  /** A run after which a correct replica that has voted for one digest at seqno 3 receives a
      New_view it accepts, whose low bound is behind its head; installing it, as the code
      does, makes it vote for a second digest at seqno 3. */
  lemma BackwardHeadVotesTwice() returns (s: Sys, r: Replica, r': Replica)
    ensures C4.Valid() && Reachable(C4, {0}, s) && 1 in s.replicas && r == s.replicas[1] && Shaped(C4, r)
    ensures PrepareMsg(0, 3, OfRequests(FIRST), 1) in s.net
    ensures NewViewMsg(VIEW4, 0) in s.net && PrePrepareMsg(NEW, 0) in s.net
    ensures !KeepsHead(C4, r, Deliver(NewViewMsg(VIEW4, 0)))
    ensures React(C4, r, Deliver(NewViewMsg(VIEW4, 0)), CALM) == Outcome(r', {})
    ensures r'.ar.head < r.ar.head && Shaped(C4, r') && !HistoryOk(r'.ar, r'.accepted)
    ensures React(C4, r', Deliver(PrePrepareMsg(NEW, 0)), CALM).out == {PrepareMsg(4, 3, OfRequests(SECOND), 1)}
    ensures OfRequests(FIRST) != OfRequests(SECOND)
  {
    s := BackupIsReachable();
    r, r' := Backup(COLLECTED), Behind();
    GoesBack();
    VotesAgain();
  }

  // ------------------------------------------------ votes for another seqno

  /** A checkpoint at every seqno and a window of two: seqnos 1 and 5 share a slot. */
  const W2 := Config(4, 1, 8, 2, 1, 2, 16, 16)
  const D := OfRequests(FIRST)
  const ROOT := OfBlock([7])

  /** The application accepts everything, and its state hashes to `ROOT`. */
  const RUNS := Env(_ => true, _ => ROOT, _ => false, false)

  function Holding(prepares: map<int, Digest>, commits: map<int, Digest>): Region {
    Region(1, [Slice(Some(Proposal(0, FIRST)), prepares, commits), EMPTY_SLICE])
  }

  /** Replica `i` on its way to committing the first request. */
  function Taken(i: int): Replica {
    Boot(W2, i).(ar := Holding(map[i := D], map[]), accepted := map[1 := D], seqno := 2)
  }

  function Voting(i: int, commits: map<int, Digest>): Replica {
    Taken(i).(ar := Holding(map[i := D, 0 := D], commits), lastPrepared := 1)
  }

  lemma ValidW2()
    ensures W2.Valid() && W2.Primary(0) == 0 && W2.CheckpointSlots() == 4
    ensures SlotIndex(W2, 1) == 1 && SlotIndex(W2, 5) == 1
  {
  }

  lemma Takes(i: int)
    requires W2.Valid() && 1 <= i < 4
    ensures Makes(W2, Boot(W2, i), Deliver(PrePrepareMsg(Proposal(0, FIRST), 0)), RUNS,
                  Outcome(Taken(i), {PrepareMsg(0, 1, D, i)}))
  {
    ValidW2();
    var b, pp := Boot(W2, i), Proposal(0, FIRST);
    assert PassesWindow(W2, b, pp, 0) && ProposalOk(W2, pp) && b.ar.InRange(1) && b.ar.At(1) == EMPTY_SLICE;
    var none: map<int, Digest> := map[];
    assert none.Values == {} && CanVote(none, i, D, 2);
    assert StorePp(b, pp).ar == Holding(none, none);
    assert AddVote(none, i, D, 2) == map[i := D];
  }

  lemma Prepares(i: int)
    requires W2.Valid() && 1 <= i < 4
    ensures Makes(W2, Taken(i), Deliver(PrepareMsg(0, 1, D, 0)), RUNS,
                  Outcome(Voting(i, map[i := D]), {CommitMsg(0, 1, D, i)}))
  {
    var votes: map<int, Digest> := map[i := D];
    assert votes[i] == D && D in votes.Values && CanVote(votes, 0, D, 2);
    var r1 := Taken(i).(ar := AddPrepare(W2, Taken(i).ar, 1, 0, D));
    assert r1.ar == Holding(map[i := D, 0 := D], map[]);
    assert Supporters(map[i := D, 0 := D], D) == {i, 0};
    var r2 := r1.(lastPrepared := 1);
    var none: map<int, Digest> := map[];
    assert none.Values == {} && CanVote(none, i, D, 2) && AddVote(none, i, D, 2) == votes;
    assert SendCommit(W2, r2, 1) == Outcome(Voting(i, votes), {CommitMsg(0, 1, D, i)});
    FewCommits(W2, votes, i);
  }

  lemma TwoAreFew(i: int)
    requires i != 0
    ensures !HasWinner(map[i := D, 0 := D], 3)
  {
    var votes: map<int, Digest> := map[i := D, 0 := D];
    forall d
      ensures !Wins(votes, 3, d)
    {
      SubsetSize(Supporters(votes, d), {i, 0});
    }
  }

  lemma CountsFirst(i: int)
    requires W2.Valid() && 1 <= i < 4
    ensures Makes(W2, Voting(i, map[i := D]), Deliver(CommitMsg(0, 1, D, 0)), RUNS,
                  Outcome(Voting(i, map[i := D, 0 := D]), {}))
  {
    var votes: map<int, Digest> := map[i := D];
    assert votes[i] == D && D in votes.Values && CanVote(votes, 0, D, 2);
    var r := Voting(i, votes);
    assert AddCommit(W2, r.ar, 1, 0, D) == Holding(map[i := D, 0 := D], map[i := D, 0 := D]);
    TwoAreFew(i);
  }

  lemma ThreeWin(i: int, j: int)
    requires i != j && i != 0 && j != 0
    ensures var votes := map[i := D, 0 := D, j := D]; Wins(votes, 3, D) && HasWinner(votes, 3)
  {
    var votes: map<int, Digest> := map[i := D, 0 := D, j := D];
    assert Supporters(votes, D) == {i, 0, j};
    assert i in votes && votes[i] == D;
  }

  /** Executing the first request and voting for the checkpoint after it. */
  lemma ExecutesFirst(i: int, commits: map<int, Digest>) returns (o: Outcome)
    requires W2.Valid() && 1 <= i < 4 && Wins(commits, 3, D)
    ensures o == ExecuteCommitted(W2, Voting(i, commits), RUNS)
    ensures CheckpointMsg(1, ROOT, i) in o.out && o.r.id == i && o.r.lastExecuted == 1
  {
    ValidW2();
    var r := Voting(i, commits);
    assert r.ar.ReadyAt(W2, 1);
    o := ExecuteCommitted(W2, r, RUNS);
    var one := ExecuteOne(W2, r, RUNS);
    assert one == TakeCheckpoint(W2, Logged(r, 1), 1, RUNS);
    assert one.r.lastExecuted == 1 && one.r.lastPrepared == 1;
  }

  lemma CommitCounted(i: int, j: int)
    requires W2.Valid() && 1 <= i < 4 && 1 <= j < 4 && i != j
    ensures HandleCommit(W2, Voting(i, map[i := D, 0 := D]), 0, 1, D, j, RUNS) ==
            ExecuteIfCommitted(W2, Outcome(Voting(i, map[i := D, 0 := D, j := D]), {}), 1, RUNS)
  {
    var votes: map<int, Digest> := map[i := D, 0 := D];
    assert votes[0] == D && D in votes.Values && CanVote(votes, j, D, 2);
    var r, three := Voting(i, votes), map[i := D, 0 := D, j := D];
    assert AddCommit(W2, r.ar, 1, j, D) == Holding(map[i := D, 0 := D], three);
  }

  lemma CountsSecond(i: int, j: int) returns (o: Outcome)
    requires W2.Valid() && 1 <= i < 4 && 1 <= j < 4 && i != j
    ensures o == HandleCommit(W2, Voting(i, map[i := D, 0 := D]), 0, 1, D, j, RUNS)
    ensures CheckpointMsg(1, ROOT, i) in o.out && o.r.id == i && o.r.lastExecuted == 1
  {
    var three := map[i := D, 0 := D, j := D];
    ThreeWin(i, j);
    var e := ExecutesFirst(i, three);
    CommitCounted(i, j);
    o := ExecuteIfCommitted(W2, Outcome(Voting(i, three), {}), 1, RUNS);
    assert o == Outcome(e.r, {} + e.out);
  }

  lemma MakesCommit(i: int, j: int, o: Outcome)
    requires W2.Valid() && 1 <= i < 4 && 1 <= j < 4
    requires o == HandleCommit(W2, Voting(i, map[i := D, 0 := D]), 0, 1, D, j, RUNS)
    ensures Makes(W2, Voting(i, map[i := D, 0 := D]), Deliver(CommitMsg(0, 1, D, j)), RUNS, o)
  {
  }

  // ------------------------------------------------------------- replica 1

  /** Replica 1 with the Checkpoints of these senders in the slot of seqnos 1 and 5. */
  function Witness(from: set<int>, votes: map<int, Digest>): Replica {
    Boot(W2, 1).(ckpts := [EMPTY_CKPT, CkptSlot(1, from, votes), EMPTY_CKPT, EMPTY_CKPT])
  }

  ghost predicate OnlyRoot(votes: map<int, Digest>) {
    forall q | q in votes :: votes[q] == ROOT
  }

  /** The replica's own root is another one, so a quorum does not move it. */
  lemma StaysPut(r: Replica)
    requires W2.Valid() && Shaped(W2, r) && r.root != ROOT && OnlyRoot(r.ckpts[1].votes)
    requires HasWinner(r.ckpts[1].votes, 3)
    ensures MarkStable(W2, r, 1, false) == r
  {
    ValidW2();
    var votes := r.ckpts[1].votes;
    forall d | Wins(votes, 3, d)
      ensures d == ROOT
    {
      var q :| q in votes.Keys && votes[q] == d;
    }
  }

  lemma HearsCheckpoint(from: set<int>, votes: map<int, Digest>, q: int)
    requires W2.Valid() && q in {0, 2, 3} && q !in from && votes.Keys == from && OnlyRoot(votes)
    ensures Makes(W2, Witness(from, votes), Deliver(CheckpointMsg(1, ROOT, q)), RUNS,
                  Outcome(Witness(from + {q}, votes[q := ROOT]), {}))
  {
    ValidW2();
    var slot, r1 := CkptSlot(1, from, votes), Witness(from + {q}, votes[q := ROOT]);
    OneValue(votes, q);
    assert StoreInSlot(slot, 2, 1, q, ROOT) == CkptSlot(1, from + {q}, votes[q := ROOT]);
    assert Witness(from, votes).ckpts[1 := StoreInSlot(slot, 2, 1, q, ROOT)] == r1.ckpts;
    if HasWinner(votes[q := ROOT], 3) {
      StaysPut(r1);
    }
  }

  lemma OneValue(votes: map<int, Digest>, q: int)
    requires OnlyRoot(votes)
    ensures ROOT in votes.Values || |votes.Values| < 2
    ensures OnlyRoot(votes[q := ROOT])
  {
    forall d | d in votes.Values
      ensures d == ROOT
    {
      var k := Voter(votes, d);
    }
    if |votes.Values| >= 2 {
      var d := Pick(votes.Values);
    }
  }

  // ----------------------------------------------------------- the whole run

  lemma TakesStep(s: Sys, i: int) returns (s': Sys)
    requires W2.Valid() && Reachable(W2, {0}, s) && 1 <= i < 4 && i in s.replicas && s.replicas[i] == Boot(W2, i)
    requires PrePrepareMsg(Proposal(0, FIRST), 0) in s.net
    ensures Reachable(W2, {0}, s') && Moved(s, s', {i}) && s'.replicas[i] == Taken(i)
  {
    Takes(i);
    s' := Reacts(W2, {0}, s, i, Boot(W2, i), Deliver(PrePrepareMsg(Proposal(0, FIRST), 0)), RUNS,
                 Outcome(Taken(i), {PrepareMsg(0, 1, D, i)}));
  }

  lemma PreparesStep(s: Sys, i: int) returns (s': Sys)
    requires W2.Valid() && Reachable(W2, {0}, s) && 1 <= i < 4 && i in s.replicas && s.replicas[i] == Taken(i)
    requires PrepareMsg(0, 1, D, 0) in s.net
    ensures Reachable(W2, {0}, s') && Moved(s, s', {i}) && s'.replicas[i] == Voting(i, map[i := D])
    ensures CommitMsg(0, 1, D, i) in s'.net
  {
    Prepares(i);
    s' := Reacts(W2, {0}, s, i, Taken(i), Deliver(PrepareMsg(0, 1, D, 0)), RUNS,
                 Outcome(Voting(i, map[i := D]), {CommitMsg(0, 1, D, i)}));
  }

  lemma CountsStep(s: Sys, i: int) returns (s': Sys)
    requires W2.Valid() && Reachable(W2, {0}, s) && 1 <= i < 4 && i in s.replicas
    requires s.replicas[i] == Voting(i, map[i := D]) && CommitMsg(0, 1, D, 0) in s.net
    ensures Reachable(W2, {0}, s') && Moved(s, s', {i}) && s'.replicas[i] == Voting(i, map[i := D, 0 := D])
  {
    CountsFirst(i);
    s' := Reacts(W2, {0}, s, i, Voting(i, map[i := D]), Deliver(CommitMsg(0, 1, D, 0)), RUNS,
                 Outcome(Voting(i, map[i := D, 0 := D]), {}));
  }

  lemma ExecutesStep(s: Sys, i: int, j: int) returns (s': Sys)
    requires W2.Valid() && Reachable(W2, {0}, s) && 1 <= i < 4 && 1 <= j < 4 && i != j && i in s.replicas
    requires s.replicas[i] == Voting(i, map[i := D, 0 := D]) && CommitMsg(0, 1, D, j) in s.net
    ensures Reachable(W2, {0}, s') && Moved(s, s', {i}) && s'.replicas[i].lastExecuted == 1
    ensures CheckpointMsg(1, ROOT, i) in s'.net
  {
    var o := CountsSecond(i, j);
    MakesCommit(i, j, o);
    s' := Reacts(W2, {0}, s, i, Voting(i, map[i := D, 0 := D]), Deliver(CommitMsg(0, 1, D, j)), RUNS, o);
  }

  /** Replica `i` takes the first proposal and votes for it. */
  lemma Votes(s: Sys, i: int) returns (s': Sys)
    requires W2.Valid() && Reachable(W2, {0}, s) && 1 <= i < 4 && i in s.replicas && s.replicas[i] == Boot(W2, i)
    requires PrePrepareMsg(Proposal(0, FIRST), 0) in s.net && PrepareMsg(0, 1, D, 0) in s.net
    requires CommitMsg(0, 1, D, 0) in s.net
    ensures Reachable(W2, {0}, s') && Moved(s, s', {i}) && s'.replicas[i] == Voting(i, map[i := D, 0 := D])
    ensures CommitMsg(0, 1, D, i) in s'.net
  {
    var s1 := TakesStep(s, i);
    var s2 := PreparesStep(s1, i);
    s' := CountsStep(s2, i);
  }

  lemma HearsStep(s: Sys, from: set<int>, votes: map<int, Digest>, q: int) returns (s': Sys)
    requires W2.Valid() && Reachable(W2, {0}, s) && 1 in s.replicas && s.replicas[1] == Witness(from, votes)
    requires q in {0, 2, 3} && q !in from && votes.Keys == from && OnlyRoot(votes)
    requires CheckpointMsg(1, ROOT, q) in s.net
    ensures Reachable(W2, {0}, s') && Moved(s, s', {1}) && s'.replicas[1] == Witness(from + {q}, votes[q := ROOT])
  {
    HearsCheckpoint(from, votes, q);
    s' := Reacts(W2, {0}, s, 1, Witness(from, votes), Deliver(CheckpointMsg(1, ROOT, q)), RUNS,
                 Outcome(Witness(from + {q}, votes[q := ROOT]), {}));
  }

  /** The first request has been executed by replicas 2 and 3; replica 1 has heard nothing. */
  lemma OthersExecute() returns (s: Sys)
    ensures W2.Valid() && Reachable(W2, {0}, s) && 1 in s.replicas && s.replicas[1] == Boot(W2, 1)
    ensures forall q | q in {0, 2, 3} :: CheckpointMsg(1, ROOT, q) in s.net
    ensures 2 in s.replicas && 3 in s.replicas && s.replicas[2].lastExecuted == 1 && s.replicas[3].lastExecuted == 1
  {
    ValidW2();
    StartIsReachable(W2, {0});
    s := Start(W2, {0});
    s := ForgeAll(W2, {0}, s, {PrePrepareMsg(Proposal(0, FIRST), 0), PrepareMsg(0, 1, D, 0),
                               CommitMsg(0, 1, D, 0), CheckpointMsg(1, ROOT, 0)});
    s := Votes(s, 2);
    s := Votes(s, 3);
    s := ExecutesStep(s, 2, 3);
    s := ExecutesStep(s, 3, 2);
  }

  const VOTES: map<int, Digest> := map[0 := ROOT, 2 := ROOT, 3 := ROOT]

  function Asked(): Replica {
    Witness({0, 2, 3}, VOTES).(inFetch := true, fetchSeqno := 5)
  }

  lemma Asks()
    requires W2.Valid()
    ensures Makes(W2, Witness({0, 2, 3}, VOTES), BeginFetch(5), CALM, Outcome(Asked(), {}))
  {
  }

  lemma RootWins()
    requires W2.Valid()
    ensures Winning(W2, Asked().ckpts, 5) == Some(ROOT) && Wins(VOTES, 3, ROOT)
  {
    ValidW2();
    assert Supporters(VOTES, ROOT) == {0, 2, 3};
    assert 0 in VOTES && VOTES[0] == ROOT;
    assert VOTES.Keys <= Upto(4);
    WinningIs(W2, Asked().ckpts, 5, ROOT);
  }

  lemma Mistakes() returns (o: Outcome)
    requires W2.Valid()
    ensures Misreads(W2, Asked(), EndFetch(ROOT))
    ensures Makes(W2, Asked(), EndFetch(ROOT), CALM, o) && o.r.quorumLastStable == 5
  {
    ValidW2();
    RootWins();
    o := React(W2, Asked(), EndFetch(ROOT), CALM);
  }

  /** Replica 1 has the votes of the others for seqno 1. */
  lemma AllHeard() returns (s: Sys)
    ensures W2.Valid() && Reachable(W2, {0}, s) && 1 in s.replicas && s.replicas[1] == Asked()
    ensures 2 in s.replicas && 3 in s.replicas && s.replicas[2].lastExecuted == 1 && s.replicas[3].lastExecuted == 1
  {
    s := OthersExecute();
    s := HearsAll(s);
    s := AsksStep(s);
  }

  lemma HearsAll(s: Sys) returns (s': Sys)
    requires W2.Valid() && Reachable(W2, {0}, s) && 1 in s.replicas && s.replicas[1] == Boot(W2, 1)
    requires forall q | q in {0, 2, 3} :: CheckpointMsg(1, ROOT, q) in s.net
    ensures Reachable(W2, {0}, s') && Moved(s, s', {1}) && s'.replicas[1] == Witness({0, 2, 3}, VOTES)
  {
    var s1 := HearsFirstVote(s);
    OneVote();
    var s2 := HearsStep(s1, {0}, map[0 := ROOT], 2);
    TwoVotes();
    s' := HearsStep(s2, {0, 2}, map[0 := ROOT, 2 := ROOT], 3);
  }

  lemma OneVote()
    ensures var votes: map<int, Digest> := map[0 := ROOT];
            votes.Keys == {0} && OnlyRoot(votes) && votes[2 := ROOT] == map[0 := ROOT, 2 := ROOT]
    ensures {0} + {2} == {0, 2}
  {
  }

  lemma TwoVotes()
    ensures var votes: map<int, Digest> := map[0 := ROOT, 2 := ROOT];
            votes.Keys == {0, 2} && OnlyRoot(votes) && votes[3 := ROOT] == VOTES
    ensures {0, 2} + {3} == {0, 2, 3}
  {
  }

  lemma AsksStep(s: Sys) returns (s': Sys)
    requires W2.Valid() && Reachable(W2, {0}, s) && 1 in s.replicas && s.replicas[1] == Witness({0, 2, 3}, VOTES)
    ensures Reachable(W2, {0}, s') && Moved(s, s', {1}) && s'.replicas[1] == Asked()
  {
    Asks();
    s' := Reacts(W2, {0}, s, 1, Witness({0, 2, 3}, VOTES), BeginFetch(5), CALM, Outcome(Asked(), {}));
  }

  lemma HearsFirstVote(s: Sys) returns (s': Sys)
    requires W2.Valid() && Reachable(W2, {0}, s) && 1 in s.replicas && s.replicas[1] == Boot(W2, 1)
    requires CheckpointMsg(1, ROOT, 0) in s.net
    ensures Reachable(W2, {0}, s') && Moved(s, s', {1}) && s'.replicas[1] == Witness({0}, map[0 := ROOT])
  {
    FirstVote();
    s' := Reacts(W2, {0}, s, 1, Boot(W2, 1), Deliver(CheckpointMsg(1, ROOT, 0)), RUNS,
                 Outcome(Witness({0}, map[0 := ROOT]), {}));
  }

  lemma FirstVote()
    requires W2.Valid()
    ensures Makes(W2, Boot(W2, 1), Deliver(CheckpointMsg(1, ROOT, 0)), RUNS, Outcome(Witness({0}, map[0 := ROOT]), {}))
  {
    ValidW2();
    var b, none: map<int, Digest> := Boot(W2, 1), map[];
    assert none.Values == {} && StoreInSlot(EMPTY_CKPT, 2, 1, 0, ROOT) == CkptSlot(1, {0}, map[0 := ROOT]);
    assert b.ckpts[1 := CkptSlot(1, {0}, map[0 := ROOT])] == Witness({0}, map[0 := ROOT]).ckpts;
    FewCommits(W2, map[0 := ROOT], 0);
  }

  /** Two replicas that have executed one request only have not voted for seqno 5. */
  lemma NobodyVoted(s: Sys)
    requires W2.Valid() && Reachable(W2, {0}, s)
    requires 2 in s.replicas && 3 in s.replicas && s.replicas[2].lastExecuted == 1 && s.replicas[3].lastExecuted == 1
    ensures !CheckpointQuorum(W2, s.net, 5)
  {
    var run, labels :| EndsIn(W2, {0}, run, labels, s);
    RunInv(W2, {0}, run, labels, |run| - 1);
    assert Sound(W2, s.net, s.replicas[2]) && Sound(W2, s.net, s.replicas[3]);
    forall d, quorum
      ensures !IsCheckpointQuorum(W2, s.net, 5, d, quorum)
    {
      if IsCheckpointQuorum(W2, s.net, 5, d, quorum) {
        assert 2 !in quorum && 3 !in quorum;
        SubsetSize(quorum, {0, 1});
      }
    }
  }

  /** A run at the end of which a correct replica takes seqno 5 for confirmed by a checkpoint
      quorum, with no such quorum: the end of a fetch to 5 has read the votes for seqno 1. */
  lemma FetchMisreadsVotes() returns (s: Sys, s': Sys)
    ensures W2.Valid() && Reachable(W2, {0}, s) && Reachable(W2, {0}, s')
    ensures MisreadingStep(W2, s, Act(1, EndFetch(ROOT), CALM))
    ensures Next(W2, {0}, s, Act(1, EndFetch(ROOT), CALM), s')
    ensures 1 in s'.replicas && s'.replicas[1].quorumLastStable == 5 && !Backed(W2, s'.net, s'.replicas[1])
  {
    s := AllHeard();
    var o := Mistakes();
    s' := EndStep(s, o);
    NobodyVoted(s');
  }

  lemma EndStep(s: Sys, o: Outcome) returns (s': Sys)
    requires W2.Valid() && Reachable(W2, {0}, s) && 1 in s.replicas && s.replicas[1] == Asked()
    requires Makes(W2, Asked(), EndFetch(ROOT), CALM, o)
    ensures Next(W2, {0}, s, Act(1, EndFetch(ROOT), CALM), s')
    ensures Reachable(W2, {0}, s') && Moved(s, s', {1}) && s'.replicas[1] == o.r
  {
    s' := StepOf(W2, {0}, s, 1, Asked(), EndFetch(ROOT), CALM, o);
    OneMoreStep(W2, {0}, s, Act(1, EndFetch(ROOT), CALM), s');
  }
}
