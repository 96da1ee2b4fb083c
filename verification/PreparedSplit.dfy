/** The textbook lemma that no two correct replicas prepare different digests for one seqno
    does not hold here: the prepare threshold is 2f, and the primary's own Prepare counts.
    This is exactly when it fails. */
module PreparedSplit {
  import opened Types
  import opened Arithmetic
  import opened Quorums
  import opened ViewChangeSpec
  import opened ReplicaSpec
  import opened Invariants
  import opened Protocol
  import opened Handlers
  import opened Safety
  import opened Proposals

  // --------------------------------------------------------------- statements

  /** Two correct replicas hold prepare certificates for different digests at one seqno. */
  ghost predicate SplitAt(c: Config, s: Sys, i: int, j: int, n: int) {
    && i in s.replicas && j in s.replicas
    && s.replicas[i].ar.PreparedAt(c, n) && s.replicas[j].ar.PreparedAt(c, n)
    && s.replicas[i].ar.At(n).pp.value.digest != s.replicas[j].ar.At(n).pp.value.digest
  }

  /** The same, with both proposals made in view `v`. */
  ghost predicate SplitInView(c: Config, s: Sys, i: int, j: int, n: int, v: int) {
    && SplitAt(c, s, i, j, n)
    && s.replicas[i].ar.At(n).pp.value.view == v && s.replicas[j].ar.At(n).pp.value.view == v
  }

  ghost predicate CanSplit(c: Config, faulty: set<int>) {
    exists s, i, j, n :: Reachable(c, faulty, s) && SplitAt(c, s, i, j, n)
  }

  ghost predicate CanSplitInView(c: Config, faulty: set<int>, v: int) {
    exists s, i, j, n :: Reachable(c, faulty, s) && SplitInView(c, s, i, j, n, v)
  }

  // ---------------------------------------------------------- what a split takes

  /** Who voted for `d` where `d` is prepared: 2f replicas that sent a Prepare for it. */
  lemma PreparedHasVoters(c: Config, faulty: set<int>, s: Sys, i: int, n: int) returns (voters: set<int>)
    requires SysInv(c, faulty, s) && i in s.replicas && s.replicas[i].ar.PreparedAt(c, n)
    ensures voters <= Upto(c.n) && |voters| >= 2 * c.f
    ensures forall q | q in voters :: PrepareSent(s.net, q, n, s.replicas[i].ar.At(n).pp.value.digest)
  {
    SlotOk(c, s.net, s.replicas[i], n);
    var sl := s.replicas[i].ar.At(n);
    voters := Supporters(sl.prepares, sl.pp.value.digest);
  }

  lemma CommonVotersAreFaulty(c: Config, faulty: set<int>, s: Sys, p: set<int>, q: set<int>, n: int, d: Digest, e: Digest)
    requires SysInv(c, faulty, s) && d != e && p <= Upto(c.n) && q <= Upto(c.n)
    requires forall k | k in p :: PrepareSent(s.net, k, n, d)
    requires forall k | k in q :: PrepareSent(s.net, k, n, e)
    ensures |faulty| >= |p| + |q| - c.n
  {
    forall k | k in p * q
      ensures k in faulty
    {
      if k in s.replicas {
        VotesOnce(c, faulty, s, k, n, d, e);
      }
    }
    UnionSize(p, q);
    SubsetSize(p + q, Upto(c.n));
    SubsetSize(p * q, faulty);
  }

  /** Prepared for different digests at whatever times and in whatever views: everybody who
      voted for both is faulty, and there are at least 4f - n of them. */
  lemma SplitNeedsFaulty(c: Config, faulty: set<int>, run: seq<Sys>, labels: seq<Label>, a: nat, b: nat,
                         i: int, j: int, n: int)
    requires IsRun(c, faulty, run, labels) && a <= b < |run| && i in run[a].replicas && j in run[b].replicas
    requires run[a].replicas[i].ar.PreparedAt(c, n) && run[b].replicas[j].ar.PreparedAt(c, n)
    requires run[a].replicas[i].ar.At(n).pp.value.digest != run[b].replicas[j].ar.At(n).pp.value.digest
    ensures |faulty| >= 4 * c.f - c.n && i != j
  {
    var d, e := run[a].replicas[i].ar.At(n).pp.value.digest, run[b].replicas[j].ar.At(n).pp.value.digest;
    RunInv(c, faulty, run, labels, a);
    RunInv(c, faulty, run, labels, b);
    NothingGoesBack(c, faulty, run, labels, a, b);
    var p := PreparedHasVoters(c, faulty, run[a], i, n);
    var q := PreparedHasVoters(c, faulty, run[b], j, n);
    CommonVotersAreFaulty(c, faulty, run[b], p, q, n, d, e);
    if i == j {
      StoredIsAccepted(c, faulty, run, labels, a, i, n);
      ProposalsAreWriteOnce(c, faulty, run, labels, a, b, i, n);
    }
  }

  lemma VotesOnce(c: Config, faulty: set<int>, s: Sys, k: int, n: int, d: Digest, e: Digest)
    requires SysInv(c, faulty, s) && k in s.replicas
    requires PrepareSent(s.net, k, n, d) && PrepareSent(s.net, k, n, e)
    ensures d == e
  {
    var v :| PrepareMsg(v, n, d, k) in s.net;
    var w :| PrepareMsg(w, n, e, k) in s.net;
    EndorsesOnce(c, faulty, s, PrepareMsg(v, n, d, k), PrepareMsg(w, n, e, k), n, d, e);
  }

  // ------------------------------------------------------------- building one

  const FIRST := Holds(Request.Request(0, 1, [1], true))
  const SECOND := Holds(Request.Request(0, 2, [2], true))
  const CALM := Env(_ => false, _ => Zero, _ => false, false)

  function Proposal(v: int, rset: RequestSet): PrePrepare {
    PrePrepare(v, 1, OfRequests(rset), rset, [])
  }

  function All(voters: set<int>, d: Digest): map<int, Digest> {
    map q | q in voters :: d
  }

  /** A replica that has stored the proposal and counted these Prepares for it. */
  ghost predicate Backs(c: Config, r: Replica, pp: PrePrepare, voters: set<int>) {
    && c.interval >= 1 && Shaped(c, r)
    && r.view == pp.view && r.lastStable == 0
    && r.ar.HasPp(1) && r.ar.At(1).pp == Some(pp)
    && r.ar.At(1).prepares == All(voters, pp.digest)
    && r.id in voters
    && r.ar.At(1).commits.Keys <= {r.id}
  }

  /** Where `pp` is stored and enough have voted for it, it is prepared. */
  lemma EnoughBack(c: Config, r: Replica, pp: PrePrepare, voters: set<int>)
    requires Backs(c, r, pp, voters) && |voters| >= c.PrepareThreshold()
    ensures r.ar.PreparedAt(c, 1)
  {
    var votes := r.ar.At(1).prepares;
    assert Supporters(votes, pp.digest) == voters;
    assert r.id in votes && votes[r.id] == pp.digest;
  }

  lemma TakesProposal(c: Config, i: int, v: int, rset: RequestSet, env: Env)
    requires c.Valid() && 0 <= i < c.n && v >= 0 && i != c.Primary(v)
    requires rset.Holds? && rset.request.cid == 0 && rset.request.signed
    ensures var ev := Deliver(PrePrepareMsg(Proposal(v, rset), c.Primary(v)));
            var o := React(c, Boot(c, i), ev, env);
            && KeepsHead(c, Boot(c, i), ev)
            && o.out == {PrepareMsg(v, 1, OfRequests(rset), i)}
            && o.r.id == i && Backs(c, o.r, Proposal(v, rset), {i})
  {
    var b, pp, d := Boot(c, i), Proposal(v, rset), OfRequests(rset);
    assert PassesWindow(c, b, pp, c.Primary(v));
    var r0 := if v > 0 then AdvanceView(b, v).(vi := ViewInfo(v + 1, false, map[])) else b;
    assert ForceHead(b.ar, 1) == b.ar;
    assert r0.ar == b.ar && r0.ar.InRange(1) && r0.ar.At(1) == EMPTY_SLICE;
    var r1 := StorePp(r0, pp).(seqno := 2);
    var none: map<int, Digest> := map[];
    assert none.Values == {};
    assert r1.ar.At(1) == Slice(Some(pp), none, none);
    assert CanVote(none, i, d, c.maxVals);
    assert none[i := d] == All({i}, d);
  }

  /** One more Prepare for the stored proposal, whatever it sets off. */
  lemma CountsPrepare(c: Config, r: Replica, pp: PrePrepare, voters: set<int>, q: int, env: Env)
    requires c.Valid() && c.f >= 1 && Backs(c, r, pp, voters) && 0 <= q < c.n && q !in voters
    ensures var o := React(c, r, Deliver(PrepareMsg(pp.view, 1, pp.digest, q)), env);
            && o.r.id == r.id && Backs(c, o.r, pp, voters + {q})
  {
    var d, votes := pp.digest, r.ar.At(1).prepares;
    assert votes[r.id] == d && d in votes.Values;
    assert CanVote(votes, q, d, c.maxVals);
    assert votes[q := d] == All(voters + {q}, d);
    var r1 := r.(ar := AddPrepare(c, r.ar, 1, q, d));
    assert Backs(c, r1, pp, voters + {q});
    if r1.ar.PreparedAt(c, 1) {
      var r2 := r1.(lastPrepared := Max(r1.lastPrepared, 1));
      var o3 := if r2.id !in r2.ar.At(1).commits then SendCommit(c, r2, 1) else Outcome(r2, {});
      assert o3.r.ar.At(1).commits.Keys <= {r.id};
      FewCommits(c, o3.r.ar.At(1).commits, r.id);
      assert !o3.r.ar.CommittedAt(c, 1);
    }
  }

  /** The own Commit alone is no quorum. */
  lemma FewCommits(c: Config, commits: map<int, Digest>, i: int)
    requires c.f >= 1 && commits.Keys <= {i}
    ensures !HasWinner(commits, c.CommitThreshold())
  {
    forall d
      ensures !Wins(commits, c.CommitThreshold(), d)
    {
      SubsetSize(Supporters(commits, d), {i});
    }
  }

  lemma CollectOne(c: Config, faulty: set<int>, s: Sys, i: int, pp: PrePrepare, voters: set<int>, q: int) returns (s': Sys)
    requires Reachable(c, faulty, s) && c.Valid() && c.f >= 1
    requires i in s.replicas && s.replicas[i].id == i && Backs(c, s.replicas[i], pp, voters)
    requires 0 <= q < c.n && q !in voters && PrepareMsg(pp.view, 1, pp.digest, q) in s.net
    ensures Reachable(c, faulty, s') && Moved(s, s', {i})
    ensures s'.replicas[i].id == i && Backs(c, s'.replicas[i], pp, voters + {q})
  {
    CountsPrepare(c, s.replicas[i], pp, voters, q, CALM);
    var ev := Deliver(PrepareMsg(pp.view, 1, pp.digest, q));
    s' := Reacts(c, faulty, s, i, s.replicas[i], ev, CALM, React(c, s.replicas[i], ev, CALM));
  }

  lemma ProposeToOne(c: Config, faulty: set<int>, s: Sys, v: int, rset: RequestSet, i: int) returns (s': Sys)
    requires Reachable(c, faulty, s) && c.Valid() && v >= 0
    requires rset.Holds? && rset.request.cid == 0 && rset.request.signed
    requires PrePrepareMsg(Proposal(v, rset), c.Primary(v)) in s.net
    requires 0 <= i < c.n && i != c.Primary(v) && i in s.replicas && s.replicas[i] == Boot(c, i)
    ensures Reachable(c, faulty, s') && Moved(s, s', {i})
    ensures s'.replicas[i].id == i && Backs(c, s'.replicas[i], Proposal(v, rset), {i})
    ensures PrepareMsg(v, 1, OfRequests(rset), i) in s'.net
  {
    TakesProposal(c, i, v, rset, CALM);
    var ev := Deliver(PrePrepareMsg(Proposal(v, rset), c.Primary(v)));
    s' := Reacts(c, faulty, s, i, s.replicas[i], ev, CALM, React(c, s.replicas[i], ev, CALM));
  }

  /** These replicas, all fresh, take the proposal one after the other and vote for it. */
  lemma {:induction false} ProposeTo(c: Config, faulty: set<int>, s: Sys, v: int, rset: RequestSet, group: set<int>)
    returns (s': Sys)
    requires Reachable(c, faulty, s) && c.Valid() && v >= 0
    requires rset.Holds? && rset.request.cid == 0 && rset.request.signed
    requires PrePrepareMsg(Proposal(v, rset), c.Primary(v)) in s.net
    requires forall i | i in group :: 0 <= i < c.n && i != c.Primary(v) && i in s.replicas && s.replicas[i] == Boot(c, i)
    ensures Reachable(c, faulty, s') && Moved(s, s', group)
    ensures forall i | i in group ::
              && s'.replicas[i].id == i && Backs(c, s'.replicas[i], Proposal(v, rset), {i})
              && PrepareMsg(v, 1, OfRequests(rset), i) in s'.net
    decreases |group|
  {
    if |group| == 0 {
      s' := s;
    } else {
      var i := Pick(group);
      var s1 := ProposeToOne(c, faulty, s, v, rset, i);
      s' := ProposeTo(c, faulty, s1, v, rset, group - {i});
    }
  }

  lemma OneOf(voters: set<int>, todo: set<int>) returns (q: int, voters': set<int>, todo': set<int>)
    requires |todo| > 0 && todo !! voters
    ensures q in todo && q !in voters && voters' == voters + {q} && todo' == todo - {q}
    ensures todo' !! voters' && todo' <= todo && |todo'| < |todo| && voters' + todo' == voters + todo
  {
    q := Pick(todo);
    voters', todo' := voters + {q}, todo - {q};
    assert voters' + todo' == voters + todo;
  }

  /** A replica that backs a proposal counts all these Prepares for it. */
  lemma {:induction false} CollectAll(c: Config, faulty: set<int>, s: Sys, i: int, pp: PrePrepare,
                                      voters: set<int>, todo: set<int>) returns (s': Sys)
    requires Reachable(c, faulty, s) && c.Valid() && c.f >= 1
    requires i in s.replicas && s.replicas[i].id == i && Backs(c, s.replicas[i], pp, voters)
    requires todo <= Upto(c.n) && todo !! voters
    requires forall q | q in todo :: PrepareMsg(pp.view, 1, pp.digest, q) in s.net
    ensures Reachable(c, faulty, s') && Moved(s, s', {i})
    ensures s'.replicas[i].id == i && Backs(c, s'.replicas[i], pp, voters + todo)
    decreases |todo|
  {
    if |todo| == 0 {
      s' := s;
      assert voters + todo == voters;
    } else {
      var q, voters', todo' := OneOf(voters, todo);
      var s1 := CollectOne(c, faulty, s, i, pp, voters, q);
      s' := CollectAll(c, faulty, s1, i, pp, voters', todo');
    }
  }

  lemma {:induction false} SomeOf(s: set<int>, k: nat) returns (t: set<int>)
    requires k <= |s|
    ensures t <= s && |t| == k
  {
    if k == 0 {
      t := {};
    } else {
      var x := Pick(s);
      t := SomeOf(s - {x}, k - 1);
      t := t + {x};
    }
  }

  /** What the faulty replicas send: both proposals, and a Prepare of each of them for both. */
  function Forgeries(c: Config, faulty: set<int>, v: int): set<Msg>
    requires c.n >= 1
  {
    {PrePrepareMsg(Proposal(v, FIRST), c.Primary(v)), PrePrepareMsg(Proposal(v, SECOND), c.Primary(v))}
    + (set q | q in faulty :: PrepareMsg(v, 1, OfRequests(FIRST), q))
    + (set q | q in faulty :: PrepareMsg(v, 1, OfRequests(SECOND), q))
  }

  lemma BothCount(p: int, q: int)
    requires p != q
    ensures |{p} + {q}| == 2
  {
    assert {p} + {q} == {p, q};
  }

  lemma OthersOf(voters: set<int>, i: int) returns (todo: set<int>)
    requires i in voters
    ensures todo <= voters && todo !! {i} && {i} + todo == voters
  {
    todo := voters - {i};
  }

  /** Two disjoint groups of correct replicas, each large enough with the faulty ones. */
  lemma TwoGroups(n: nat, f: nat, faulty: set<int>) returns (a: set<int>, b: set<int>)
    requires faulty <= Upto(n) && 4 * f - n <= |faulty| <= f
    ensures a <= Upto(n) - faulty && b <= Upto(n) - faulty && a !! b
    ensures |a| == |b| == 2 * f - |faulty| && |a + faulty| == |b + faulty| == 2 * f
  {
    var correct := Upto(n) - faulty;
    assert Upto(n) == correct + faulty;
    a := SomeOf(correct, 2 * f - |faulty|);
    assert correct == (correct - a) + a;
    b := SomeOf(correct - a, 2 * f - |faulty|);
    UnionSize(a, faulty);
    UnionSize(b, faulty);
    assert a * faulty == {} && b * faulty == {};
  }

  /** After the proposals have been sent to two groups, a member of each collects the votes
      of its group and of all faulty replicas. */
  lemma OneSide(c: Config, faulty: set<int>, s: Sys, v: int, rset: RequestSet, group: set<int>, i: int) returns (s': Sys)
    requires Reachable(c, faulty, s) && c.Valid() && c.f >= 1 && v >= 0
    requires faulty <= Upto(c.n) && c.Primary(v) in faulty && group <= Upto(c.n) - faulty && i in group
    requires rset.Holds? && rset.request.cid == 0 && rset.request.signed
    requires PrePrepareMsg(Proposal(v, rset), c.Primary(v)) in s.net
    requires forall q | q in faulty :: PrepareMsg(v, 1, OfRequests(rset), q) in s.net
    requires forall q | q in group :: q in s.replicas && s.replicas[q] == Boot(c, q)
    ensures Reachable(c, faulty, s') && Moved(s, s', group)
    ensures Backs(c, s'.replicas[i], Proposal(v, rset), group + faulty)
  {
    var s1 := ProposeTo(c, faulty, s, v, rset, group);
    var todo := OthersOf(group + faulty, i);
    s' := CollectAll(c, faulty, s1, i, Proposal(v, rset), {i}, todo);
  }

  /** With a faulty primary and enough faulty replicas, some run splits its view. */
  lemma PreparesCanSplit(c: Config, faulty: set<int>, v: int)
    requires Setting(c, faulty) && v >= 0
    requires c.Primary(v) in faulty && |faulty| >= 4 * c.f - c.n
    ensures CanSplitInView(c, faulty, v)
  {
    SubsetSize({c.Primary(v)}, faulty);
    var a, b := TwoGroups(c.n, c.f, faulty);
    var i := Pick(a);
    var j := Pick(b);
    var s := AllForged(c, faulty, v);
    s := OneSide(c, faulty, s, v, FIRST, a, i);
    s := OneSide(c, faulty, s, v, SECOND, b, j);
    EnoughBack(c, s.replicas[i], Proposal(v, FIRST), a + faulty);
    EnoughBack(c, s.replicas[j], Proposal(v, SECOND), b + faulty);
    assert SplitInView(c, s, i, j, 1, v);
  }

  /** The faulty replicas have sent all they have to send, and nobody has moved. */
  lemma AllForged(c: Config, faulty: set<int>, v: int) returns (s: Sys)
    requires Setting(c, faulty) && c.Primary(v) in faulty
    ensures Reachable(c, faulty, s)
    ensures forall i | i in Upto(c.n) - faulty :: i in s.replicas && s.replicas[i] == Boot(c, i)
    ensures PrePrepareMsg(Proposal(v, FIRST), c.Primary(v)) in s.net
    ensures PrePrepareMsg(Proposal(v, SECOND), c.Primary(v)) in s.net
    ensures forall q | q in faulty :: PrepareMsg(v, 1, OfRequests(FIRST), q) in s.net
    ensures forall q | q in faulty :: PrepareMsg(v, 1, OfRequests(SECOND), q) in s.net
  {
    StartIsReachable(c, faulty);
    s := ForgeAll(c, faulty, Start(c, faulty), Forgeries(c, faulty, v));
  }

  /** Exactly when two correct replicas can be prepared for different digests in one view:
      its primary and at least 4f - n replicas are faulty. */
  lemma OneViewSplits(c: Config, faulty: set<int>, v: int)
    requires Setting(c, faulty) && v >= 0
    ensures CanSplitInView(c, faulty, v) <==> c.Primary(v) in faulty && |faulty| >= 4 * c.f - c.n
  {
    if CanSplitInView(c, faulty, v) {
      var s, i, j, n :| Reachable(c, faulty, s) && SplitInView(c, s, i, j, n, v);
      var run, labels :| EndsIn(c, faulty, run, labels, s);
      var last := |run| - 1;
      SplitNeedsFaulty(c, faulty, run, labels, last, last, i, j, n);
      SplitsBlameThePrimary(c, faulty, run, labels, last, last, i, j, n);
    }
    if c.Primary(v) in faulty && |faulty| >= 4 * c.f - c.n {
      PreparesCanSplit(c, faulty, v);
    }
  }

  // -------------------------------------------------------- stored proposals

  /** Two correct replicas have stored different digests for one seqno, both in view `v`. */
  ghost predicate StoredSplit(s: Sys, i: int, j: int, n: int, v: int) {
    && i in s.replicas && j in s.replicas && s.replicas[i].ar.HasPp(n) && s.replicas[j].ar.HasPp(n)
    && var p, q := s.replicas[i].ar.At(n).pp.value, s.replicas[j].ar.At(n).pp.value;
       p.view == v && q.view == v && p.digest != q.digest
  }

  ghost predicate CanStoreSplit(c: Config, faulty: set<int>, v: int) {
    exists s, i, j, n :: Reachable(c, faulty, s) && StoredSplit(s, i, j, n, v)
  }

  lemma StoredSplitTakes(c: Config, faulty: set<int>, s: Sys, i: int, j: int, n: int, v: int)
    requires Setting(c, faulty) && Reachable(c, faulty, s) && StoredSplit(s, i, j, n, v)
    ensures c.Primary(v) in faulty && c.n - |faulty| >= 2
  {
    var run, labels :| EndsIn(c, faulty, run, labels, s);
    SplitsBlameThePrimary(c, faulty, run, labels, |run| - 1, |run| - 1, i, j, n);
    RunInv(c, faulty, run, labels, |run| - 1);
    TwoAreCorrect(c.n, faulty, i, j);
  }

  lemma TwoAreCorrect(n: nat, faulty: set<int>, i: int, j: int)
    requires faulty <= Upto(n) && i != j && {i, j} <= Upto(n) - faulty
    ensures n - |faulty| >= 2
  {
    var correct := Upto(n) - faulty;
    assert Upto(n) == correct + faulty;
    SubsetSize({i, j}, correct);
  }

  lemma TwoCorrect(n: nat, faulty: set<int>) returns (i: int, j: int)
    requires faulty <= Upto(n) && n - |faulty| >= 2
    ensures i != j && i in Upto(n) - faulty && j in Upto(n) - faulty
  {
    var correct := Upto(n) - faulty;
    assert Upto(n) == correct + faulty;
    i := Pick(correct);
    j := Pick(correct - {i});
  }

  lemma StoresCanSplit(c: Config, faulty: set<int>, v: int)
    requires Setting(c, faulty) && v >= 0 && c.Primary(v) in faulty && c.n - |faulty| >= 2
    ensures CanStoreSplit(c, faulty, v)
  {
    var i, j := TwoCorrect(c.n, faulty);
    var s := AllForged(c, faulty, v);
    var s1 := ProposeToOne(c, faulty, s, v, FIRST, i);
    NotMoved(s, s1, i, i, j);
    var s2 := ProposeToOne(c, faulty, s1, v, SECOND, j);
    NotMoved(s1, s2, j, j, i);
    BothStore(c, s2, i, j, v);
  }

  lemma BothStore(c: Config, s: Sys, i: int, j: int, v: int)
    requires i in s.replicas && Backs(c, s.replicas[i], Proposal(v, FIRST), {i})
    requires j in s.replicas && Backs(c, s.replicas[j], Proposal(v, SECOND), {j})
    ensures StoredSplit(s, i, j, 1, v)
  {
  }

  /** Exactly when two correct replicas can store different digests for one seqno in one view:
      its primary is faulty, and there are two correct replicas. */
  lemma OneViewStores(c: Config, faulty: set<int>, v: int)
    requires Setting(c, faulty) && v >= 0
    ensures CanStoreSplit(c, faulty, v) <==> c.Primary(v) in faulty && c.n - |faulty| >= 2
  {
    if CanStoreSplit(c, faulty, v) {
      var s, i, j, n :| Reachable(c, faulty, s) && StoredSplit(s, i, j, n, v);
      StoredSplitTakes(c, faulty, s, i, j, n, v);
    }
    if c.Primary(v) in faulty && c.n - |faulty| >= 2 {
      StoresCanSplit(c, faulty, v);
    }
  }

  // --------------------------------------------------------- across two views

  /** A primary at the start of its view proposes its first request. */
  lemma ProposesFirst(c: Config, r: Replica, v: int, rset: RequestSet, env: Env)
    requires c.Valid() && CanPropose(c, r, r.id, v)
    ensures var o, pp := React(c, r, Event.Request(rset, []), env), Proposal(v, rset);
            && o.out == {PrePrepareMsg(pp, r.id), PrepareMsg(r.view, 1, pp.digest, r.id)}
            && o.r.id == r.id && Backs(c, o.r, pp, {r.id})
  {
    var pp := Proposal(r.view, rset);
    assert r.ar.InRange(1) && r.ar.At(1) == EMPTY_SLICE;
    var none: map<int, Digest> := map[];
    assert none.Values == {};
    assert none[r.id := pp.digest] == All({r.id}, pp.digest);
    assert StorePp(r, pp).ar.At(1) == Slice(Some(pp), none, none);
  }

  /** A replica at the start of a view in which it is the primary. */
  ghost predicate CanPropose(c: Config, r: Replica, p: int, v: int)
    requires c.Valid()
  {
    && Shaped(c, r) && 0 <= p < c.n && r.id == p && p == c.Primary(v) && r.view == v && !r.vi.inProgress
    && r.seqno == 1 && r.lastStable == 0 && r.ar == Boot(c, p).ar
  }

  lemma ProposeIt(c: Config, s: Sys, p: int, v: int, rset: RequestSet) returns (s': Sys)
    requires Reachable(c, {}, s) && c.Valid() && p in s.replicas && CanPropose(c, s.replicas[p], p, v)
    ensures Reachable(c, {}, s') && Moved(s, s', {p})
    ensures s'.replicas[p].id == p && Backs(c, s'.replicas[p], Proposal(v, rset), {p})
    ensures PrePrepareMsg(Proposal(v, rset), p) in s'.net
  {
    ProposesFirst(c, s.replicas[p], v, rset, CALM);
    var ev := Event.Request(rset, []);
    s' := Reacts(c, {}, s, p, s.replicas[p], ev, CALM, React(c, s.replicas[p], ev, CALM));
  }

  /** The primary `p` of view `v` proposes, and `q` and itself vote for it. */
  lemma ProposalOfCorrect(c: Config, s: Sys, p: int, q: int, v: int, rset: RequestSet) returns (s': Sys)
    requires Reachable(c, {}, s) && c.Valid() && c.f == 1 && v >= 0 && p != q && 0 <= q < c.n
    requires rset.Holds? && rset.request.cid == 0 && rset.request.signed
    requires p in s.replicas && q in s.replicas && s.replicas[q] == Boot(c, q)
    requires CanPropose(c, s.replicas[p], p, v)
    ensures Reachable(c, {}, s') && Moved(s, s', {p, q})
    ensures s'.replicas[p].ar.PreparedAt(c, 1) && s'.replicas[p].ar.At(1).pp == Some(Proposal(v, rset))
  {
    var s1 := ProposeIt(c, s, p, v, rset);
    var s2 := ProposeToOne(c, {}, s1, v, rset, q);
    s' := CollectOne(c, {}, s2, p, Proposal(v, rset), {p}, q);
    BothCount(p, q);
    EnoughBack(c, s'.replicas[p], Proposal(v, rset), {p} + {q});
  }

  /** A fresh replica believes an unauthenticated Status of view `v`. */
  lemma CatchesUp(c: Config, s: Sys, i: int, v: int) returns (s': Sys)
    requires Reachable(c, {}, s) && c.Valid() && i in s.replicas && s.replicas[i] == Boot(c, i)
    requires 1 <= i < c.n && 1 <= v <= 10 && c.Primary(v) == i
    ensures Reachable(c, {}, s') && Moved(s, s', {i}) && CanPropose(c, s'.replicas[i], i, v)
  {
    assert ForceHead(Boot(c, i).ar, 1) == Boot(c, i).ar;
    var ev := DeliverStatus(Status(v, 0, 0, 0));
    s' := Reacts(c, {}, s, i, s.replicas[i], ev, CALM, React(c, s.replicas[i], ev, CALM));
  }

  ghost predicate IsFresh(c: Config, s: Sys, i: int)
    requires c.Valid()
  {
    0 <= i < c.n && i in s.replicas && s.replicas[i] == Boot(c, i)
  }

  /** Four fresh replicas, of which replica 0 is the primary. */
  lemma FourFresh(c: Config) returns (s: Sys)
    requires c.Valid() && c.f == 1 && c.n == 4
    ensures Reachable(c, {}, s)
    ensures IsFresh(c, s, 0) && IsFresh(c, s, 1) && IsFresh(c, s, 2) && IsFresh(c, s, 3)
    ensures CanPropose(c, s.replicas[0], 0, 0)
  {
    StartIsReachable(c, {});
    s := Start(c, {});
    RemainderOf(0, 4, 0, 0);
  }

  /** Replica `p` proposes and is prepared for one request, then `r` for another one. */
  lemma OneAfterTheOther(c: Config, s: Sys, p: int, q: int, r: int, t: int, v: int) returns (s': Sys)
    requires Reachable(c, {}, s) && c.Valid() && c.f == 1 && 1 <= v <= 10
    requires p != q && p != r && p != t && q != r && q != t && r != t && 1 <= r && c.Primary(v) == r
    requires IsFresh(c, s, p) && IsFresh(c, s, q) && IsFresh(c, s, r) && IsFresh(c, s, t)
    requires CanPropose(c, s.replicas[p], p, 0)
    ensures Reachable(c, {}, s') && SplitAt(c, s', p, r, 1)
  {
    var s1 := ProposalOfCorrect(c, s, p, q, 0, FIRST);
    NotMoved(s, s1, p, q, r);
    NotMoved(s, s1, p, q, t);
    var s2 := CatchesUp(c, s1, r, v);
    NotMoved(s1, s2, r, r, t);
    NotMoved(s1, s2, r, r, p);
    s' := ProposalOfCorrect(c, s2, r, t, v, SECOND);
    NotMoved(s2, s', r, t, p);
  }

  lemma NotMoved(s: Sys, s': Sys, p: int, q: int, i: int)
    requires Moved(s, s', {p, q}) && i in s.replicas && i != p && i != q
    ensures i in s'.replicas && s'.replicas[i] == s.replicas[i]
  {
  }

  /** Four replicas, none of them faulty: the primaries of views 0 and 2 prepare different
      requests for the first seqno. */
  lemma NobodyFaultySplits(c: Config)
    requires c.Valid() && c.f == 1 && c.n == 4
    ensures CanSplit(c, {})
  {
    var s := FourFresh(c);
    RemainderOf(2, 4, 0, 2);
    var s' := OneAfterTheOther(c, s, 0, 1, 2, 3, 2);
  }

  lemma InViewIsSplit(c: Config, faulty: set<int>, v: int)
    requires CanSplitInView(c, faulty, v)
    ensures CanSplit(c, faulty)
  {
    var s, i, j, n :| Reachable(c, faulty, s) && SplitInView(c, s, i, j, n, v);
    assert SplitAt(c, s, i, j, n);
  }

  lemma SplitIsOfTwo(c: Config, faulty: set<int>, s: Sys, i: int, j: int, n: int)
    requires Setting(c, faulty) && Reachable(c, faulty, s) && SplitAt(c, s, i, j, n)
    ensures |faulty| >= 4 * c.f - c.n && c.f >= 1
  {
    var run, labels :| EndsIn(c, faulty, run, labels, s);
    SplitNeedsFaulty(c, faulty, run, labels, |run| - 1, |run| - 1, i, j, n);
    RunInv(c, faulty, run, labels, |run| - 1);
    assert i in Upto(c.n) && j in Upto(c.n);
  }

  /** Exactly when two correct replicas can be prepared for different digests in whatever
      views: there are replicas to spare, and at least 4f - n faulty ones. */
  lemma SomeSplit(c: Config, faulty: set<int>)
    requires Setting(c, faulty)
    ensures CanSplit(c, faulty) <==> c.f >= 1 && |faulty| >= 4 * c.f - c.n
  {
    if CanSplit(c, faulty) {
      var s, i, j, n :| Reachable(c, faulty, s) && SplitAt(c, s, i, j, n);
      SplitIsOfTwo(c, faulty, s, i, j, n);
    }
    if c.f >= 1 && |faulty| >= 4 * c.f - c.n {
      if |faulty| == 0 {
        assert faulty == {};
        NobodyFaultySplits(c);
      } else {
        var p := Pick(faulty);
        assert p in Upto(c.n);
        RemainderOf(p, c.n, 0, p);
        PreparesCanSplit(c, faulty, p);
        InViewIsSplit(c, faulty, p);
      }
    }
  }
}
