/** What a View_change lists: exactly the prepared seqnos above the stable point, in order, as
    many as fit. */
module PreparedLists {
  import opened Types
  import opened Quorums
  import opened ViewChangeSpec
  import opened ReplicaSpec
  import opened Invariants
  import opened Protocol
  import opened Handlers
  import opened Safety
  import opened Executions

  /** A Pre_prepare is stored for seqno `n`, and 2f Prepares for its digest. */
  predicate IsPrepared(c: Config, ar: Region, n: int) {
    && ar.head <= n < ar.head + |ar.slots|
    && var sl := ar.slots[n - ar.head];
       && sl.pp.Some?
       && var k := Support(sl.prepares, sl.pp.value.digest); k >= 2 * c.f && k >= 1
  }

  function DigestAt(ar: Region, n: int): Digest
    requires ar.head <= n < ar.head + |ar.slots| && ar.slots[n - ar.head].pp.Some?
  {
    ar.slots[n - ar.head].pp.value.digest
  }

  /** How many seqnos above the stable point and up to `n` are prepared. */
  function PreparedUpTo(c: Config, r: Replica, n: int): nat
    decreases n - r.lastStable
  {
    if n <= r.lastStable then 0 else PreparedUpTo(c, r, n - 1) + if IsPrepared(c, r.ar, n) then 1 else 0
  }

  /** The seqno is between the stable and the prepared point, prepared, and there is room for
      it among `cap` entries after the prepared ones before it. */
  predicate MustList(c: Config, r: Replica, cap: nat, s: int, n: int) {
    r.lastStable < n <= s && IsPrepared(c, r.ar, n) && PreparedUpTo(c, r, n - 1) < cap
  }

  /** The place and the contents of its entry. */
  ghost predicate ListedAt(c: Config, r: Replica, reqs: seq<ReqInfo>, n: int)
    requires IsPrepared(c, r.ar, n)
  {
    var k := PreparedUpTo(c, r, n - 1);
    k < |reqs| && reqs[k] == ReqInfo(n, r.view, DigestAt(r.ar, n))
  }

  ghost predicate ListsAll(c: Config, r: Replica, cap: nat, s: int, reqs: seq<ReqInfo>) {
    && (forall n | MustList(c, r, cap, s, n) :: ListedAt(c, r, reqs, n))
    && (forall k | 0 <= k < |reqs| :: MustList(c, r, cap, s, reqs[k].seqno))
    && |reqs| == (if PreparedUpTo(c, r, s) < cap then PreparedUpTo(c, r, s) else cap)
  }

  lemma PreparedIs(c: Config, ar: Region, n: int)
    ensures IsPrepared(c, ar, n) <==> ar.PreparedAt(c, n)
  {
    if IsPrepared(c, ar, n) {
      var sl := ar.slots[n - ar.head];
      var q := Pick(Supporters(sl.prepares, sl.pp.value.digest));
    }
    if ar.PreparedAt(c, n) {
      var sl := ar.slots[n - ar.head];
      var q :| q in sl.prepares && sl.prepares[q] == sl.pp.value.digest;
      SubsetSize({q}, Supporters(sl.prepares, sl.pp.value.digest));
    }
  }

  lemma {:induction false} CountGrows(c: Config, r: Replica, n: int, s: int)
    requires n <= s
    ensures PreparedUpTo(c, r, n) <= PreparedUpTo(c, r, s)
    decreases s - n
  {
    if n < s {
      CountGrows(c, r, n, s - 1);
    }
  }

  lemma {:induction false} ListsExactly(c: Config, r: Replica, cap: nat, s: int)
    ensures ListsAll(c, r, cap, s, PreparedList(c, r, cap, s))
    decreases s - r.lastStable
  {
    if s > r.lastStable {
      ListsExactly(c, r, cap, s - 1);
      PreparedIs(c, r.ar, s);
      OneMoreListed(c, r, cap, s, PreparedList(c, r, cap, s - 1), PreparedList(c, r, cap, s));
    }
  }

  lemma OneMoreListed(c: Config, r: Replica, cap: nat, s: int, before: seq<ReqInfo>, reqs: seq<ReqInfo>)
    requires s > r.lastStable && ListsAll(c, r, cap, s - 1, before)
    requires reqs == if IsPrepared(c, r.ar, s) && |before| < cap
                     then before + [ReqInfo(s, r.view, DigestAt(r.ar, s))] else before
    ensures ListsAll(c, r, cap, s, reqs)
  {
    var s0 := s - 1;
    forall n | MustList(c, r, cap, s, n)
      ensures ListedAt(c, r, reqs, n)
    {
      if n < s {
        assert MustList(c, r, cap, s0, n);
        assert ListedAt(c, r, before, n);
      } else {
        assert PreparedUpTo(c, r, s0) == |before|;
      }
    }
    forall k | 0 <= k < |reqs|
      ensures MustList(c, r, cap, s, reqs[k].seqno)
    {
      if k < |before| {
        assert MustList(c, r, cap, s0, before[k].seqno);
      }
    }
  }

  /** The View_change of a replica: for a later view than its own, with its stable seqno, and
      with exactly the prepared seqnos above that in order, as many as fit. */
  lemma ViewChangeIs(c: Config, net: set<Msg>, r: Replica) returns (vc: ViewChange)
    requires Sound(c, net, r)
    ensures SendViewChange(c, r).out == {ViewChangeMsg(vc)}
    ensures vc.id == r.id && vc.ls == r.lastStable
    ensures vc.view == if r.vi.target > r.view then r.vi.target else r.view + 1
    ensures ListsAll(c, r, if c.window < c.maxReqs then c.window else c.maxReqs, r.lastPrepared, vc.reqs)
  {
    var m := Pick(SendViewChange(c, r).out);
    vc := m.vc;
    ListsExactly(c, r, if c.window < c.maxReqs then c.window else c.maxReqs, r.lastPrepared);
  }

  /** Afterwards the replica asks for that view, is in a view change, and has collected its own
      View_change, unless it had collected one of its own for that view before. */
  lemma OwnIsCollected(c: Config, r: Replica, vc: ViewChange)
    requires SendViewChange(c, r).out == {ViewChangeMsg(vc)}
    ensures var vi := SendViewChange(c, r).r.vi;
            && SendViewChange(c, r).r == r.(vi := vi)
            && vi.target == vc.view && vi.inProgress && r.id in vi.received
            && (r.vi.target == vc.view ==>
                  vi.received == if r.id in r.vi.received then r.vi.received else r.vi.received[r.id := vc])
            && (r.vi.target != vc.view ==> vi.received == map[r.id := vc])
  {
  }

  lemma {:induction false} CountIsSmall(c: Config, r: Replica, n: int)
    requires n >= r.lastStable
    ensures PreparedUpTo(c, r, n) <= n - r.lastStable
    decreases n - r.lastStable
  {
    if n > r.lastStable {
      CountIsSmall(c, r, n - 1);
    }
  }

  /** With room for a window of entries, the View_change of a correct replica lists every seqno
      that it has executed above its stable point and still holds prepared, with the digest
      stored for it. */
  lemma ExecutedIsListed(c: Config, faulty: set<int>, run: seq<Sys>, labels: seq<Label>, a: nat, i: int, k: nat)
    returns (vc: ViewChange)
    requires IsRun(c, faulty, run, labels) && a < |run| && i in run[a].replicas && c.maxReqs >= c.window
    requires var r := run[a].replicas[i];
             k < |r.log| && r.log[k].Executed? && r.log[k].seqno > r.lastStable && IsPrepared(c, r.ar, r.log[k].seqno)
    ensures SendViewChange(c, run[a].replicas[i]).out == {ViewChangeMsg(vc)}
    ensures Lists(vc, run[a].replicas[i].log[k].seqno, OfRequests(run[a].replicas[i].log[k].rset))
  {
    RunInv(c, faulty, run, labels, a);
    var r := run[a].replicas[i];
    vc := ViewChangeIs(c, run[a].net, r);
    EarlierInLog(c, run[a].net, r, k, |r.log|);
    PreparedIsListed(c, run[a].net, r, vc, r.log[k].seqno);
    ExecutedIsStored(c, faulty, run, labels, a, i, k);
  }

  /** With room for a window of entries nothing prepared is left out. */
  lemma PreparedIsListed(c: Config, net: set<Msg>, r: Replica, vc: ViewChange, n: int)
    requires Sound(c, net, r) && c.maxReqs >= c.window && ListsAll(c, r, c.window, r.lastPrepared, vc.reqs)
    requires r.lastStable < n <= r.lastExecuted && IsPrepared(c, r.ar, n)
    ensures Lists(vc, n, DigestAt(r.ar, n))
  {
    CountIsSmall(c, r, n - 1);
    assert MustList(c, r, c.window, r.lastPrepared, n);
    assert ListedAt(c, r, vc.reqs, n);
  }

  lemma {:induction false} EarlierInLog(c: Config, net: set<Msg>, r: Replica, k: nat, l: nat)
    requires Sound(c, net, r) && k < l <= |r.log|
    ensures r.log[k].seqno <= Reached(r.log, l) <= Reached(r.log, |r.log|)
    decreases |r.log| + l
  {
    if l < |r.log| {
      LaterReached(c, net, r, l, |r.log|);
    }
    LaterReached(c, net, r, k + 1, l);
  }

  lemma {:induction false} LaterReached(c: Config, net: set<Msg>, r: Replica, k: nat, l: nat)
    requires Sound(c, net, r) && k <= l <= |r.log|
    ensures Reached(r.log, k) <= Reached(r.log, l)
    decreases l
  {
    if k < l {
      LaterReached(c, net, r, k, l - 1);
      assert EntryOk(c, net, r.log, l - 1);
    }
  }

  /** What was executed is in the log under its seqno with the digest accepted for it. */
  ghost predicate LogAccepted(r: Replica) {
    forall k | 0 <= k < |r.log| && r.log[k].Executed? :: EntryAccepted(r, k)
  }

  predicate EntryAccepted(r: Replica, k: nat)
    requires k < |r.log| && r.log[k].Executed?
  {
    r.log[k].seqno in r.accepted && r.accepted[r.log[k].seqno] == OfRequests(r.log[k].rset)
  }

  /** The digest of what was executed is the one that was accepted for its seqno. */
  lemma {:induction false} ExecutedWasAccepted(c: Config, faulty: set<int>, run: seq<Sys>, labels: seq<Label>, a: nat, i: int)
    requires IsRun(c, faulty, run, labels) && a < |run| && i in run[a].replicas
    ensures LogAccepted(run[a].replicas[i])
  {
    if a > 0 {
      StepCauses(c, faulty, run, labels, a - 1, i);
      ExecutedWasAccepted(c, faulty, run, labels, a - 1, i);
      LogStaysAccepted(c, run[a - 1].net, run[a - 1].replicas[i], run[a].replicas[i]);
    }
  }

  lemma StepCauses(c: Config, faulty: set<int>, run: seq<Sys>, labels: seq<Label>, a: nat, i: int)
    requires IsRun(c, faulty, run, labels) && a < |labels| && i in run[a + 1].replicas
    ensures i in run[a].replicas && Sound(c, run[a].net, run[a].replicas[i])
    ensures var r, e := run[a].replicas[i], run[a + 1].replicas[i]; Advances(r, e) && (Extended(r, e) || Skipped(r, e))
  {
    RunStep(c, faulty, run, labels, a);
    EntriesHaveCauses(c, faulty, run, labels, a, i);
  }

  lemma LogStaysAccepted(c: Config, net: set<Msg>, r: Replica, e: Replica)
    requires Sound(c, net, r) && LogAccepted(r) && Advances(r, e) && (Extended(r, e) || Skipped(r, e))
    ensures LogAccepted(e)
  {
    forall k | 0 <= k < |e.log| && e.log[k].Executed?
      ensures EntryAccepted(e, k)
    {
      if k < |r.log| {
        assert r.log[k] == e.log[k] && EntryAccepted(r, k);
      } else {
        NewWasAccepted(c, net, r, e, k);
      }
    }
  }

  lemma NewWasAccepted(c: Config, net: set<Msg>, r: Replica, e: Replica, k: nat)
    requires Sound(c, net, r) && Advances(r, e) && (Extended(r, e) || Skipped(r, e))
    requires |r.log| <= k < |e.log| && e.log[k].Executed?
    ensures EntryAccepted(e, k)
  {
    var n := r.lastExecuted + 1 + (k - |r.log|);
    assert Extended(r, e);
    assert ExtendedAt(r, e, n);
    SlotOk(c, net, r, n);
    assert r.ar.At(n) == SliceFor(r, n);
  }

  lemma ExecutedIsStored(c: Config, faulty: set<int>, run: seq<Sys>, labels: seq<Label>, a: nat, i: int, k: nat)
    requires IsRun(c, faulty, run, labels) && a < |run| && i in run[a].replicas
    requires var r := run[a].replicas[i]; k < |r.log| && r.log[k].Executed? && IsPrepared(c, r.ar, r.log[k].seqno)
    ensures var r := run[a].replicas[i]; DigestAt(r.ar, r.log[k].seqno) == OfRequests(r.log[k].rset)
  {
    var r := run[a].replicas[i];
    ExecutedWasAccepted(c, faulty, run, labels, a, i);
    assert EntryAccepted(r, k);
    RunInv(c, faulty, run, labels, a);
    SlotOk(c, run[a].net, r, r.log[k].seqno);
    assert r.ar.At(r.log[k].seqno) == r.ar.slots[r.log[k].seqno - r.ar.head];
  }
}
