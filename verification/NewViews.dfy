/** New_view messages: their bounds, and that an accepted one neither contradicts itself nor
    anything committed. */
module NewViews {
  import opened Types
  import opened Quorums
  import opened ViewChangeSpec
  import opened ReplicaSpec
  import opened Invariants
  import opened Protocol
  import opened Handlers
  import opened Safety

  // ------------------------------------------------------------------ bounds

  /** `m` is reported by a sender below `k`. */
  ghost predicate Reported(received: map<int, ViewChange>, k: nat, m: int) {
    exists q :: 0 <= q < k && q in received && received[q].ls == m
  }

  /** The two folds are the largest and the smallest last-stable seqno collected. */
  lemma {:induction false} FoldsAreExtremes(received: map<int, ViewChange>, k: nat)
    ensures Low(received, k).None? <==> forall q | 0 <= q < k :: q !in received
    ensures Low(received, k).None? <==> Least(received, k).None?
    ensures Low(received, k).Some? ==>
              && Reported(received, k, Low(received, k).value)
              && Reported(received, k, Least(received, k).value)
              && forall q | 0 <= q < k && q in received ::
                   Least(received, k).value <= received[q].ls <= Low(received, k).value
  {
    if k > 0 {
      FoldsAreExtremes(received, k - 1);
      if k - 1 in received {
        assert Reported(received, k, received[k - 1].ls);
      }
      if Low(received, k - 1).Some? {
        assert Reported(received, k, Low(received, k - 1).value);
        assert Reported(received, k, Least(received, k - 1).value);
      }
    }
  }

  /** With fewer View_changes the lower bound can only fall and the upper bound only rise. */
  lemma FewerViewChangesWiden(c: Config, some: map<int, ViewChange>, all: map<int, ViewChange>)
    requires c.Valid() && all.Keys <= Upto(c.n) && some != map[]
    requires some.Keys <= all.Keys && forall q | q in some :: some[q] == all[q]
    ensures MinBound(c, some) <= MinBound(c, all)
    ensures MaxBound(c, some) >= MaxBound(c, all)
  {
    FoldsAreExtremes(some, c.n);
    FoldsAreExtremes(all, c.n);
    var q :| q in some.Keys;
    assert q in all.Keys;
  }

  // ------------------------------------------------------------ consistency

  /** An attesting quorum of collected View_changes contains a correct one's. */
  lemma CorrectAttester(c: Config, faulty: set<int>, s: Sys, received: map<int, ViewChange>, proof: ReqInfo, quorum: set<int>)
    returns (i: int)
    requires SysInv(c, faulty, s) && ViewInfoOk(c, s.net, ViewInfo(0, false, received))
    requires Attested(c, received, proof)
    requires quorum <= Upto(c.n) && |quorum| >= c.CommitThreshold()
    ensures i in quorum && i in s.replicas && i in received
    ensures received[i].id == i && ViewChangeMsg(received[i]) in s.net
    ensures Lists(received[i], proof.seqno, proof.digest)
  {
    i := QuorumsMeet(c.n, c.f, faulty, Attesters(received, proof.seqno, proof.digest), quorum);
  }

  /** An accepted New_view never proves two digests for one seqno. */
  lemma AcceptedProofsAreConsistent(c: Config, faulty: set<int>, run: seq<Sys>, labels: seq<Label>, a: nat,
                                    i: int, nv: NewView, sender: int, p: nat, q: nat)
    requires IsRun(c, faulty, run, labels) && a < |run| && i in run[a].replicas
    requires AcceptsNewView(c, run[a].replicas[i], nv, sender)
    requires p < |nv.proofs| && q < |nv.proofs| && nv.proofs[p].seqno == nv.proofs[q].seqno
    ensures nv.proofs[p].digest == nv.proofs[q].digest
  {
    RunInv(c, faulty, run, labels, a);
    var received := run[a].replicas[i].vi.received;
    assert Attested(c, received, nv.proofs[p]) && Attested(c, received, nv.proofs[q]);
    var j := CorrectAttester(c, faulty, run[a], received, nv.proofs[p],
                             Attesters(received, nv.proofs[q].seqno, nv.proofs[q].digest));
    ListedOnce(c, faulty, run[a], received[j], nv.proofs[p].seqno, nv.proofs[p].digest, nv.proofs[q].digest);
  }

  lemma ListedOnce(c: Config, faulty: set<int>, s: Sys, vc: ViewChange, n: int, d: Digest, e: Digest)
    requires SysInv(c, faulty, s) && ViewChangeMsg(vc) in s.net && vc.id in s.replicas
    requires Lists(vc, n, d) && Lists(vc, n, e)
    ensures d == e
  {
    EndorsesOnce(c, faulty, s, ViewChangeMsg(vc), ViewChangeMsg(vc), n, d, e);
  }

  lemma AttestedRespectsCommit(c: Config, faulty: set<int>, s: Sys, received: map<int, ViewChange>, proof: ReqInfo, e: Digest)
    requires SysInv(c, faulty, s) && ViewInfoOk(c, s.net, ViewInfo(0, false, received))
    requires Attested(c, received, proof) && CommitQuorum(c, s.net, proof.seqno, e)
    ensures proof.digest == e
  {
    var quorum :| IsCommitQuorum(c, s.net, proof.seqno, e, quorum);
    var j := CorrectAttester(c, faulty, s, received, proof, quorum);
    var v :| CommitMsg(v, proof.seqno, e, j) in s.net;
    EndorsesOnce(c, faulty, s, ViewChangeMsg(received[j]), CommitMsg(v, proof.seqno, e, j), proof.seqno, proof.digest, e);
  }

  /** No proof of an accepted New_view contradicts a commit quorum formed before or after it. */
  lemma AcceptedProofsRespectCommits(c: Config, faulty: set<int>, run: seq<Sys>, labels: seq<Label>, a: nat, b: nat,
                                     i: int, nv: NewView, sender: int, p: nat, e: Digest)
    requires IsRun(c, faulty, run, labels) && a < |run| && b < |run| && i in run[a].replicas
    requires AcceptsNewView(c, run[a].replicas[i], nv, sender) && p < |nv.proofs|
    requires CommitQuorum(c, run[b].net, nv.proofs[p].seqno, e)
    ensures nv.proofs[p].digest == e
  {
    var k := if a < b then b else a;
    NothingGoesBack(c, faulty, run, labels, a, k);
    NothingGoesBack(c, faulty, run, labels, b, k);
    RunInv(c, faulty, run, labels, a);
    RunInv(c, faulty, run, labels, k);
    QuorumGrows(c, run[b].net, run[k].net, nv.proofs[p].seqno, e);
    AttestedRespectsCommit(c, faulty, run[k], run[a].replicas[i].vi.received, nv.proofs[p], e);
  }

  // ---------------------------------------------------------------- acceptance

  /** Both bounds of the New_view are between what each collected View_change reports as stable
      and the end of the window after that. */
  ghost predicate WithinAll(c: Config, received: map<int, ViewChange>, nv: NewView) {
    forall q | q in received :: received[q].ls <= nv.min <= nv.max <= received[q].ls + c.window
  }

  predicate HasEntry(vc: ViewChange, k: int, proof: ReqInfo) {
    0 <= k < |vc.reqs| && vc.reqs[k].seqno == proof.seqno && vc.reqs[k].digest == proof.digest
  }

  /** 2f+1 senders list the pair of the proof. */
  ghost predicate ListedByQuorum(c: Config, received: map<int, ViewChange>, proof: ReqInfo) {
    exists s: set<int> :: |s| >= 2 * c.f + 1 && AllList(received, s, proof)
  }

  ghost predicate AllList(received: map<int, ViewChange>, s: set<int>, proof: ReqInfo) {
    forall q | q in s :: q in received && exists k :: HasEntry(received[q], k, proof)
  }

  lemma AttestedIsListed(c: Config, received: map<int, ViewChange>, proof: ReqInfo)
    ensures Attested(c, received, proof) <==> ListedByQuorum(c, received, proof)
  {
    var attesters := Attesters(received, proof.seqno, proof.digest);
    forall q | q in attesters
      ensures q in received && exists k :: HasEntry(received[q], k, proof)
    {
      var k :| 0 <= k < |received[q].reqs| && received[q].reqs[k].seqno == proof.seqno && received[q].reqs[k].digest == proof.digest;
      assert HasEntry(received[q], k, proof);
    }
    assert AllList(received, attesters, proof);
    if ListedByQuorum(c, received, proof) {
      var s: set<int> :| |s| >= 2 * c.f + 1 && AllList(received, s, proof);
      forall q | q in s
        ensures q in attesters
      {
        var k :| HasEntry(received[q], k, proof);
      }
      SubsetSize(s, attesters);
    }
  }

  /** A New_view is accepted exactly when it is not older, for the view that is being collected
      for, from its primary, within the window of every one of at least 2f+1 collected
      View_changes, and proves only pairs that 2f+1 of them list. */
  lemma AcceptedExactly(c: Config, net: set<Msg>, r: Replica, nv: NewView, sender: int)
    requires Sound(c, net, r)
    ensures AcceptsNewView(c, r, nv, sender) <==>
              && r.view <= nv.view == r.vi.target
              && sender == nv.view % c.n
              && |r.vi.received| >= 2 * c.f + 1
              && WithinAll(c, r.vi.received, nv)
              && |nv.proofs| <= c.window
              && forall p | 0 <= p < |nv.proofs| :: ListedByQuorum(c, r.vi.received, nv.proofs[p])
  {
    var received := r.vi.received;
    BoundsAreWithinAll(c, received, nv);
    forall p | 0 <= p < |nv.proofs|
      ensures Attested(c, received, nv.proofs[p]) <==> ListedByQuorum(c, received, nv.proofs[p])
    {
      AttestedIsListed(c, received, nv.proofs[p]);
    }
  }

  lemma BoundsAreWithinAll(c: Config, received: map<int, ViewChange>, nv: NewView)
    requires c.Valid() && forall q | q in received :: 0 <= q < c.n
    ensures |received| >= 1 ==>
              (MinBound(c, received) <= nv.min <= nv.max <= MaxBound(c, received) <==> WithinAll(c, received, nv))
  {
    FoldsAreExtremes(received, c.n);
    if |received| >= 1 {
      var q := Pick(received.Keys);
      assert 0 <= q < c.n && q in received;
      var lo, hi := Low(received, c.n).value, Least(received, c.n).value;
      var a :| 0 <= a < c.n && a in received && received[a].ls == lo;
      var b :| 0 <= b < c.n && b in received && received[b].ls == hi;
      if WithinAll(c, received, nv) {
        assert received[a].ls <= nv.min && nv.max <= received[b].ls + c.window;
      }
    }
  }

  /** A received New_view moves nobody's stable point further than one window beyond a stable
      point that some correct replica has reached; and of the 2f+1 View_changes on which its
      bounds rest at least f+1 are from correct replicas. */
  lemma AcceptedStaysNear(c: Config, faulty: set<int>, run: seq<Sys>, labels: seq<Label>, a: nat,
                          i: int, nv: NewView, sender: int) returns (q: int)
    requires IsRun(c, faulty, run, labels) && a < |run| && i in run[a].replicas
    requires AcceptsNewView(c, run[a].replicas[i], nv, sender)
    ensures q in run[a].replicas && q in run[a].replicas[i].vi.received
    ensures HandleNewView(c, run[a].replicas[i], nv, sender).lastStable
         <= Max(run[a].replicas[i].lastStable, run[a].replicas[q].lastStable + c.window)
    ensures forall p | p in run[a].replicas[i].vi.received && p !in faulty ::
              p in run[a].replicas && nv.max <= run[a].replicas[p].lastStable + c.window
  {
    RunInv(c, faulty, run, labels, a);
    var s := run[a];
    var received := s.replicas[i].vi.received;
    AcceptedExactly(c, s.net, s.replicas[i], nv, sender);
    q := SomeCorrect(c.f, faulty, received.Keys);
    forall p | p in received && p !in faulty
      ensures p in s.replicas && nv.max <= s.replicas[p].lastStable + c.window
    {
      ReportsItsStable(c, faulty, s, i, p);
    }
  }

  lemma ReportsItsStable(c: Config, faulty: set<int>, s: Sys, i: int, q: int)
    requires SysInv(c, faulty, s) && i in s.replicas && q in s.replicas[i].vi.received && q !in faulty
    ensures q in s.replicas && s.replicas[i].vi.received[q].ls <= s.replicas[q].lastStable
  {
    var vc := s.replicas[i].vi.received[q];
    assert 0 <= q < c.n && vc.id == q && ViewChangeMsg(vc) in s.net;
    assert q in Upto(c.n) - faulty && q in s.replicas;
    assert ListsOk(s.net, q, s.replicas[q].lastStable);
  }
}
