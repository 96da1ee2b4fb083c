/** The View_change collector: per-replica arrays, the bounds they imply, the check of a
    received New_view and the construction of the own one. */
module ViewInfos {
  import opened Types
  import opened Quorums
  import opened ViewChangeSpec

  class Collector {
    const c: Config
    const received: array<bool>
    const lastStable: array<int>
    const stored: array<Option<ViewChange>>
    var targetView: int
    var inProgress: bool
    var nReceived: int

    /** What has been collected, as a value. */
    ghost var model: ViewInfo
    ghost const Repr: set<object>

    ghost predicate Records(q: int)
      reads this, received, lastStable, stored
      requires 0 <= q < received.Length == lastStable.Length == stored.Length
    {
      && (received[q] <==> q in model.received)
      && (received[q] ==> stored[q] == Some(model.received[q]) && lastStable[q] == model.received[q].ls)
    }

    ghost predicate Valid()
      reads this, Repr
    {
      && Repr == {this, received, lastStable, stored}
      && c.Valid()
      && c.n <= received.Length == lastStable.Length == stored.Length
      && model.target == targetView && model.inProgress == inProgress
      && (forall q | q in model.received :: 0 <= q < received.Length)
      && (forall q | 0 <= q < received.Length :: Records(q))
      && nReceived == |model.received|
    }

    constructor (c: Config, maxReplicas: nat)
      requires c.Valid() && c.n <= maxReplicas
      ensures Valid() && fresh(Repr)
      ensures this.c == c && received.Length == maxReplicas && model == ViewInfo(0, false, map[])
    {
      var a, b, s := new bool[maxReplicas](_ => false), new int[maxReplicas](_ => 0),
                     new Option<ViewChange>[maxReplicas](_ => None);
      this.c, received, lastStable, stored := c, a, b, s;
      targetView, inProgress, nReceived := 0, false, 0;
      model := ViewInfo(0, false, map[]);
      Repr := {this, a, b, s};
    }

    method SetInProgress(b: bool)
      requires Valid()
      modifies this
      ensures Valid() && model == old(model).(inProgress := b)
    {
      inProgress := b;
      model := model.(inProgress := b);
      forall q | 0 <= q < received.Length
        ensures Records(q)
      {
        assert old(Records(q));
      }
    }

    /** tbft_vi_reset. */
    method ResetTo(target: int)
      requires Valid()
      modifies Repr
      ensures Valid() && model == Reset(old(model), target)
    {
      forall q | 0 <= q < received.Length {
        received[q] := false;
      }
      forall q | 0 <= q < lastStable.Length {
        lastStable[q] := 0;
      }
      forall q | 0 <= q < stored.Length {
        stored[q] := None;
      }
      targetView, nReceived := target, 0;
      model := Reset(model, target);
    }

    /** tbft_vi_collect_vc. */
    method CollectVc(sender: int, vc: ViewChange) returns (collected: bool)
      requires Valid()
      modifies Repr
      ensures Valid()
      ensures 0 <= sender < received.Length ==> (model, collected) == Collect(old(model), sender, vc)
      ensures !(0 <= sender < received.Length) ==> model == old(model) && !collected
    {
      if sender < 0 || sender >= received.Length {
        return false;
      }
      if vc.view != targetView {
        if vc.view > targetView {
          ResetTo(vc.view);
        } else {
          return false;
        }
      }
      assert Records(sender);
      if received[sender] {
        return false;
      }
      Enter(sender, vc);
      collected := true;
    }

    method Enter(sender: int, vc: ViewChange)
      requires Valid() && 0 <= sender < received.Length && sender !in model.received
      modifies Repr
      ensures Valid() && model == old(model).(received := old(model).received[sender := vc])
    {
      received[sender] := true;
      stored[sender] := Some(vc);
      lastStable[sender] := vc.ls;
      nReceived := nReceived + 1;
      model := model.(received := model.received[sender := vc]);
      forall q | 0 <= q < received.Length
        ensures Records(q)
      {
        assert old(Records(q));
      }
    }

    /** Whether a View_change of this sender has been collected. */
    method HasFrom(sender: int) returns (r: bool)
      requires Valid() && 0 <= sender < received.Length
      ensures r <==> sender in model.received
    {
      assert Records(sender);
      r := received[sender];
    }

    /** tbft_vi_compute_min_max. */
    method ComputeMinMax() returns (minVal: int, maxVal: int)
      requires Valid()
      ensures minVal == MinBound(c, model.received) && maxVal == MaxBound(c, model.received)
    {
      minVal, maxVal := 0, c.window;
      var first := true;
      for i := 0 to c.n
        invariant first <==> Low(model.received, i).None?
        invariant first <==> Least(model.received, i).None?
        invariant first ==> minVal == 0 && maxVal == c.window
        invariant !first ==> minVal == Low(model.received, i).value
        invariant !first ==> maxVal == Least(model.received, i).value + c.window
      {
        assert Records(i);
        if !received[i] {
          continue;
        }
        var ls := lastStable[i];
        if first {
          minVal, maxVal, first := ls, ls + c.window, false;
        } else {
          if ls > minVal {
            minVal := ls;
          }
          if ls + c.window < maxVal {
            maxVal := ls + c.window;
          }
        }
      }
    }

    /** The senders below `r` whose View_change names the proof's pair. */
    ghost function AttestersBelow(proof: ReqInfo, r: nat): set<int>
      reads this
    {
      set q | q in Attesters(model.received, proof.seqno, proof.digest) && q < r
    }

    /** The attestation loop of tbft_vi_verify_nv for one proof; it stops counting as soon
        as the quorum is there. */
    method IsAttested(proof: ReqInfo) returns (ok: bool)
      requires Valid() && model.received.Keys <= Upto(c.n)
      ensures ok <==> Attested(c, model.received, proof)
    {
      var attestations, r := 0, 0;
      assert AttestersBelow(proof, 0) == {};
      while r < c.n && attestations < c.CommitThreshold()
        invariant 0 <= r <= c.n
        invariant attestations == |AttestersBelow(proof, r)|
      {
        assert Records(r);
        if received[r] {
          var named := Names(stored[r].value, proof);
          if named {
            attestations := attestations + 1;
          }
        }
        OneMoreSender(proof, r);
        r := r + 1;
      }
      var all := Attesters(model.received, proof.seqno, proof.digest);
      SubsetSize(AttestersBelow(proof, r), all);
      if r == c.n {
        assert AttestersBelow(proof, r) == all;
      }
      ok := attestations >= c.CommitThreshold();
    }

    lemma OneMoreSender(proof: ReqInfo, r: nat)
      ensures |AttestersBelow(proof, r + 1)| == |AttestersBelow(proof, r)|
                + if r in Attesters(model.received, proof.seqno, proof.digest) then 1 else 0
    {
      if r in Attesters(model.received, proof.seqno, proof.digest) {
        assert AttestersBelow(proof, r + 1) == AttestersBelow(proof, r) + {r};
      } else {
        assert AttestersBelow(proof, r + 1) == AttestersBelow(proof, r);
      }
    }

    /** tbft_vi_verify_nv. */
    method VerifyNv(nv: NewView) returns (ok: bool)
      requires Valid() && model.received.Keys <= Upto(c.n)
      ensures ok <==> Verify(c, model, nv)
    {
      if nv.view != targetView || nv.min > nv.max || nReceived < c.CommitThreshold() {
        return false;
      }
      var expectedMin, expectedMax := ComputeMinMax();
      if nv.min < expectedMin || nv.max > expectedMax {
        return false;
      }
      for p := 0 to |nv.proofs|
        invariant forall k | 0 <= k < p :: Attested(c, model.received, nv.proofs[k])
      {
        var attested := IsAttested(nv.proofs[p]);
        if !attested {
          return false;
        }
      }
      ok := true;
    }

    /** The counting loops of the New_view builder. */
    method CountPrepared(lo: int, hi: int) returns (counts: array<Count>, nCounts: int)
      requires Valid()
      ensures 0 <= nCounts <= counts.Length
      ensures counts[..nCounts] == CountAll(c, model.received, lo, hi, c.n)
    {
      counts := new Count[c.window](_ => Count(0, Zero, 0));
      nCounts := 0;
      for i := 0 to c.n
        invariant counts.Length == c.window && fresh(counts) && 0 <= nCounts <= c.window
        invariant counts[..nCounts] == CountAll(c, model.received, lo, hi, i)
      {
        assert Records(i);
        if received[i] && |stored[i].value.reqs| <= c.window {
          nCounts := CountMessage(counts, nCounts, lo, hi, stored[i].value.reqs);
        }
      }
    }

    /** The New_view the primary of the target view sends when it has a quorum. */
    method BuildNewView(view: int) returns (nv: NewView)
      requires Valid()
      ensures nv == Build(c, model, view)
    {
      var lo, hi := ComputeMinMax();
      var counts, nCounts := CountPrepared(lo, hi);
      ghost var table := counts[..nCounts];
      var lastView := if view > 0 then view - 1 else 0;
      var f := (c.n - 1) / 3;
      var proofs: seq<ReqInfo> := [];
      for k := 0 to nCounts
        invariant counts[..nCounts] == table
        invariant proofs == Select(table, 2 * f + 1, c.maxProofs, lastView, k)
      {
        assert counts[k] == table[k];
        if counts[k].count >= 2 * f + 1 && |proofs| < c.maxProofs {
          proofs := proofs + [ReqInfo(counts[k].seqno, lastView, counts[k].digest)];
        }
      }
      nv := NewView(targetView, lo, hi, proofs);
    }
  }

  /** Whether a View_change names the seqno and digest of a proof. */
  method Names(vc: ViewChange, proof: ReqInfo) returns (found: bool)
    ensures found <==> Lists(vc, proof.seqno, proof.digest)
  {
    for q := 0 to |vc.reqs|
      invariant forall k | 0 <= k < q :: vc.reqs[k].seqno != proof.seqno || vc.reqs[k].digest != proof.digest
    {
      if vc.reqs[q].seqno == proof.seqno && vc.reqs[q].digest == proof.digest {
        return true;
      }
    }
    found := false;
  }

  lemma {:induction false} FindIs(table: seq<Count>, seqno: int, digest: Digest, k: nat)
    requires k <= |table|
    requires forall i | 0 <= i < k :: table[i].seqno != seqno || table[i].digest != digest
    requires k < |table| ==> table[k].seqno == seqno && table[k].digest == digest
    ensures Find(table, seqno, digest) == k
  {
    if k > 0 {
      FindIs(table[1..], seqno, digest, k - 1);
    }
  }

  /** Counting one entry in the fixed-size table. */
  method CountOne(counts: array<Count>, nCounts: int, e: ReqInfo) returns (n: int)
    requires 0 <= nCounts <= counts.Length
    modifies counts
    ensures 0 <= n <= counts.Length
    ensures counts[..n] == CountEntry(old(counts[..nCounts]), counts.Length, e)
  {
    n := nCounts;
    ghost var table := counts[..nCounts];
    var k := 0;
    while k < nCounts && !(counts[k].seqno == e.seqno && counts[k].digest == e.digest)
      invariant 0 <= k <= nCounts
      invariant forall i | 0 <= i < k :: table[i].seqno != e.seqno || table[i].digest != e.digest
    {
      k := k + 1;
    }
    FindIs(table, e.seqno, e.digest, k);
    if k < nCounts {
      counts[k] := counts[k].(count := counts[k].count + 1);
      assert counts[..n] == table[k := table[k].(count := table[k].count + 1)];
    } else if nCounts < counts.Length {
      counts[nCounts] := Count(e.seqno, e.digest, 1);
      n := nCounts + 1;
      assert counts[..n] == table + [Count(e.seqno, e.digest, 1)];
    }
  }

  /** Counting the entries of one View_change that lie within the bounds. */
  method CountMessage(counts: array<Count>, nCounts: int, lo: int, hi: int, reqs: seq<ReqInfo>) returns (n: int)
    requires 0 <= nCounts <= counts.Length
    modifies counts
    ensures 0 <= n <= counts.Length
    ensures counts[..n] == CountReqs(old(counts[..nCounts]), counts.Length, lo, hi, reqs, |reqs|)
  {
    n := nCounts;
    for j := 0 to |reqs|
      invariant 0 <= n <= counts.Length
      invariant counts[..n] == CountReqs(old(counts[..nCounts]), counts.Length, lo, hi, reqs, j)
    {
      if reqs[j].seqno < lo || reqs[j].seqno > hi {
        continue;
      }
      n := CountOne(counts, n, reqs[j]);
    }
  }
}
