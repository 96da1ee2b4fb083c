/** The checkpoint region: per checkpoint seqno modulo the number of slots, the votes of
    every replica with up to `maxVals` candidate digests and a running leader. */
module CheckpointRegions {
  import opened Types
  import opened Quorums
  import opened ReplicaSpec
  import opened Tallies

  class CheckpointSlot {
    const present: array<bool>
    const candDigests: array<Digest>
    const candCounts: array<int>
    var seqno: int
    var nCandidates: int
    var matchCount: int
    var winningDigest: Digest

    /** The votes that were counted. */
    ghost var votes: map<int, Digest>
    ghost const Repr: set<object>

    ghost predicate Valid()
      reads Repr
    {
      && Repr == {this, present, candDigests, candCounts}
      && candDigests.Length == candCounts.Length >= 1
      && 0 <= nCandidates <= candDigests.Length
      && Represents(votes, candDigests[..nCandidates], candCounts[..nCandidates])
      && Leads(candDigests[..nCandidates], candCounts[..nCandidates], matchCount, winningDigest)
    }

    ghost function Present(): set<int>
      reads present
    {
      set q | 0 <= q < present.Length && present[q]
    }

    ghost function Abs(): CkptSlot
      reads Repr
      requires Valid()
    {
      CkptSlot(seqno, Present(), votes)
    }

    predicate Fits(c: Config, maxReplicas: nat) {
      present.Length == maxReplicas && candDigests.Length == c.maxVals
    }

    constructor (maxReplicas: nat, maxVals: int)
      requires maxVals >= 1
      ensures Valid() && fresh(Repr) && Abs() == EMPTY_CKPT
      ensures present.Length == maxReplicas && candDigests.Length == maxVals
    {
      var a, b, k := new bool[maxReplicas](_ => false), new Digest[maxVals](_ => Zero), new int[maxVals](_ => 0);
      present, candDigests, candCounts := a, b, k;
      seqno, nCandidates, matchCount, winningDigest, votes := 0, 0, 0, Zero, map[];
      Repr := {this, a, b, k};
    }

    /** memset of the whole slot. */
    method Clear(n: int)
      requires Valid()
      modifies Repr
      ensures Valid() && Abs() == CkptSlot(n, {}, map[])
    {
      forall i | 0 <= i < present.Length {
        present[i] := false;
      }
      seqno, nCandidates, matchCount, winningDigest, votes := n, 0, 0, Zero, map[];
    }

    method FindCandidate(d: Digest) returns (k: int)
      requires Valid()
      ensures 0 <= k <= nCandidates
      ensures k < nCandidates ==> candDigests[k] == d
      ensures k == nCandidates ==> d !in candDigests[..nCandidates]
    {
      k := 0;
      while k < nCandidates && candDigests[k] != d
        invariant 0 <= k <= nCandidates
        invariant forall i | 0 <= i < k :: candDigests[i] != d
      {
        k := k + 1;
      }
    }

    /** Counting a vote for the k-th candidate, which may take the lead. */
    method CountVote(k: int, sender: int)
      requires Valid() && 0 <= k < nCandidates && sender !in votes
      modifies this, candCounts
      ensures Valid() && seqno == old(seqno)
      ensures votes == old(votes)[sender := candDigests[k]]
    {
      ghost var digests, counts := candDigests[..nCandidates], candCounts[..nCandidates];
      CountKnown(votes, digests, counts, sender, k);
      candCounts[k] := candCounts[k] + 1;
      assert candCounts[..nCandidates] == counts[k := counts[k] + 1];
      votes := votes[sender := candDigests[k]];
      LeadAfter(digests, counts, matchCount, winningDigest, k);
      if candCounts[k] > matchCount {
        matchCount, winningDigest := candCounts[k], candDigests[k];
      }
    }

    /** A new candidate with its first vote. */
    method CountCandidate(d: Digest, sender: int)
      requires Valid() && nCandidates < candDigests.Length && sender !in votes
      requires d !in candDigests[..nCandidates]
      modifies this, candDigests, candCounts
      ensures Valid() && seqno == old(seqno)
      ensures votes == old(votes)[sender := d]
    {
      ghost var digests, counts := candDigests[..nCandidates], candCounts[..nCandidates];
      CountNew(votes, digests, counts, sender, d);
      candDigests[nCandidates], candCounts[nCandidates] := d, 1;
      nCandidates := nCandidates + 1;
      assert candDigests[..nCandidates] == digests + [d] && candCounts[..nCandidates] == counts + [1];
      votes := votes[sender := d];
      LeadAfterNew(digests, counts, matchCount, winningDigest, d);
      if 1 > matchCount {
        matchCount, winningDigest := 1, d;
      }
    }

    /** Whether the leader has a quorum is whether any value has. */
    lemma LeaderHasQuorum(threshold: int)
      requires Valid() && threshold >= 1
      ensures matchCount >= threshold ==> Wins(votes, threshold, winningDigest)
      ensures matchCount >= threshold <==> HasWinner(votes, threshold)
    {
      ghost var digests, counts := candDigests[..nCandidates], candCounts[..nCandidates];
      WinnerIsCounted(votes, digests, counts, threshold, winningDigest);
      if d :| Wins(votes, threshold, d) {
        WinnerIsCounted(votes, digests, counts, threshold, d);
      }
    }

    method Mark(sender: int)
      requires Valid() && 0 <= sender < present.Length
      modifies present
      ensures Valid() && Present() == old(Present()) + {sender}
    {
      present[sender] := true;
    }

    /** Registering a vote under its candidate, if the candidate is known or there is room. */
    method Tally(sender: int, d: Digest) returns (counted: bool)
      requires Valid() && sender !in votes
      modifies this, candDigests, candCounts
      ensures Valid() && seqno == old(seqno)
      ensures counted <==> d in old(votes).Values || |old(votes).Values| < candDigests.Length
      ensures votes == if counted then old(votes)[sender := d] else old(votes)
    {
      StoredIsVoted(votes, candDigests[..nCandidates], candCounts[..nCandidates], d);
      ValueCount(votes, candDigests[..nCandidates], candCounts[..nCandidates]);
      var k := FindCandidate(d);
      counted := true;
      if k < nCandidates {
        assert candDigests[..nCandidates][k] == d;
        CountVote(k, sender);
      } else if nCandidates < candDigests.Length {
        CountCandidate(d, sender);
      } else {
        counted := false;
      }
    }

    /** tbft_cr_store on its slot. */
    method Store(n: int, sender: int, d: Digest, threshold: int) returns (stable: bool)
      requires Valid() && 0 <= sender < present.Length && threshold >= 1
      requires votes.Keys <= Present()
      modifies Repr
      ensures Valid() && votes.Keys <= Present()
      ensures Abs() == StoreInSlot(old(Abs()), candDigests.Length, n, sender, d)
      ensures stable <==> (old(seqno) == n ==> sender !in old(Present()))
                          && sender in votes && HasWinner(votes, threshold)
    {
      if seqno != n {
        Clear(n);
      }
      if present[sender] {
        return false;
      }
      Mark(sender);
      var counted := Tally(sender, d);
      if !counted {
        return false;
      }
      LeaderHasQuorum(threshold);
      stable := matchCount >= threshold;
    }
  }

  /** The leader has the most votes, and is one of the candidates once there is a vote. */
  ghost predicate Leads(digests: seq<Digest>, counts: seq<int>, matchCount: int, winning: Digest)
    requires |digests| == |counts|
  {
    && (forall i | 0 <= i < |counts| :: counts[i] <= matchCount)
    && matchCount >= 0
    && (matchCount > 0 ==> exists i :: 0 <= i < |counts| && counts[i] == matchCount && digests[i] == winning)
  }

  lemma LeadAfter(digests: seq<Digest>, counts: seq<int>, matchCount: int, winning: Digest, k: int)
    requires |digests| == |counts| && 0 <= k < |counts| && Leads(digests, counts, matchCount, winning)
    ensures var counts' := counts[k := counts[k] + 1];
            if counts'[k] > matchCount then Leads(digests, counts', counts'[k], digests[k])
            else Leads(digests, counts', matchCount, winning)
  {
    var counts' := counts[k := counts[k] + 1];
    if counts'[k] <= matchCount && matchCount > 0 {
      var i :| 0 <= i < |counts| && counts[i] == matchCount && digests[i] == winning;
      assert counts'[i] == matchCount;
    }
    assert counts'[k] == counts[k] + 1;
  }

  lemma LeadAfterNew(digests: seq<Digest>, counts: seq<int>, matchCount: int, winning: Digest, d: Digest)
    requires |digests| == |counts| && Leads(digests, counts, matchCount, winning)
    ensures if 1 > matchCount then Leads(digests + [d], counts + [1], 1, d)
            else Leads(digests + [d], counts + [1], matchCount, winning)
  {
    var digests', counts' := digests + [d], counts + [1];
    if matchCount > 0 {
      var i :| 0 <= i < |counts| && counts[i] == matchCount && digests[i] == winning;
      assert counts'[i] == matchCount && digests'[i] == winning;
    }
    assert counts'[|counts|] == 1 && digests'[|counts|] == d;
  }

  method EmptyCheckpointSlots(c: Config, maxReplicas: nat) returns (made: seq<CheckpointSlot>, ghost repr: set<object>)
    requires c.Valid()
    ensures |made| == c.CheckpointSlots() && fresh(repr)
    ensures forall i | 0 <= i < |made| ::
              made[i].Repr <= repr && made[i].Valid() && made[i].Fits(c, maxReplicas) && made[i].Abs() == EMPTY_CKPT
    ensures forall i, j | 0 <= i < j < |made| :: made[i].Repr !! made[j].Repr
  {
    made, repr := [], {};
    while |made| < c.CheckpointSlots()
      invariant |made| <= c.CheckpointSlots() && fresh(repr)
      invariant forall i | 0 <= i < |made| ::
                  made[i].Repr <= repr && made[i].Valid() && made[i].Fits(c, maxReplicas) && made[i].Abs() == EMPTY_CKPT
      invariant forall i, j | 0 <= i < j < |made| :: made[i].Repr !! made[j].Repr
    {
      var slot := new CheckpointSlot(maxReplicas, c.maxVals);
      made := made + [slot];
      repr := repr + slot.Repr;
    }
  }

  class CheckpointRegion {
    const c: Config
    const maxReplicas: nat
    const slots: seq<CheckpointSlot>

    /** The slots as values. */
    ghost var model: seq<CkptSlot>
    ghost const Repr: set<object>

    ghost predicate Built() {
      && c.Valid()
      && |slots| == c.CheckpointSlots()
      && (forall i | 0 <= i < |slots| ::
            slots[i].Repr <= Repr && this !in slots[i].Repr && slots[i].Fits(c, maxReplicas))
      && (forall i, j | 0 <= i < j < |slots| :: slots[i].Repr !! slots[j].Repr)
      && this in Repr
    }

    ghost predicate Holds(i: int)
      reads this, Repr
      requires Built() && 0 <= i < |slots| == |model|
    {
      slots[i].Valid() && slots[i].Abs() == model[i] && model[i].votes.Keys <= model[i].present
    }

    ghost predicate Valid()
      reads this, Repr
    {
      Built() && |model| == |slots| && forall i | 0 <= i < |slots| :: Holds(i)
    }

    constructor (c: Config, maxReplicas: nat)
      requires c.Valid()
      ensures Valid() && fresh(Repr)
      ensures this.c == c && this.maxReplicas == maxReplicas
      ensures model == seq(c.CheckpointSlots(), _ => EMPTY_CKPT)
    {
      var made;
      ghost var repr;
      made, repr := EmptyCheckpointSlots(c, maxReplicas);
      this.c, this.maxReplicas, slots := c, maxReplicas, made;
      model := seq(c.CheckpointSlots(), _ => EMPTY_CKPT);
      Repr := {this} + repr;
    }

    /** A slot none of whose objects changed still represents the same. */
    twostate lemma Untouched(i: int)
      requires Built() && 0 <= i < |slots| && old(slots[i].Valid())
      requires forall o | o in slots[i].Repr :: unchanged(o)
      ensures slots[i].Valid() && slots[i].Abs() == old(slots[i].Abs())
    {
    }

    /** Changing one slot changes the model there and nowhere else. */
    twostate lemma SlotChanged(k: int)
      requires old(Valid()) && 0 <= k < |slots|
      requires slots[k].Valid() && slots[k].votes.Keys <= slots[k].Present()
      requires forall o | o in Repr && o != this && o !in slots[k].Repr :: unchanged(o)
      requires model == old(model)[k := slots[k].Abs()]
      ensures Valid()
    {
      forall i | 0 <= i < |slots|
        ensures Holds(i)
      {
        assert old(Holds(i));
        if i != k {
          assert slots[i].Repr !! slots[k].Repr;
          Untouched(i);
        }
      }
    }

    /** tbft_cr_store. */
    method Store(n: int, sender: int, d: Digest) returns (stable: bool)
      requires Valid()
      modifies Repr
      ensures Valid()
      ensures 0 <= sender < maxReplicas ==>
                var k := SlotIndex(c, n);
                && model == old(model)[k := StoreInSlot(old(model)[k], c.maxVals, n, sender, d)]
                && (stable <==> StoreMakesStable(c, old(model)[k], n, sender, d))
      ensures !(0 <= sender < maxReplicas) ==> model == old(model) && !stable
    {
      if sender < 0 || sender >= maxReplicas {
        return false;
      }
      var k := SlotIndex(c, n);
      assert Holds(k);
      stable := slots[k].Store(n, sender, d, c.CommitThreshold());
      model := model[k := slots[k].Abs()];
      SlotChanged(k);
    }

    /** tbft_cr_winning_digest: the leader of the slot at the index of `n`, whatever seqno
        that slot is for. */
    method WinningDigest(n: int) returns (r: Option<Digest>)
      requires Valid()
      requires model[SlotIndex(c, n)].votes.Keys <= Upto(c.n)
      ensures r == Winning(c, model, n)
    {
      var k := SlotIndex(c, n);
      assert Holds(k);
      slots[k].LeaderHasQuorum(c.CommitThreshold());
      if slots[k].matchCount < c.CommitThreshold() {
        return None;
      }
      r := Some(slots[k].winningDigest);
      WinnerIsUnique(model[k].votes, c.n, c.f, slots[k].winningDigest, Winning(c, model, n).value);
    }

    /** tbft_cr_truncate. */
    method Truncate(stable: int)
      requires Valid()
      modifies Repr
      ensures Valid()
      ensures model == TruncateCkpts(old(model), stable)
    {
      for i := 0 to |slots|
        invariant Valid()
        invariant forall j | 0 <= j < i ::
                    model[j] == if old(model)[j].seqno <= stable then EMPTY_CKPT else old(model)[j]
        invariant forall j | i <= j < |slots| :: model[j] == old(model)[j]
      {
        ClearIfOld(i, stable);
      }
    }

    method ClearIfOld(i: int, stable: int)
      requires Valid() && 0 <= i < |slots|
      modifies Repr
      ensures Valid()
      ensures model == old(model)[i := if old(model)[i].seqno <= stable then EMPTY_CKPT else old(model)[i]]
    {
      assert Holds(i);
      if slots[i].seqno <= stable {
        slots[i].Clear(0);
        model := model[i := slots[i].Abs()];
        SlotChanged(i);
      }
    }
  }
}
