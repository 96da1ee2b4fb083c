/** Quorum certificates: one vote per sender, at most `MaxVals()` distinct values. */
module Certificates {
  import opened Types
  import opened Quorums
  import opened ReplicaSpec
  import opened Tallies

  /** The first of the values, in the order of their first votes, that reached the threshold. */
  function FirstWinner(values: seq<Digest>, votes: map<int, Digest>, threshold: int): Option<Digest> {
    if values == [] then None
    else if Support(votes, values[0]) >= threshold then Some(values[0])
    else FirstWinner(values[1..], votes, threshold)
  }

  class Certificate {
    const valDigests: array<Digest>
    const correct: array<int>
    const threshold: int
    var bmap: set<int>
    var numVals: int
    var mymIdx: int

    /** The accepted vote of every sender. */
    ghost var votes: map<int, Digest>

    ghost const Repr: set<object>

    function MaxVals(): int { valDigests.Length }

    /** Stored digests are distinct, each count is the number of senders of its digest, and
        the bitmap holds exactly the counted senders. */
    ghost predicate Valid()
      reads Repr
    {
      && Repr == {this, valDigests, correct}
      && 1 <= valDigests.Length == correct.Length
      && 0 <= numVals <= valDigests.Length
      && -1 <= mymIdx < numVals
      && bmap == votes.Keys
      && (forall q | q in bmap :: 0 <= q < 64)
      && Represents(votes, valDigests[..numVals], correct[..numVals])
    }

    /** The values voted for, in the order of their first votes. */
    ghost function Values(): seq<Digest>
      reads Repr
      requires Valid()
    {
      valDigests[..numVals]
    }

    constructor (maxVals: int, threshold: int)
      requires maxVals >= 1
      ensures Valid() && fresh(Repr) && Values() == []
      ensures votes == map[] && MaxVals() == maxVals && this.threshold == threshold
    {
      var digests := new Digest[maxVals](_ => Zero);
      var counts := new int[maxVals](_ => 0);
      valDigests, correct := digests, counts;
      this.threshold := threshold;
      bmap, numVals, mymIdx, votes := {}, 0, -1, map[];
      Repr := {this, digests, counts};
    }

    method Clear()
      requires Valid()
      modifies this
      ensures Valid() && votes == map[] && Values() == []
    {
      bmap, numVals, mymIdx, votes := {}, 0, -1, map[];
    }

    /** The position of a digest among the stored ones, or `numVals`. */
    method FindValue(d: Digest) returns (k: int)
      requires Valid()
      ensures 0 <= k <= numVals
      ensures k < numVals ==> valDigests[k] == d
      ensures k == numVals ==> d !in valDigests[..numVals]
    {
      k := 0;
      while k < numVals && valDigests[k] != d
        invariant 0 <= k <= numVals
        invariant forall i | 0 <= i < k :: valDigests[i] != d
      {
        k := k + 1;
      }
    }

    /** prefix##_add: a second vote of a sender, and a new value when all slots are
        taken, are refused; anything else is counted. */
    method Add(d: Digest, sender: int) returns (ok: bool)
      requires Valid()
      modifies Repr
      ensures Valid()
      ensures ok == CanVote(old(votes), sender, d, MaxVals())
      ensures votes == AddVote(old(votes), sender, d, MaxVals())
      ensures mymIdx == old(mymIdx)
      ensures Values() == if ok && d !in old(Values()) then old(Values()) + [d] else old(Values())
    {
      var k;
      ok, k := Record(d, sender);
    }

    /** prefix##_add_mine: the same, remembering which value is the own one. */
    method AddMine(d: Digest, myId: int) returns (ok: bool)
      requires Valid()
      modifies Repr
      ensures Valid()
      ensures ok == CanVote(old(votes), myId, d, MaxVals())
      ensures votes == AddVote(old(votes), myId, d, MaxVals())
      ensures ok ==> 0 <= mymIdx && valDigests[mymIdx] == d
      ensures !ok ==> mymIdx == old(mymIdx)
      ensures Values() == if ok && d !in old(Values()) then old(Values()) + [d] else old(Values())
    {
      var k;
      ok, k := Record(d, myId);
      if ok {
        mymIdx := k;
      }
    }

    /** One more vote for the k-th stored value. */
    method Increment(k: int, sender: int)
      requires Valid() && 0 <= k < numVals && 0 <= sender < 64 && sender !in votes
      modifies this, correct
      ensures Valid() && numVals == old(numVals) && mymIdx == old(mymIdx) && Values() == old(Values())
      ensures votes == old(votes)[sender := valDigests[k]]
    {
      CountKnown(votes, valDigests[..numVals], correct[..numVals], sender, k);
      ghost var counts := correct[..numVals];
      correct[k] := correct[k] + 1;
      assert correct[..numVals] == counts[k := counts[k] + 1];
      bmap := bmap + {sender};
      votes := votes[sender := valDigests[k]];
    }

    /** The first vote for a value that is not stored yet. */
    method Append(d: Digest, sender: int)
      requires Valid() && numVals < valDigests.Length && 0 <= sender < 64 && sender !in votes
      requires d !in valDigests[..numVals]
      modifies Repr
      ensures Valid() && numVals == old(numVals) + 1 && mymIdx == old(mymIdx)
      ensures votes == old(votes)[sender := d] && Values() == old(Values()) + [d]
    {
      CountNew(votes, valDigests[..numVals], correct[..numVals], sender, d);
      ghost var digests, counts := valDigests[..numVals], correct[..numVals];
      valDigests[numVals], correct[numVals] := d, 1;
      numVals := numVals + 1;
      assert valDigests[..numVals] == digests + [d] && correct[..numVals] == counts + [1];
      bmap := bmap + {sender};
      votes := votes[sender := d];
    }

    /** What both ways of adding a vote share: `k` is where its value is stored. */
    method Record(d: Digest, sender: int) returns (ok: bool, k: int)
      requires Valid()
      modifies Repr
      ensures Valid()
      ensures ok == CanVote(old(votes), sender, d, MaxVals())
      ensures votes == AddVote(old(votes), sender, d, MaxVals())
      ensures ok ==> 0 <= k < numVals && valDigests[k] == d
      ensures mymIdx == old(mymIdx)
      ensures Values() == if ok && d !in old(Values()) then old(Values()) + [d] else old(Values())
    {
      ok, k := false, 0;
      if sender < 0 || sender >= 64 || sender in bmap {
        return;
      }
      StoredIsVoted(votes, valDigests[..numVals], correct[..numVals], d);
      ValueCount(votes, valDigests[..numVals], correct[..numVals]);
      k := FindValue(d);
      if k < numVals {
        assert valDigests[..numVals][k] == d;
        assert d in Values();
        Increment(k, sender);
        ok := true;
      } else if numVals < valDigests.Length {
        Append(d, sender);
        assert Values()[numVals - 1] == d;
        ok := true;
      }
    }

    /** prefix##_cvalue: a value that reached the threshold, if there is one; of several, the
        one that was first voted for. */
    method CValue() returns (r: Option<Digest>)
      requires Valid()
      ensures r == FirstWinner(Values(), votes, threshold)
      ensures r.Some? ==> Wins(votes, threshold, r.value)
      ensures r.None? ==> !HasWinner(votes, threshold)
    {
      ghost var digests, counts := valDigests[..numVals], correct[..numVals];
      var i := 0;
      while i < numVals
        invariant 0 <= i <= numVals
        invariant forall j | 0 <= j < i :: correct[j] < threshold
        invariant FirstWinner(digests, votes, threshold) == FirstWinner(digests[i..], votes, threshold)
      {
        assert counts[i] == Support(votes, digests[i]) && digests[i..][0] == digests[i];
        assert digests[i..][1..] == digests[i + 1..];
        if correct[i] >= threshold {
          WinnerIsCounted(votes, digests, counts, threshold, digests[i]);
          return Some(valDigests[i]);
        }
        i := i + 1;
      }
      forall d
        ensures !Wins(votes, threshold, d)
      {
        WinnerIsCounted(votes, digests, counts, threshold, d);
      }
      r := None;
    }

    method IsComplete() returns (r: bool)
      requires Valid()
      ensures r <==> HasWinner(votes, threshold)
    {
      var v := CValue();
      r := v.Some?;
    }
  }
}
