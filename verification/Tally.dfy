/** Tallies with a fixed number of value slots: what they represent, and that having
    only f+1 slots never loses a quorum. */
module Tallies {
  import opened Types
  import opened Quorums
  import opened ReplicaSpec

  /** The digests are distinct, and each count is the number of senders of its digest. */
  ghost predicate Represents(votes: map<int, Digest>, digests: seq<Digest>, counts: seq<int>) {
    && |digests| == |counts|
    && (forall i, j | 0 <= i < j < |digests| :: digests[i] != digests[j])
    && (forall i | 0 <= i < |digests| :: counts[i] == Support(votes, digests[i]) && counts[i] >= 1)
    && (forall q | q in votes :: votes[q] in digests)
  }

  lemma Voter<K, V>(votes: map<K, V>, d: V) returns (q: K)
    requires d in votes.Values
    ensures q in votes && votes[q] == d
  {
    q :| q in votes.Keys && votes[q] == d;
  }

  lemma Supporter(votes: map<int, Digest>, d: Digest) returns (q: int)
    requires Support(votes, d) >= 1
    ensures q in votes && votes[q] == d
  {
    q := Pick(Supporters(votes, d));
  }

  lemma StoredIsVoted(votes: map<int, Digest>, digests: seq<Digest>, counts: seq<int>, d: Digest)
    requires Represents(votes, digests, counts)
    ensures d in digests <==> d in votes.Values
  {
    if d in digests {
      var q := Supporter(votes, d);
    }
    if d in votes.Values {
      var q := Voter(votes, d);
    }
  }

  /** As many value slots are taken as there are different votes. */
  lemma ValueCount(votes: map<int, Digest>, digests: seq<Digest>, counts: seq<int>)
    requires Represents(votes, digests, counts)
    ensures |votes.Values| == |digests|
  {
    forall d
      ensures d in votes.Values <==> d in Elements(digests)
    {
      StoredIsVoted(votes, digests, counts, d);
    }
    assert votes.Values == Elements(digests);
    DistinctCount(digests);
  }

  lemma SupportAfterVote(votes: map<int, Digest>, sender: int, d: Digest, e: Digest)
    requires sender !in votes
    ensures Support(votes[sender := d], e) == Support(votes, e) + if e == d then 1 else 0
  {
    var before, after := Supporters(votes, e), Supporters(votes[sender := d], e);
    if e == d {
      assert after == before + {sender};
    } else {
      assert after == before;
    }
  }

  lemma CountKnown(votes: map<int, Digest>, digests: seq<Digest>, counts: seq<int>, sender: int, k: int)
    requires Represents(votes, digests, counts) && sender !in votes && 0 <= k < |digests|
    ensures Represents(votes[sender := digests[k]], digests, counts[k := counts[k] + 1])
  {
    var votes', counts' := votes[sender := digests[k]], counts[k := counts[k] + 1];
    forall i | 0 <= i < |digests|
      ensures counts'[i] == Support(votes', digests[i]) && counts'[i] >= 1
    {
      SupportAfterVote(votes, sender, digests[k], digests[i]);
    }
    assert digests[k] in digests;
  }

  lemma NoSupport(votes: map<int, Digest>, digests: seq<Digest>, counts: seq<int>, d: Digest)
    requires Represents(votes, digests, counts) && d !in digests
    ensures Support(votes, d) == 0
  {
    if Support(votes, d) >= 1 {
      var q := Supporter(votes, d);
    }
  }

  lemma CountNew(votes: map<int, Digest>, digests: seq<Digest>, counts: seq<int>, sender: int, d: Digest)
    requires Represents(votes, digests, counts) && sender !in votes && d !in digests
    ensures Represents(votes[sender := d], digests + [d], counts + [1])
  {
    var votes', digests', counts' := votes[sender := d], digests + [d], counts + [1];
    forall i | 0 <= i < |digests'|
      ensures counts'[i] == Support(votes', digests'[i]) && counts'[i] >= 1
    {
      SupportAfterVote(votes, sender, d, digests'[i]);
      if i == |digests| {
        NoSupport(votes, digests, counts, d);
      }
    }
    assert digests'[|digests|] == d;
  }

  /** A quorum shows in the counts. */
  lemma WinnerIsCounted(votes: map<int, Digest>, digests: seq<Digest>, counts: seq<int>, threshold: int, d: Digest)
    requires Represents(votes, digests, counts)
    ensures Wins(votes, threshold, d) <==> exists k :: 0 <= k < |digests| && digests[k] == d && counts[k] >= threshold
  {
    if k :| 0 <= k < |digests| && digests[k] == d && counts[k] >= threshold {
      var q := Supporter(votes, d);
    }
  }

  /** The sum of the first `k` counts. */
  function Sum(counts: seq<int>, k: nat): int
    requires k <= |counts|
  {
    if k == 0 then 0 else Sum(counts, k - 1) + counts[k - 1]
  }

  /** The senders whose vote is one of the first `k` digests. */
  function VotersOf(votes: map<int, Digest>, digests: seq<Digest>, k: nat): set<int>
    requires k <= |digests|
  {
    set q | q in votes && votes[q] in digests[..k]
  }

  lemma VotersSplit(votes: map<int, Digest>, digests: seq<Digest>, k: nat)
    requires 1 <= k <= |digests| && digests[k - 1] !in digests[..k - 1]
    ensures |VotersOf(votes, digests, k)| == |VotersOf(votes, digests, k - 1)| + Support(votes, digests[k - 1])
  {
    var before, last := VotersOf(votes, digests, k - 1), Supporters(votes, digests[k - 1]);
    assert digests[..k] == digests[..k - 1] + [digests[k - 1]];
    forall q
      ensures q in VotersOf(votes, digests, k) <==> q in before + last
    {
    }
    assert VotersOf(votes, digests, k) == before + last;
    assert before !! last;
  }

  lemma {:induction false} CountsSumUp(votes: map<int, Digest>, digests: seq<Digest>, counts: seq<int>, k: nat)
    requires Represents(votes, digests, counts) && k <= |digests|
    ensures Sum(counts, k) == |VotersOf(votes, digests, k)|
  {
    if k == 0 {
      assert VotersOf(votes, digests, 0) == {};
    } else {
      CountsSumUp(votes, digests, counts, k - 1);
      assert forall i | 0 <= i < k - 1 :: digests[i] != digests[k - 1];
      VotersSplit(votes, digests, k);
    }
  }

  /** As many senders are marked in the bitmap as the counts add up to. */
  lemma BitmapIsSumOfCounts(votes: map<int, Digest>, digests: seq<Digest>, counts: seq<int>)
    requires Represents(votes, digests, counts)
    ensures Sum(counts, |counts|) == |votes.Keys|
  {
    CountsSumUp(votes, digests, counts, |counts|);
    assert digests[..|digests|] == digests;
    forall q
      ensures q in VotersOf(votes, digests, |digests|) <==> q in votes.Keys
    {
    }
    assert VotersOf(votes, digests, |digests|) == votes.Keys;
  }

  // ------------------------------------------------- f+1 value slots suffice

  datatype Ballot = Ballot(sender: int, digest: Digest)

  /** What a tracker with `maxVals` value slots retains of the ballots, taken in order. */
  function Bounded(ballots: seq<Ballot>, maxVals: int): map<int, Digest> {
    if ballots == [] then map[]
    else
      var last := ballots[|ballots| - 1];
      AddVote(Bounded(ballots[..|ballots| - 1], maxVals), last.sender, last.digest, maxVals)
  }

  /** What a tally without any limit retains: the first ballot of every sender. */
  function Unbounded(ballots: seq<Ballot>): map<int, Digest> {
    if ballots == [] then map[]
    else
      var rest, last := Unbounded(ballots[..|ballots| - 1]), ballots[|ballots| - 1];
      if last.sender in rest then rest else rest[last.sender := last.digest]
  }

  /** What a checkpoint slot for seqno `n` retains. */
  function SlotAfter(ballots: seq<Ballot>, maxVals: int, n: int): CkptSlot {
    if ballots == [] then CkptSlot(n, {}, map[])
    else
      var last := ballots[|ballots| - 1];
      StoreInSlot(SlotAfter(ballots[..|ballots| - 1], maxVals, n), maxVals, n, last.sender, last.digest)
  }

  ghost predicate OneEach(ballots: seq<Ballot>) {
    && (forall i | 0 <= i < |ballots| :: 0 <= ballots[i].sender < 64)
    && (forall i, j | 0 <= i < j < |ballots| :: ballots[i].sender != ballots[j].sender)
  }

  /** Every retained vote was cast by its sender. */
  ghost predicate Cast(ballots: seq<Ballot>, votes: map<int, Digest>) {
    forall q | q in votes :: Ballot(q, votes[q]) in ballots
  }

  /** Every sender marked present cast something. */
  ghost predicate Took(ballots: seq<Ballot>, present: set<int>) {
    forall q | q in present :: exists i :: 0 <= i < |ballots| && ballots[i].sender == q
  }

  lemma CastOneMore(rest: seq<Ballot>, last: Ballot, votes: map<int, Digest>)
    requires Cast(rest, votes)
    ensures Cast(rest + [last], votes)
    ensures Cast(rest + [last], votes[last.sender := last.digest])
  {
    assert (rest + [last])[|rest|] == Ballot(last.sender, last.digest);
  }

  lemma TookOneMore(rest: seq<Ballot>, last: Ballot, present: set<int>)
    requires Took(rest, present)
    ensures Took(rest + [last], present) && Took(rest + [last], present + {last.sender})
  {
    var ballots := rest + [last];
    assert ballots[|rest|].sender == last.sender;
    forall q | q in present
      ensures exists i :: 0 <= i < |ballots| && ballots[i].sender == q
    {
      var i :| 0 <= i < |rest| && rest[i].sender == q;
      assert ballots[i].sender == q;
    }
  }

  lemma {:induction false} BoundedWasCast(ballots: seq<Ballot>, maxVals: int)
    ensures Cast(ballots, Bounded(ballots, maxVals))
  {
    if ballots != [] {
      var rest, last := ballots[..|ballots| - 1], ballots[|ballots| - 1];
      BoundedWasCast(rest, maxVals);
      assert ballots == rest + [last];
      CastOneMore(rest, last, Bounded(rest, maxVals));
    }
  }

  lemma StoreWasCast(ballots: seq<Ballot>, slot: CkptSlot, maxVals: int, n: int)
    requires ballots != [] && slot.seqno == n
    requires Cast(ballots[..|ballots| - 1], slot.votes) && Took(ballots[..|ballots| - 1], slot.present)
    ensures var after := StoreInSlot(slot, maxVals, n, ballots[|ballots| - 1].sender, ballots[|ballots| - 1].digest);
            after.seqno == n && Cast(ballots, after.votes) && Took(ballots, after.present)
  {
    var rest, last := ballots[..|ballots| - 1], ballots[|ballots| - 1];
    assert ballots == rest + [last];
    CastOneMore(rest, last, slot.votes);
    TookOneMore(rest, last, slot.present);
  }

  ghost predicate SlotCast(ballots: seq<Ballot>, slot: CkptSlot, n: int) {
    slot.seqno == n && Cast(ballots, slot.votes) && Took(ballots, slot.present)
  }

  lemma {:induction false} SlotWasCast(ballots: seq<Ballot>, maxVals: int, n: int)
    ensures SlotCast(ballots, SlotAfter(ballots, maxVals, n), n)
  {
    if ballots != [] {
      var rest := ballots[..|ballots| - 1];
      SlotWasCast(rest, maxVals, n);
      StoreWasCast(ballots, SlotAfter(rest, maxVals, n), maxVals, n);
    }
  }

  /** Votes whose supporters of anything but `d` are few leave room for `d`. */
  lemma RoomFor(votes: map<int, Digest>, others: set<int>, d: Digest, maxVals: int)
    requires forall q | q in votes :: votes[q] == d || q in others
    requires |others| < maxVals
    ensures d in votes.Values || |votes.Values| < maxVals
  {
    if d !in votes.Values {
      forall q | q in votes
        ensures q in others
      {
        assert votes[q] in votes.Values;
      }
      SubsetSize(votes.Keys, others);
      FewerValues(votes);
    }
  }

  lemma {:induction false} FewerValues(votes: map<int, Digest>)
    ensures |votes.Values| <= |votes.Keys|
    decreases |votes|
  {
    if votes.Keys == {} {
      assert votes.Values == {};
    } else {
      var q := Pick(votes.Keys);
      var rest := votes - {q};
      FewerValues(rest);
      assert rest.Keys == votes.Keys - {q};
      forall d | d in votes.Values
        ensures d in rest.Values + {votes[q]}
      {
        var p := Voter(votes, d);
        if p != q {
          assert p in rest && rest[p] == d;
        }
      }
      SubsetSize(votes.Values, rest.Values + {votes[q]});
    }
  }

  /** No starvation: if only a set of fewer senders than there are value slots casts
      anything but `d`, every other sender is counted for `d`, in a certificate and in a
      checkpoint slot, whatever the order and however often anyone repeats a vote. */
  lemma {:induction false} NobodyIsStarved(ballots: seq<Ballot>, others: set<int>, d: Digest, maxVals: int, n: int, k: nat)
    requires |others| < maxVals
    requires forall i | 0 <= i < |ballots| ::
               0 <= ballots[i].sender < 64 && (ballots[i].digest == d || ballots[i].sender in others)
    requires k < |ballots| && ballots[k].sender !in others
    decreases |ballots|, 0
    ensures var q := ballots[k].sender;
            && q in Bounded(ballots, maxVals) && Bounded(ballots, maxVals)[q] == d
            && q in SlotAfter(ballots, maxVals, n).votes && SlotAfter(ballots, maxVals, n).votes[q] == d
  {
    var rest, last := ballots[..|ballots| - 1], ballots[|ballots| - 1];
    if k < |rest| {
      NobodyIsStarved(rest, others, d, maxVals, n, k);
      SlotWasCast(rest, maxVals, n);
    } else {
      LastIsCounted(rest, others, d, maxVals, n, last.sender);
    }
  }

  lemma LastIsCounted(rest: seq<Ballot>, others: set<int>, d: Digest, maxVals: int, n: int, q: int)
    requires |others| < maxVals && 0 <= q < 64 && q !in others
    requires forall i | 0 <= i < |rest| ::
               0 <= rest[i].sender < 64 && (rest[i].digest == d || rest[i].sender in others)
    decreases |rest|, 1
    ensures var votes := AddVote(Bounded(rest, maxVals), q, d, maxVals); q in votes && votes[q] == d
    ensures var votes := StoreInSlot(SlotAfter(rest, maxVals, n), maxVals, n, q, d).votes; q in votes && votes[q] == d
  {
    BoundedWasCast(rest, maxVals);
    SlotWasCast(rest, maxVals, n);
    var slot := SlotAfter(rest, maxVals, n);
    RoomFor(Bounded(rest, maxVals), others, d, maxVals);
    RoomFor(slot.votes, others, d, maxVals);
    if q in slot.present || q in Bounded(rest, maxVals) {
      var i :| 0 <= i < |rest| && rest[i].sender == q;
      NobodyIsStarved(rest, others, d, maxVals, n, i);
    }
  }

  /** When everybody votes once, the unlimited tally is the votes cast. */
  lemma {:induction false} UnboundedKeepsAll(ballots: seq<Ballot>, q: int, d: Digest)
    requires OneEach(ballots)
    ensures q in Supporters(Unbounded(ballots), d) <==> Ballot(q, d) in ballots
  {
    if ballots != [] {
      var rest, last := ballots[..|ballots| - 1], ballots[|ballots| - 1];
      UnboundedKeepsAll(rest, q, d);
      assert ballots == rest + [last];
      if last.sender in Unbounded(rest) {
        UnboundedKeepsAll(rest, last.sender, Unbounded(rest)[last.sender]);
        assert false;
      }
    }
  }

  lemma CastIsAmongAll(ballots: seq<Ballot>, votes: map<int, Digest>, d: Digest)
    requires OneEach(ballots) && Cast(ballots, votes)
    ensures Supporters(votes, d) <= Supporters(Unbounded(ballots), d)
  {
    forall q | q in Supporters(votes, d)
      ensures q in Supporters(Unbounded(ballots), d)
    {
      UnboundedKeepsAll(ballots, q, d);
    }
  }

  /** The senders that voted for something else. */
  function Others(votes: map<int, Digest>, d: Digest): set<int> {
    set q | q in votes && votes[q] != d
  }

  lemma EachIsForOrAgainst(ballots: seq<Ballot>, d: Digest, i: int)
    requires OneEach(ballots) && 0 <= i < |ballots|
    ensures ballots[i].digest == d || ballots[i].sender in Others(Unbounded(ballots), d)
  {
    assert Ballot(ballots[i].sender, ballots[i].digest) in ballots;
    UnboundedKeepsAll(ballots, ballots[i].sender, ballots[i].digest);
  }

  /** A digest that not too many contradict loses no vote. */
  lemma NothingLost(ballots: seq<Ballot>, d: Digest, maxVals: int, n: int, q: int)
    requires OneEach(ballots) && |Others(Unbounded(ballots), d)| < maxVals
    requires q in Supporters(Unbounded(ballots), d)
    ensures q in Supporters(Bounded(ballots, maxVals), d)
    ensures q in Supporters(SlotAfter(ballots, maxVals, n).votes, d)
  {
    var others := Others(Unbounded(ballots), d);
    forall i | 0 <= i < |ballots|
      ensures ballots[i].digest == d || ballots[i].sender in others
    {
      EachIsForOrAgainst(ballots, d, i);
    }
    UnboundedKeepsAll(ballots, q, d);
    var i :| 0 <= i < |ballots| && ballots[i] == Ballot(q, d);
    NobodyIsStarved(ballots, others, d, maxVals, n, i);
  }

  /** A digest with a quorum is contradicted by f senders at most. */
  lemma FewOthers(ballots: seq<Ballot>, nodes: nat, f: nat, d: Digest)
    requires OneEach(ballots) && nodes <= 3 * f + 1
    requires forall i | 0 <= i < |ballots| :: ballots[i].sender < nodes
    requires Support(Unbounded(ballots), d) >= 2 * f + 1
    ensures |Others(Unbounded(ballots), d)| <= f
  {
    var all := Unbounded(ballots);
    forall q | q in all
      ensures 0 <= q < nodes
    {
      UnboundedKeepsAll(ballots, q, all[q]);
    }
    assert Supporters(all, d) !! Others(all, d);
    SubsetSize(Supporters(all, d) + Others(all, d), Upto(nodes));
  }

  /** Bounded tallies are lossless: when at most 3f+1 senders vote once each, in any order,
      a certificate with f+1 value slots and a checkpoint slot report a quorum of 2f+1 for
      exactly the digests for which an unlimited tally would. */
  lemma BoundedTallyIsLossless(ballots: seq<Ballot>, nodes: nat, f: nat, maxVals: int, n: int, d: Digest)
    requires OneEach(ballots) && nodes <= 3 * f + 1 && maxVals >= f + 1
    requires forall i | 0 <= i < |ballots| :: ballots[i].sender < nodes
    ensures Wins(Bounded(ballots, maxVals), 2 * f + 1, d) <==> Wins(Unbounded(ballots), 2 * f + 1, d)
    ensures Wins(SlotAfter(ballots, maxVals, n).votes, 2 * f + 1, d) <==> Wins(Unbounded(ballots), 2 * f + 1, d)
  {
    BoundedWasCast(ballots, maxVals);
    SlotWasCast(ballots, maxVals, n);
    var all, bounded, slot := Unbounded(ballots), Bounded(ballots, maxVals), SlotAfter(ballots, maxVals, n).votes;
    CastIsAmongAll(ballots, bounded, d);
    CastIsAmongAll(ballots, slot, d);
    SubsetSize(Supporters(bounded, d), Supporters(all, d));
    SubsetSize(Supporters(slot, d), Supporters(all, d));
    if Support(all, d) >= 2 * f + 1 {
      FewOthers(ballots, nodes, f, d);
      forall q | q in Supporters(all, d)
        ensures q in Supporters(bounded, d) && q in Supporters(slot, d)
      {
        NothingLost(ballots, d, maxVals, n, q);
      }
      assert Supporters(bounded, d) == Supporters(all, d) == Supporters(slot, d);
    }
    SupportIsWin(bounded, 2 * f + 1, d);
    SupportIsWin(all, 2 * f + 1, d);
    SupportIsWin(slot, 2 * f + 1, d);
  }

  lemma SupportIsWin(votes: map<int, Digest>, threshold: int, d: Digest)
    requires threshold >= 1
    ensures Wins(votes, threshold, d) <==> Support(votes, d) >= threshold
  {
    if Support(votes, d) >= threshold {
      var q := Supporter(votes, d);
    }
  }

  /** The order in which the votes arrive does not matter. */
  lemma OrderDoesNotMatter(ballots: seq<Ballot>, shuffled: seq<Ballot>, nodes: nat, f: nat, maxVals: int, d: Digest)
    requires OneEach(ballots) && OneEach(shuffled) && Elements(ballots) == Elements(shuffled)
    requires nodes <= 3 * f + 1 && maxVals >= f + 1
    requires forall i | 0 <= i < |ballots| :: ballots[i].sender < nodes
    ensures Wins(Bounded(ballots, maxVals), 2 * f + 1, d) <==> Wins(Bounded(shuffled, maxVals), 2 * f + 1, d)
  {
    forall q
      ensures q in Supporters(Unbounded(ballots), d) <==> q in Supporters(Unbounded(shuffled), d)
    {
      UnboundedKeepsAll(ballots, q, d);
      UnboundedKeepsAll(shuffled, q, d);
      assert Ballot(q, d) in ballots <==> Ballot(q, d) in Elements(ballots);
      assert Ballot(q, d) in shuffled <==> Ballot(q, d) in Elements(shuffled);
    }
    forall i | 0 <= i < |shuffled|
      ensures shuffled[i].sender < nodes
    {
      assert shuffled[i] in Elements(ballots);
    }
    assert Supporters(Unbounded(ballots), d) == Supporters(Unbounded(shuffled), d);
    SupportIsWin(Unbounded(ballots), 2 * f + 1, d);
    SupportIsWin(Unbounded(shuffled), 2 * f + 1, d);
    BoundedTallyIsLossless(ballots, nodes, f, maxVals, 0, d);
    BoundedTallyIsLossless(shuffled, nodes, f, maxVals, 0, d);
  }
}
