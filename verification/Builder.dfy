/** What the builder of a New_view proves: exactly the pairs it counts often enough, as far
    as its counting table and the message have room for them; and when the verifier agrees. */
module Builders {
  import opened Types
  import opened Quorums
  import opened ViewChangeSpec
  import opened NewViews

  datatype Pair = Pair(seqno: int, digest: Digest)

  function PairOf(e: ReqInfo): Pair { Pair(e.seqno, e.digest) }

  // ----------------------------------------------------------- what is counted

  /** The entries among the first `j` that are within the bounds. */
  function Within(lo: int, hi: int, reqs: seq<ReqInfo>, j: nat): seq<Pair>
    requires j <= |reqs|
  {
    if j == 0 then []
    else
      Within(lo, hi, reqs, j - 1) + if lo <= reqs[j - 1].seqno <= hi then [PairOf(reqs[j - 1])] else []
  }

  /** The View_change of sender `q` is there and not skipped for its length. */
  predicate IsCounted(c: Config, received: map<int, ViewChange>, q: int) {
    q in received && |received[q].reqs| <= c.window
  }

  /** Every entry that is looked up in the table, in the order of senders and lists. */
  function Looked(c: Config, received: map<int, ViewChange>, lo: int, hi: int, k: nat): seq<Pair> {
    if k == 0 then []
    else
      Looked(c, received, lo, hi, k - 1)
      + if IsCounted(c, received, k - 1) then Within(lo, hi, received[k - 1].reqs, |received[k - 1].reqs|) else []
  }

  /** The different pairs, in the order of their first appearance. */
  function Firsts(pairs: seq<Pair>): seq<Pair> {
    if pairs == [] then []
    else
      var rest, last := Firsts(pairs[..|pairs| - 1]), pairs[|pairs| - 1];
      if last in rest then rest else rest + [last]
  }

  function Occurs(pairs: seq<Pair>, p: Pair): nat {
    if pairs == [] then 0
    else Occurs(pairs[..|pairs| - 1], p) + if pairs[|pairs| - 1] == p then 1 else 0
  }

  function TableOf(pairs: seq<Pair>, cap: int): seq<Count> {
    if pairs == [] then []
    else
      var last := pairs[|pairs| - 1];
      CountEntry(TableOf(pairs[..|pairs| - 1], cap), cap, ReqInfo(last.seqno, 0, last.digest))
  }

  // ------------------------------------------------------- the table is a prefix

  lemma TableOfMore(pairs: seq<Pair>, e: ReqInfo, cap: int)
    ensures TableOf(pairs + [PairOf(e)], cap) == CountEntry(TableOf(pairs, cap), cap, e)
  {
    var all := pairs + [PairOf(e)];
    assert all[..|all| - 1] == pairs;
  }

  lemma WithinMore(a: seq<Pair>, lo: int, hi: int, reqs: seq<ReqInfo>, j: nat)
    requires 0 < j <= |reqs|
    ensures a + Within(lo, hi, reqs, j) ==
            a + Within(lo, hi, reqs, j - 1) + if lo <= reqs[j - 1].seqno <= hi then [PairOf(reqs[j - 1])] else []
  {
  }

  /** Counting the entries of one more View_change is looking them up after the others. */
  lemma {:induction false} TableThen(table: seq<Count>, a: seq<Pair>, cap: int, lo: int, hi: int, reqs: seq<ReqInfo>, j: nat)
    requires j <= |reqs| && table == TableOf(a, cap)
    ensures CountReqs(table, cap, lo, hi, reqs, j) == TableOf(a + Within(lo, hi, reqs, j), cap)
  {
    if j == 0 {
      assert a + [] == a;
    } else {
      TableThen(table, a, cap, lo, hi, reqs, j - 1);
      WithinMore(a, lo, hi, reqs, j);
      var before := a + Within(lo, hi, reqs, j - 1);
      if lo <= reqs[j - 1].seqno <= hi {
        TableOfMore(before, reqs[j - 1], cap);
      } else {
        assert before + [] == before;
      }
    }
  }

  lemma {:induction false} CountAllIsTable(c: Config, received: map<int, ViewChange>, lo: int, hi: int, k: nat)
    ensures CountAll(c, received, lo, hi, k) == TableOf(Looked(c, received, lo, hi, k), c.window)
  {
    if k > 0 {
      CountAllIsTable(c, received, lo, hi, k - 1);
      if IsCounted(c, received, k - 1) {
        var reqs := received[k - 1].reqs;
        TableThen(CountAll(c, received, lo, hi, k - 1), Looked(c, received, lo, hi, k - 1), c.window, lo, hi, reqs, |reqs|);
      } else {
        assert Looked(c, received, lo, hi, k - 1) + [] == Looked(c, received, lo, hi, k - 1);
      }
    }
  }

  ghost predicate DistinctPairs(pairs: seq<Pair>) {
    forall i, j | 0 <= i < j < |pairs| :: pairs[i] != pairs[j]
  }

  lemma {:induction false} FirstsAreDistinct(pairs: seq<Pair>)
    ensures DistinctPairs(Firsts(pairs))
    ensures forall p :: p in Firsts(pairs) <==> p in pairs
  {
    if pairs != [] {
      FirstsAreDistinct(pairs[..|pairs| - 1]);
      assert pairs == pairs[..|pairs| - 1] + [pairs[|pairs| - 1]];
    }
  }

  /** The row is for the i-th pair and counts its appearances. */
  ghost predicate RowIs(table: seq<Count>, pairs: seq<Pair>, i: nat)
    requires i < |table| && i < |Firsts(pairs)|
  {
    var p := Firsts(pairs)[i];
    table[i].seqno == p.seqno && table[i].digest == p.digest && table[i].count == Occurs(pairs, p)
  }

  ghost predicate TableIs(table: seq<Count>, pairs: seq<Pair>, cap: nat) {
    && |table| == (if |Firsts(pairs)| < cap then |Firsts(pairs)| else cap)
    && forall i | 0 <= i < |table| :: RowIs(table, pairs, i)
  }

  lemma NotSeen(pairs: seq<Pair>, p: Pair)
    requires p !in pairs
    ensures Occurs(pairs, p) == 0
  {
    if pairs != [] {
      NotSeen(pairs[..|pairs| - 1], p);
    }
  }

  /** The table holds the first `cap` different pairs, each with all its appearances. */
  lemma {:induction false} TableIsPrefix(pairs: seq<Pair>, cap: nat)
    ensures TableIs(TableOf(pairs, cap), pairs, cap)
  {
    if pairs != [] {
      TableIsPrefix(pairs[..|pairs| - 1], cap);
      OneMoreLooked(pairs, cap);
    }
  }

  lemma OneMoreLooked(pairs: seq<Pair>, cap: nat)
    requires pairs != [] && TableIs(TableOf(pairs[..|pairs| - 1], cap), pairs[..|pairs| - 1], cap)
    ensures TableIs(TableOf(pairs, cap), pairs, cap)
  {
    var before, last := pairs[..|pairs| - 1], pairs[|pairs| - 1];
    var table, table' := TableOf(before, cap), TableOf(pairs, cap);
    FirstsAreDistinct(before);
    var k := Find(table, last.seqno, last.digest);
    if last in Firsts(before) {
      var i :| 0 <= i < |Firsts(before)| && Firsts(before)[i] == last;
      assert i < |table| ==> RowIs(table, before, i);
      forall j | 0 <= j < |table|
        ensures (table[j].seqno == last.seqno && table[j].digest == last.digest) <==> j == i
      {
        assert RowIs(table, before, j);
      }
      assert k == if i < |table| then i else |table|;
    } else {
      NotSeen(before, last);
      forall j | 0 <= j < |table|
        ensures table[j].seqno != last.seqno || table[j].digest != last.digest
      {
        assert RowIs(table, before, j);
        assert Firsts(before)[j] in Firsts(before);
      }
      assert k == |table|;
    }
    forall j | 0 <= j < |table'|
      ensures RowIs(table', pairs, j)
    {
      if j < |table| {
        assert RowIs(table, before, j);
      }
    }
  }

  // --------------------------------------------------------- what is selected

  /** Pairs among the first `k` that reached the quorum. */
  function Reaching(table: seq<Count>, quorum: int, k: nat): nat
    requires k <= |table|
  {
    if k == 0 then 0 else Reaching(table, quorum, k - 1) + if table[k - 1].count >= quorum then 1 else 0
  }

  predicate Proven(proofs: seq<ReqInfo>, p: Pair) {
    exists i :: 0 <= i < |proofs| && PairOf(proofs[i]) == p
  }

  /** The row is selected: it reached the quorum, and there was room in the message. */
  predicate IsSelected(table: seq<Count>, quorum: int, cap: int, i: nat)
    requires i < |table|
  {
    table[i].count >= quorum && Reaching(table, quorum, i) < cap
  }

  ghost predicate SelectedFor(table: seq<Count>, quorum: int, cap: int, k: nat, p: Pair)
    requires k <= |table|
  {
    exists i: nat :: i < k && IsSelected(table, quorum, cap, i) && Pair(table[i].seqno, table[i].digest) == p
  }

  lemma {:induction false} SelectIs(table: seq<Count>, quorum: int, cap: nat, lastView: int, k: nat, p: Pair)
    requires k <= |table|
    ensures var proofs := Select(table, quorum, cap, lastView, k);
            && |proofs| == (if Reaching(table, quorum, k) < cap then Reaching(table, quorum, k) else cap)
            && (Proven(proofs, p) <==> SelectedFor(table, quorum, cap, k, p))
  {
    if k > 0 {
      SelectIs(table, quorum, cap, lastView, k - 1, p);
      var before, proofs := Select(table, quorum, cap, lastView, k - 1), Select(table, quorum, cap, lastView, k);
      if IsSelected(table, quorum, cap, k - 1) {
        assert proofs == before + [ReqInfo(table[k - 1].seqno, lastView, table[k - 1].digest)];
        if Proven(before, p) {
          var i :| 0 <= i < |before| && PairOf(before[i]) == p;
          assert PairOf(proofs[i]) == p;
        }
        if Pair(table[k - 1].seqno, table[k - 1].digest) == p {
          assert PairOf(proofs[|before|]) == p;
        }
        if Proven(proofs, p) {
          var i :| 0 <= i < |proofs| && PairOf(proofs[i]) == p;
          assert i < |before| ==> PairOf(before[i]) == p;
        }
      }
    }
  }

  // ------------------------------------------------------------- the New_view

  /** Every entry that the builder looks up. */
  function AllLooked(c: Config, vi: ViewInfo): seq<Pair>
    requires c.n >= 0
  {
    Looked(c, vi.received, MinBound(c, vi.received), MaxBound(c, vi.received), c.n)
  }

  /** The different pairs among them, in its order. */
  function Candidates(c: Config, vi: ViewInfo): seq<Pair>
    requires c.n >= 0
  {
    Firsts(AllLooked(c, vi))
  }

  /** The pair is counted 2f+1 times, be it for one sender or for several. */
  predicate EnoughCounted(c: Config, vi: ViewInfo, p: Pair)
    requires c.n >= 0
  {
    Occurs(AllLooked(c, vi), p) >= c.CommitThreshold()
  }

  /** How many of the first `k` candidates are counted often enough. */
  function EnoughBefore(c: Config, vi: ViewInfo, k: nat): nat
    requires c.n >= 0 && k <= |Candidates(c, vi)|
  {
    if k == 0 then 0
    else EnoughBefore(c, vi, k - 1) + if EnoughCounted(c, vi, Candidates(c, vi)[k - 1]) then 1 else 0
  }

  function BuiltTable(c: Config, vi: ViewInfo): seq<Count>
    requires c.n >= 0
  {
    CountAll(c, vi.received, MinBound(c, vi.received), MaxBound(c, vi.received), c.n)
  }

  /** The table with the candidates it has room for. */
  ghost predicate TableFits(c: Config, vi: ViewInfo, table: seq<Count>)
    requires c.n >= 0
  {
    && |table| == (if |Candidates(c, vi)| < c.window then |Candidates(c, vi)| else c.window)
    && forall i: nat | i < |table| :: RowFits(c, vi, table, i)
  }

  ghost predicate RowFits(c: Config, vi: ViewInfo, table: seq<Count>, i: nat)
    requires c.n >= 0 && i < |table| <= |Candidates(c, vi)|
  {
    && Pair(table[i].seqno, table[i].digest) == Candidates(c, vi)[i]
    && (table[i].count >= c.CommitThreshold() <==> EnoughCounted(c, vi, Candidates(c, vi)[i]))
  }

  lemma BuiltTableFits(c: Config, vi: ViewInfo)
    requires c.Valid()
    ensures TableFits(c, vi, BuiltTable(c, vi))
  {
    var table, pairs := BuiltTable(c, vi), AllLooked(c, vi);
    CountAllIsTable(c, vi.received, MinBound(c, vi.received), MaxBound(c, vi.received), c.n);
    TableIsPrefix(pairs, c.window);
    forall i: nat | i < |table|
      ensures RowFits(c, vi, table, i)
    {
      assert RowIs(table, pairs, i);
    }
  }

  lemma {:induction false} ReachingIsEnough(c: Config, vi: ViewInfo, table: seq<Count>, k: nat)
    requires c.n >= 0 && TableFits(c, vi, table) && k <= |table|
    ensures Reaching(table, c.CommitThreshold(), k) == EnoughBefore(c, vi, k)
  {
    if k > 0 {
      ReachingIsEnough(c, vi, table, k - 1);
      assert RowFits(c, vi, table, k - 1);
    }
  }

  /** Its place among the candidates is within the table, and fewer pairs that are counted
      often enough than the message has room for come before it. */
  predicate HasRoom(c: Config, vi: ViewInfo, i: nat)
    requires c.n >= 0 && i < |Candidates(c, vi)|
  {
    i < c.window && EnoughBefore(c, vi, i) < c.maxProofs
  }

  predicate IsProvable(c: Config, vi: ViewInfo, p: Pair)
    requires c.n >= 0
  {
    exists i: nat :: i < |Candidates(c, vi)| && IsProvableAt(c, vi, p, i)
  }

  predicate IsProvableAt(c: Config, vi: ViewInfo, p: Pair, i: nat)
    requires c.n >= 0 && i < |Candidates(c, vi)|
  {
    Candidates(c, vi)[i] == p && EnoughCounted(c, vi, p) && HasRoom(c, vi, i)
  }

  /** The New_view proves exactly the pairs within its bounds that are counted 2f+1 times and
      that there is room for, whatever the collected View_changes are like. */
  lemma BuilderProvesExactly(c: Config, vi: ViewInfo, view: int, p: Pair)
    requires c.Valid() && c.n == 3 * c.f + 1
    ensures Proven(Build(c, vi, view).proofs, p) <==> IsProvable(c, vi, p)
  {
    var table := BuiltTable(c, vi);
    BuiltTableFits(c, vi);
    SelectIs(table, c.CommitThreshold(), c.maxProofs, if view > 0 then view - 1 else 0, |table|, p);
    SelectedIffProvable(c, vi, table, p);
  }

  /** Every proof carries the view before the builder's. */
  lemma {:induction false} SelectedView(table: seq<Count>, quorum: int, cap: int, lastView: int, k: nat)
    requires k <= |table|
    ensures forall p | p in Select(table, quorum, cap, lastView, k) :: p.lastView == lastView
  {
    if k > 0 {
      SelectedView(table, quorum, cap, lastView, k - 1);
    }
  }

  lemma ProofsCarryView(c: Config, vi: ViewInfo, view: int)
    requires c.Valid()
    ensures forall p | p in Build(c, vi, view).proofs :: p.lastView == (if view > 0 then view - 1 else 0)
  {
    SelectedView(BuiltTable(c, vi), 2 * ((c.n - 1) / 3) + 1, c.maxProofs, if view > 0 then view - 1 else 0, |BuiltTable(c, vi)|);
  }

  lemma RowIsSelected(c: Config, vi: ViewInfo, table: seq<Count>, i: nat)
    requires c.n >= 0 && TableFits(c, vi, table) && i < |table|
    ensures IsSelected(table, c.CommitThreshold(), c.maxProofs, i) <==>
            EnoughCounted(c, vi, Candidates(c, vi)[i]) && HasRoom(c, vi, i)
  {
    assert RowFits(c, vi, table, i);
    ReachingIsEnough(c, vi, table, i);
  }

  lemma SelectedIffProvable(c: Config, vi: ViewInfo, table: seq<Count>, p: Pair)
    requires c.n >= 0 && TableFits(c, vi, table)
    ensures SelectedFor(table, c.CommitThreshold(), c.maxProofs, |table|, p) <==> IsProvable(c, vi, p)
  {
    if IsProvable(c, vi, p) {
      var i: nat :| i < |Candidates(c, vi)| && IsProvableAt(c, vi, p, i);
      RowIsSelected(c, vi, table, i);
      assert RowFits(c, vi, table, i);
    }
    if SelectedFor(table, c.CommitThreshold(), c.maxProofs, |table|, p) {
      var i: nat :| i < |table| && IsSelected(table, c.CommitThreshold(), c.maxProofs, i)
                    && Pair(table[i].seqno, table[i].digest) == p;
      RowIsSelected(c, vi, table, i);
      assert RowFits(c, vi, table, i);
      assert IsProvableAt(c, vi, p, i);
    }
  }

  // ---------------------------------------------------- builder and verifier

  /** The last stable seqnos lie within one window of each other. */
  ghost predicate WithinOneWindow(c: Config, received: map<int, ViewChange>) {
    forall p, q | p in received && q in received :: received[p].ls <= received[q].ls + c.window
  }

  lemma BoundsFit(c: Config, vi: ViewInfo)
    requires c.Valid() && vi.received.Keys <= Upto(c.n) && |vi.received| >= 1
    ensures MinBound(c, vi.received) <= MaxBound(c, vi.received) <==> WithinOneWindow(c, vi.received)
  {
    FoldsAreExtremes(vi.received, c.n);
    var q := Pick(vi.received.Keys);
    assert 0 <= q < c.n && q in vi.received;
    var lo, hi := Low(vi.received, c.n).value, Least(vi.received, c.n).value;
    var a :| 0 <= a < c.n && a in vi.received && vi.received[a].ls == lo;
    var b :| 0 <= b < c.n && b in vi.received && vi.received[b].ls == hi;
    assert WithinOneWindow(c, vi.received) ==> vi.received[a].ls <= vi.received[b].ls + c.window;
  }

  /** Every pair that is counted 2f+1 times and has room is listed by 2f+1 senders, too. */
  ghost predicate CountsAreSenders(c: Config, vi: ViewInfo)
    requires c.n >= 0
  {
    forall i: nat | i < |Candidates(c, vi)| && HasRoom(c, vi, i) :: IsHonest(c, vi, Candidates(c, vi)[i])
  }

  predicate IsHonest(c: Config, vi: ViewInfo, p: Pair)
    requires c.n >= 0
  {
    EnoughCounted(c, vi, p) ==> |Attesters(vi.received, p.seqno, p.digest)| >= c.CommitThreshold()
  }

  lemma ProofsAreAttested(c: Config, vi: ViewInfo, view: int)
    requires c.Valid() && c.n == 3 * c.f + 1
    ensures var proofs := Build(c, vi, view).proofs;
            (forall k | 0 <= k < |proofs| :: Attested(c, vi.received, proofs[k])) <==> CountsAreSenders(c, vi)
  {
    var proofs := Build(c, vi, view).proofs;
    if CountsAreSenders(c, vi) {
      forall k | 0 <= k < |proofs|
        ensures Attested(c, vi.received, proofs[k])
      {
        var p := PairOf(proofs[k]);
        BuilderProvesExactly(c, vi, view, p);
        var i: nat :| i < |Candidates(c, vi)| && IsProvableAt(c, vi, p, i);
        assert IsHonest(c, vi, Candidates(c, vi)[i]);
      }
    }
    if forall k | 0 <= k < |proofs| :: Attested(c, vi.received, proofs[k]) {
      forall i: nat | i < |Candidates(c, vi)| && HasRoom(c, vi, i)
        ensures IsHonest(c, vi, Candidates(c, vi)[i])
      {
        var p := Candidates(c, vi)[i];
        if EnoughCounted(c, vi, p) {
          assert IsProvableAt(c, vi, p, i);
          BuilderProvesExactly(c, vi, view, p);
          var k :| 0 <= k < |proofs| && PairOf(proofs[k]) == p;
          assert Attested(c, vi.received, proofs[k]);
        }
      }
    }
  }

  /** A New_view built from whatever quorum of View_changes passes the verification of every
      replica that collected the same ones exactly when their last stable seqnos lie within
      one window and no pair with room owes its 2f+1 votes to entries repeated by a sender. */
  lemma BuiltNewViewVerifiesExactly(c: Config, vi: ViewInfo, view: int)
    requires c.Valid() && c.n == 3 * c.f + 1
    requires vi.received.Keys <= Upto(c.n) && |vi.received| >= c.CommitThreshold()
    ensures Verify(c, vi, Build(c, vi, view)) <==> WithinOneWindow(c, vi.received) && CountsAreSenders(c, vi)
  {
    BoundsFit(c, vi);
    ProofsAreAttested(c, vi, view);
  }

  // ------------------------------------------------------ no repeated entries

  /** No entry twice in one View_change. */
  ghost predicate NoRepeats(reqs: seq<ReqInfo>) {
    forall a, b | 0 <= a < b < |reqs| :: PairOf(reqs[a]) != PairOf(reqs[b])
  }

  ghost predicate NobodyRepeats(received: map<int, ViewChange>) {
    forall q | q in received :: NoRepeats(received[q].reqs)
  }

  lemma {:induction false} OccursAdds(a: seq<Pair>, b: seq<Pair>, p: Pair)
    ensures Occurs(a + b, p) == Occurs(a, p) + Occurs(b, p)
  {
    if b == [] {
      assert a + b == a;
    } else {
      OccursAdds(a, b[..|b| - 1], p);
      assert (a + b)[..|a + b| - 1] == a + b[..|b| - 1];
    }
  }

  lemma OccursOne(added: seq<Pair>, p: Pair)
    requires |added| <= 1
    ensures Occurs(added, p) == if added == [p] then 1 else 0
  {
    if |added| == 1 {
      assert added[..0] == [];
    }
  }

  /** Among the first `j` entries there is one for the pair. */
  ghost predicate ListedBelow(reqs: seq<ReqInfo>, j: int, p: Pair) {
    exists k :: 0 <= k < j <= |reqs| && PairOf(reqs[k]) == p
  }

  /** A list without repeated entries has a pair within the bounds once or not at all. */
  lemma {:induction false} WithinOnce(lo: int, hi: int, reqs: seq<ReqInfo>, j: nat, p: Pair)
    requires j <= |reqs| && NoRepeats(reqs) && lo <= p.seqno <= hi
    ensures Occurs(Within(lo, hi, reqs, j), p) == if ListedBelow(reqs, j, p) then 1 else 0
  {
    if j > 0 {
      WithinOnce(lo, hi, reqs, j - 1, p);
      var added := if lo <= reqs[j - 1].seqno <= hi then [PairOf(reqs[j - 1])] else [];
      OccursAdds(Within(lo, hi, reqs, j - 1), added, p);
      OccursOne(added, p);
      if PairOf(reqs[j - 1]) == p {
        assert forall k | 0 <= k < j - 1 :: PairOf(reqs[k]) != p;
      }
    }
  }

  lemma ListedIsListed(vc: ViewChange, p: Pair)
    ensures ListedBelow(vc.reqs, |vc.reqs|, p) <==> Lists(vc, p.seqno, p.digest)
  {
    if Lists(vc, p.seqno, p.digest) {
      var i :| 0 <= i < |vc.reqs| && vc.reqs[i].seqno == p.seqno && vc.reqs[i].digest == p.digest;
      assert PairOf(vc.reqs[i]) == p;
    }
  }

  /** The senders below `k` whose counted View_change lists the pair. */
  function Listers(c: Config, received: map<int, ViewChange>, p: Pair, k: nat): (r: set<int>)
    ensures forall q :: q in r <==> 0 <= q < k && IsCounted(c, received, q) && Lists(received[q], p.seqno, p.digest)
  {
    if k == 0 then {}
    else
      Listers(c, received, p, k - 1)
      + if IsCounted(c, received, k - 1) && Lists(received[k - 1], p.seqno, p.digest) then {k - 1} else {}
  }

  lemma {:induction false} OccursIsListers(c: Config, received: map<int, ViewChange>, lo: int, hi: int, p: Pair, k: nat)
    requires lo <= p.seqno <= hi && NobodyRepeats(received)
    ensures Occurs(Looked(c, received, lo, hi, k), p) == |Listers(c, received, p, k)|
  {
    if k > 0 {
      OccursIsListers(c, received, lo, hi, p, k - 1);
      var before := Looked(c, received, lo, hi, k - 1);
      if IsCounted(c, received, k - 1) {
        var reqs := received[k - 1].reqs;
        WithinOnce(lo, hi, reqs, |reqs|, p);
        ListedIsListed(received[k - 1], p);
        OccursAdds(before, Within(lo, hi, reqs, |reqs|), p);
      } else {
        OccursAdds(before, [], p);
      }
    }
  }

  lemma {:induction false} LookedWithin(c: Config, received: map<int, ViewChange>, lo: int, hi: int, k: nat)
    ensures forall p :: p in Looked(c, received, lo, hi, k) ==> lo <= p.seqno <= hi
  {
    if k > 0 {
      LookedWithin(c, received, lo, hi, k - 1);
      if IsCounted(c, received, k - 1) {
        WithinBounds(lo, hi, received[k - 1].reqs, |received[k - 1].reqs|);
      }
    }
  }

  lemma {:induction false} WithinBounds(lo: int, hi: int, reqs: seq<ReqInfo>, j: nat)
    requires j <= |reqs|
    ensures forall p :: p in Within(lo, hi, reqs, j) ==> lo <= p.seqno <= hi
  {
    if j > 0 {
      WithinBounds(lo, hi, reqs, j - 1);
    }
  }

  /** Without repeated entries a candidate is counted once for each sender that lists it. */
  lemma CountedIsListed(c: Config, vi: ViewInfo, p: Pair)
    requires c.Valid() && NobodyRepeats(vi.received) && p in Candidates(c, vi)
    ensures Occurs(AllLooked(c, vi), p) == |Listers(c, vi.received, p, c.n)|
  {
    var lo, hi := MinBound(c, vi.received), MaxBound(c, vi.received);
    FirstsAreDistinct(AllLooked(c, vi));
    LookedWithin(c, vi.received, lo, hi, c.n);
    OccursIsListers(c, vi.received, lo, hi, p, c.n);
  }

  lemma NoRepeatsIsHonest(c: Config, vi: ViewInfo)
    requires c.Valid() && NobodyRepeats(vi.received)
    ensures CountsAreSenders(c, vi)
  {
    forall i: nat | i < |Candidates(c, vi)| && HasRoom(c, vi, i)
      ensures IsHonest(c, vi, Candidates(c, vi)[i])
    {
      CandidateIsHonest(c, vi, Candidates(c, vi)[i]);
    }
  }

  lemma CandidateIsHonest(c: Config, vi: ViewInfo, p: Pair)
    requires c.Valid() && NobodyRepeats(vi.received) && p in Candidates(c, vi)
    ensures IsHonest(c, vi, p)
  {
    CountedIsListed(c, vi, p);
    ListersAttest(c, vi.received, p);
  }

  lemma ListersAttest(c: Config, received: map<int, ViewChange>, p: Pair)
    requires c.n >= 0
    ensures |Listers(c, received, p, c.n)| <= |Attesters(received, p.seqno, p.digest)|
  {
    var listers, attesters := Listers(c, received, p, c.n), Attesters(received, p.seqno, p.digest);
    forall q | q in listers
      ensures q in attesters
    {
      assert IsCounted(c, received, q) && Lists(received[q], p.seqno, p.digest);
    }
    SubsetSize(listers, attesters);
  }

  /** Every proof is attested by 2f+1 senders when no View_change repeats an entry. */
  lemma BuiltProofIsAttested(c: Config, vi: ViewInfo, view: int, k: nat)
    requires c.Valid() && c.n == 3 * c.f + 1
    requires NobodyRepeats(vi.received)
    requires k < |Build(c, vi, view).proofs|
    ensures Attested(c, vi.received, Build(c, vi, view).proofs[k])
  {
    NoRepeatsIsHonest(c, vi);
    ProofsAreAttested(c, vi, view);
  }

  /** When no View_change repeats an entry only the last stable seqnos decide. */
  lemma BuiltNewViewVerifies(c: Config, vi: ViewInfo, view: int)
    requires c.Valid() && c.n == 3 * c.f + 1
    requires vi.received.Keys <= Upto(c.n) && NobodyRepeats(vi.received)
    requires |vi.received| >= c.CommitThreshold()
    ensures Verify(c, vi, Build(c, vi, view)) <==> WithinOneWindow(c, vi.received)
  {
    NoRepeatsIsHonest(c, vi);
    BuiltNewViewVerifiesExactly(c, vi, view);
  }

  // ---------------------------------------------------------------- flooding

  lemma {:induction false} FirstsOfMore(a: seq<Pair>, b: seq<Pair>)
    ensures |Firsts(a)| <= |Firsts(a + b)| && Firsts(a + b)[..|Firsts(a)|] == Firsts(a)
  {
    if b == [] {
      assert a + b == a;
    } else {
      FirstsOfMore(a, b[..|b| - 1]);
      assert (a + b)[..|a + b| - 1] == a + b[..|b| - 1];
    }
  }

  lemma {:induction false} FirstsOfDistinct(pairs: seq<Pair>)
    requires DistinctPairs(pairs)
    ensures Firsts(pairs) == pairs
  {
    if pairs != [] {
      FirstsOfDistinct(pairs[..|pairs| - 1]);
    }
  }

  lemma {:induction false} AllWithin(lo: int, hi: int, reqs: seq<ReqInfo>, j: nat)
    requires j <= |reqs| && forall k | 0 <= k < |reqs| :: lo <= reqs[k].seqno <= hi
    ensures |Within(lo, hi, reqs, j)| == j
    ensures forall k | 0 <= k < j :: Within(lo, hi, reqs, j)[k] == PairOf(reqs[k])
  {
    if j > 0 {
      AllWithin(lo, hi, reqs, j - 1);
    }
  }

  lemma {:induction false} LookedStarts(c: Config, received: map<int, ViewChange>, lo: int, hi: int, k: nat) returns (more: seq<Pair>)
    requires k >= 1 && IsCounted(c, received, 0)
    ensures Looked(c, received, lo, hi, k) == Within(lo, hi, received[0].reqs, |received[0].reqs|) + more
  {
    if k == 1 {
      more := [];
      assert Looked(c, received, lo, hi, 0) == [];
    } else {
      var before := LookedStarts(c, received, lo, hi, k - 1);
      var added := if IsCounted(c, received, k - 1) then Within(lo, hi, received[k - 1].reqs, |received[k - 1].reqs|) else [];
      more := before + added;
    }
  }

  /** A View_change of the lowest sender that lists a whole window of pairs within the bounds
      fills the table: no other pair is proven, whoever lists it. */
  lemma FloodingHidesTheRest(c: Config, vi: ViewInfo, view: int, p: Pair)
    requires c.Valid() && c.n == 3 * c.f + 1
    requires 0 in vi.received && |vi.received[0].reqs| == c.window && NoRepeats(vi.received[0].reqs)
    requires forall k | 0 <= k < c.window :: MinBound(c, vi.received) <= vi.received[0].reqs[k].seqno <= MaxBound(c, vi.received)
    requires forall k | 0 <= k < c.window :: PairOf(vi.received[0].reqs[k]) != p
    ensures !Proven(Build(c, vi, view).proofs, p)
  {
    BuilderProvesExactly(c, vi, view, p);
    var lo, hi, reqs := MinBound(c, vi.received), MaxBound(c, vi.received), vi.received[0].reqs;
    var flood := Within(lo, hi, reqs, c.window);
    AllWithin(lo, hi, reqs, c.window);
    FirstsOfDistinct(flood);
    var more := LookedStarts(c, vi.received, lo, hi, c.n);
    FirstsOfMore(flood, more);
    forall i | 0 <= i < c.window
      ensures Candidates(c, vi)[i] != p
    {
      assert Candidates(c, vi)[i] == flood[i];
    }
  }
}
