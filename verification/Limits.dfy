/** Where the code does less than its documentation says, and exactly when it does it. */
module Limits {
  import opened Types
  import opened Quorums
  import opened ViewChangeSpec
  import opened ReplicaSpec
  import opened Invariants
  import opened PreparedCerts
  import opened StableQuorums
  import opened Tidiness

  // --------------------------------------------- moving the window head back

  /** Every stored Pre_prepare is found under its own seqno. */
  ghost predicate Keyed(ar: Region) {
    forall n | ar.HasPp(n) :: ar.At(n).pp.value.seqno == n
  }

  ghost predicate StoresNothing(ar: Region) {
    forall k | 0 <= k < |ar.slots| :: ar.slots[k].pp.None?
  }

  /** Truncating and then assigning the head leaves every Pre_prepare under its seqno
      exactly when the head does not move back, or there is nothing to misplace. */
  lemma DirectHeadKeepsKeys(ar: Region, h: int)
    requires Keyed(ar)
    ensures Keyed(ForceHead(ar, h)) <==> ar.head <= h || StoresNothing(ar)
  {
    var ar' := ForceHead(ar, h);
    if ar.head <= h {
      forall n | ar'.HasPp(n)
        ensures ar'.At(n).pp.value.seqno == n
      {
        assert ar'.At(n) == ar.At(n);
      }
    } else {
      assert ar'.slots == ar.slots;
      if !StoresNothing(ar) {
        var k :| 0 <= k < |ar.slots| && ar.slots[k].pp.Some?;
        assert ar.HasPp(ar.head + k) && ar'.HasPp(h + k);
        assert ar'.At(h + k).pp.value.seqno == ar.head + k;
      }
    }
  }

  /** The window keeps remembering what was first accepted exactly when the head does not
      move back, or nothing at or above the new head was ever accepted. */
  lemma DirectHeadKeepsHistory(ar: Region, accepted: map<int, Digest>, h: int)
    requires HistoryOk(ar, accepted)
    ensures HistoryOk(ForceHead(ar, h), accepted) <==> ar.head <= h || forall n | n in accepted :: n < h
  {
    var ar' := ForceHead(ar, h);
    if ar.head <= h {
      forall n
        ensures HistoryAt(ar', accepted, n)
      {
        assert HistoryAt(ar, accepted, n);
        if ar'.InRange(n) && ar.InRange(n) {
          assert ar'.At(n) == ar.At(n);
        }
      }
    } else {
      if HistoryOk(ar', accepted) {
        forall n | n in accepted
          ensures n < h
        {
          if n >= h {
            NoEndlessChain(ar, accepted, h, n);
          }
        }
      }
      if forall n | n in accepted :: n < h {
        forall n
          ensures HistoryAt(ar', accepted, n)
        {
          if ar'.HasPp(n) {
            assert HistoryAt(ar, accepted, n + (ar.head - h));
          }
        }
      }
    }
  }

  /** After moving back, an accepted seqno would have to be in the slot of a later one,
      and so on without end. */
  lemma {:induction false} NoEndlessChain(ar: Region, accepted: map<int, Digest>, h: int, n: int)
    requires HistoryOk(ar, accepted)
    requires h < ar.head && n in accepted && h <= n
    ensures !HistoryOk(ForceHead(ar, h), accepted)
    decreases ar.head + |ar.slots| - n
  {
    var ar' := ForceHead(ar, h);
    if HistoryAt(ar', accepted, n) {
      var m := n + (ar.head - h);
      assert ar'.At(n) == ar.At(m);
      assert HistoryAt(ar, accepted, m);
      NoEndlessChain(ar, accepted, h, m);
    }
  }

  // --------------------------------------------------- aliased checkpoint slots

  /** Right after a vote for `n` has been stored, a quorum that tbft_cr_winning_digest
      reports for `n` is one of Checkpoints sent for `n`: votes for another seqno that
      shares the slot never count. */
  lemma StoredVotesAreForTheSeqno(c: Config, net: set<Msg>, ckpts: seq<CkptSlot>, n: int, sender: int, d: Digest)
    requires c.Valid() && CkptsOk(c, net, ckpts) && 0 <= sender < c.n && CheckpointMsg(n, d, sender) in net
    ensures var k := SlotIndex(c, n);
            var ckpts' := ckpts[k := StoreInSlot(ckpts[k], c.maxVals, n, sender, d)];
            && Winning(c, ckpts', n).Some? ==>
                 exists quorum :: IsCheckpointQuorum(c, net, n, Winning(c, ckpts', n).value, quorum)
  {
    var k := SlotIndex(c, n);
    var ckpts' := ckpts[k := StoreInSlot(ckpts[k], c.maxVals, n, sender, d)];
    StoreCkptKeeps(c, net, ckpts, n, sender, d);
    assert CkptSlotOk(c, net, ckpts'[k]);
    var winning := Winning(c, ckpts', n);
    if winning.Some? {
      assert IsCheckpointQuorum(c, net, n, winning.value, Supporters(ckpts'[k].votes, winning.value));
    }
  }

  lemma Multiple(a: int, m: int)
    requires m > 0 && a % m == 0
    ensures a == (a / m) * m
  {
  }

  /** Within one window past the stable point no two checkpoint seqnos share a slot. */
  lemma CheckpointsHaveTheirOwnSlots(c: Config, stable: int, a: int, b: int)
    requires c.Valid() && a % c.interval == 0 && b % c.interval == 0
    requires stable <= a < b <= stable + c.window
    ensures SlotIndex(c, a) != SlotIndex(c, b)
  {
    var p, q, m := a / c.interval, b / c.interval, c.CheckpointSlots();
    Multiple(a, c.interval);
    Multiple(b, c.interval);
    assert (q - p) * c.interval == b - a;
    FewIntervals(q - p, c.interval, c.window);
    DistinctResidues(p, q, m);
  }

  lemma FewIntervals(x: int, interval: int, window: int)
    requires interval > 0 && 0 < x * interval <= window
    ensures 0 < x <= window / interval
  {
    var y := window / interval + 1 - x;
    assert y * interval == (window / interval) * interval + interval - x * interval;
    assert y * interval > 0;
  }

  lemma DistinctResidues(p: int, q: int, m: int)
    requires 0 < q - p < m
    ensures p % m != q % m
  {
    var t := q / m - p / m;
    assert q - p == t * m + (q % m - p % m);
    if t >= 1 {
      assert t * m >= m;
    } else {
      assert t * m <= 0;
    }
  }

  // ------------------------------------------- states of runs and of the object

  /** What holds in every state of every run covers what the replica object relies on. */
  lemma SoundIsTidy(c: Config, net: set<Msg>, r: Replica)
    requires Sound(c, net, r)
    ensures WindowTidy(c, r.ar) && CkptsTidy(c, r.ckpts) && CollectedTidy(c, r.vi)
  {
    forall k | 0 <= k < |r.ar.slots|
      ensures SliceTidy(c, r.ar.head + k, r.ar.slots[k])
    {
      assert SliceOk(c, net, r.ar.head + k, r.ar.At(r.ar.head + k));
      NoPpNoPrepares(c, net, r.ar.head + k, r.ar.slots[k]);
    }
    forall k | 0 <= k < |r.ckpts|
      ensures forall q | q in r.ckpts[k].votes :: 0 <= q < c.n
    {
      assert CkptSlotOk(c, net, r.ckpts[k]);
    }
  }

  lemma NoPpNoPrepares(c: Config, net: set<Msg>, n: int, sl: Slice)
    requires SliceOk(c, net, n, sl)
    ensures PreparesMatch(sl.pp, sl.prepares)
  {
    if sl.pp.None? {
      forall q
        ensures q !in sl.prepares.Keys
      {
      }
      assert sl.prepares.Keys == {};
    }
  }
}
