/** The agreement region as a map from seqnos to slices. */
module RegionLaws {
  import opened Types
  import opened ReplicaSpec
  import opened Invariants
  import opened Protocol
  import opened Safety

  /** The slices that hold anything, by seqno. */
  function Stored(ar: Region): map<int, Slice> {
    map n: int | ar.head <= n < ar.head + |ar.slots| && ar.At(n) != EMPTY_SLICE :: ar.At(n)
  }

  function From(m: map<int, Slice>, h: int): map<int, Slice> {
    map n | n in m && n >= h :: m[n]
  }

  /** Truncation keeps exactly the entries at or above the new head, unchanged under their
      seqnos, however far the head moves; everything else in the window is empty. */
  lemma TruncateRestricts(ar: Region, h: int)
    ensures Stored(Truncate(ar, h)) == From(Stored(ar), h)
    ensures Truncate(ar, h).head == Max(ar.head, h) && |Truncate(ar, h).slots| == |ar.slots|
  {
    var ar' := Truncate(ar, h);
    forall n: int
      ensures n in Stored(ar') <==> n in From(Stored(ar), h)
      ensures n in Stored(ar') ==> Stored(ar')[n] == From(Stored(ar), h)[n]
    {
      if ar'.InRange(n) && h > ar.head {
        assert ar'.At(n) == if ar.InRange(n) then ar.At(n) else EMPTY_SLICE;
      }
    }
  }

  predicate SameAt(x: map<int, Slice>, y: map<int, Slice>, m: int) {
    (m in x <==> m in y) && (m in x && m in y ==> x[m] == y[m])
  }

  lemma PutTouchesOneSeqno(ar: Region, n: int, sl: Slice, m: int)
    requires ar.InRange(n) && m != n
    ensures SameAt(Stored(ar.Put(n, sl)), Stored(ar), m)
  {
    var ar' := ar.Put(n, sl);
    assert ar'.InRange(m) <==> ar.InRange(m);
    if ar.InRange(m) {
      assert ar'.At(m) == ar.At(m);
    }
  }

  /** Adding a vote or a Pre_prepare changes what is stored for its own seqno only. */
  lemma AddsTouchOneSeqno(c: Config, ar: Region, n: int, q: int, d: Digest, pp: PrePrepare, m: int)
    requires m != n
    ensures SameAt(Stored(AddPrepare(c, ar, n, q, d)), Stored(ar), m)
    ensures SameAt(Stored(AddCommit(c, ar, n, q, d)), Stored(ar), m)
    ensures ar.InRange(n) ==> SameAt(Stored(ar.Put(n, ar.At(n).(pp := Some(pp)))), Stored(ar), m)
  {
    if ar.InRange(n) {
      var sl := ar.At(n);
      PutTouchesOneSeqno(ar, n, sl.(prepares := AddVote(sl.prepares, q, d, c.maxVals)), m);
      PutTouchesOneSeqno(ar, n, sl.(commits := AddVote(sl.commits, q, d, c.maxVals)), m);
      PutTouchesOneSeqno(ar, n, sl.(pp := Some(pp)), m);
    }
  }

  /** The branch that overwrites the Pre_prepare of a recycled slot is never taken: in a run
      a stored Pre_prepare gives way only to the same request in a later view. */
  lemma RecycledSlotIsNeverMet(c: Config, faulty: set<int>, run: seq<Sys>, labels: seq<Label>, a: nat, i: int, pp: PrePrepare)
    requires IsRun(c, faulty, run, labels) && a < |run| && i in run[a].replicas
    requires run[a].replicas[i].ar.HasPp(pp.seqno)
    ensures var stored := run[a].replicas[i].ar.At(pp.seqno).pp;
            CanStorePp(stored, pp) <==> stored.value.digest == pp.digest && pp.view > stored.value.view
  {
    StoredIsAccepted(c, faulty, run, labels, a, i, pp.seqno);
  }
}
