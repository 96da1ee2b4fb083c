/** The agreement region: a circular buffer of slices that refines the window
    [head, head + W) of `ReplicaSpec.Region`. */
module AgreementRegions {
  import opened Arithmetic
  import opened Types
  import opened Quorums
  import opened ReplicaSpec
  import opened Certificates
  import opened PreparedCerts

  // ------------------------------------------------------------ index masks

  function Pow2(k: nat): (p: nat)
    ensures p >= 1
  {
    if k == 0 then 1 else 2 * Pow2(k - 1)
  }

  /** Bitwise conjunction. */
  function And(a: nat, b: nat): nat {
    if a == 0 || b == 0 then 0 else (a % 2) * (b % 2) + 2 * And(a / 2, b / 2)
  }

  /** Masking with a power of two less one is the remainder. */
  lemma {:induction false} MaskIsRemainder(a: nat, k: nat)
    ensures And(a, Pow2(k) - 1) == a % Pow2(k)
  {
    if a != 0 && k != 0 {
      var w := Pow2(k - 1);
      assert (2 * w - 1) / 2 == w - 1 && (2 * w - 1) % 2 == 1;
      MaskIsRemainder(a / 2, k - 1);
      RemainderOfHalf(a, w);
    }
  }

  lemma RemainderOfHalf(a: nat, w: nat)
    requires w > 0
    ensures a % (2 * w) == a % 2 + 2 * (a / 2 % w)
  {
    var q, r := a / 2 / w, a / 2 % w;
    assert a / 2 == q * w + r;
    assert a == q * (2 * w) + (a % 2 + 2 * r);
    RemainderOf(a, 2 * w, q, a % 2 + 2 * r);
  }

  /** The circular position of offset `k` from position `start`. */
  function Wrap(start: int, k: int, w: int): (i: int)
    requires w > 0
    ensures 0 <= i < w
  {
    (start + k) % w
  }

  lemma WrapIs(start: int, k: int, w: int)
    requires w > 0 && 0 <= start < w && 0 <= k < w
    ensures Wrap(start, k, w) == if start + k < w then start + k else start + k - w
  {
    RemainderOf(start + k, w, if start + k < w then 0 else 1, if start + k < w then start + k else start + k - w);
  }

  /** Different offsets within a window have different positions. */
  lemma WrapIsInjective(start: int, j: int, k: int, w: int)
    requires w > 0 && 0 <= start < w && 0 <= j < w && 0 <= k < w && j != k
    ensures Wrap(start, j, w) != Wrap(start, k, w)
  {
    WrapIs(start, j, w);
    WrapIs(start, k, w);
  }

  /** Every position is the position of some offset. */
  lemma WrapIsOnto(start: int, i: int, w: int) returns (k: int)
    requires w > 0 && 0 <= start < w && 0 <= i < w
    ensures 0 <= k < w && Wrap(start, k, w) == i
  {
    k := if i >= start then i - start else i - start + w;
    WrapIs(start, k, w);
  }

  /** Moving the start by `d` and then by `k` is moving it by d + k. */
  lemma WrapTwice(start: int, d: int, k: int, w: int)
    requires w > 0
    ensures Wrap(Wrap(start, d, w), k, w) == Wrap(start, d + k, w)
  {
    var a := start + d;
    var q := (a % w + k) / w;
    assert a + k == (a / w + q) * w + (a % w + k) % w;
    RemainderOf(a + k, w, a / w + q, (a % w + k) % w);
  }

  /** A whole turn leads back. */
  lemma WrapAround(start: int, k: int, w: int)
    requires w > 0
    ensures Wrap(start, k + w, w) == Wrap(start, k, w)
  {
    var a := start + k;
    assert a + w == (a / w + 1) * w + a % w;
    RemainderOf(a + w, w, a / w + 1, a % w);
  }

  // ------------------------------------------------------------------ slices

  /** The answer to whether a slice is prepared: yes exactly when the value that reached the
      threshold, the first one voted for if there are several, is the digest of the stored
      Pre_prepare; unless there are several, exactly when that digest reached it. */
  ghost predicate SaysPrepared(sl: Slice, order: seq<Digest>, threshold: int, r: bool) {
    && (r <==> sl.pp.Some? && FirstWinner(order, sl.prepares, threshold) == Some(sl.pp.value.digest))
    && (r ==> sl.pp.Some? && Wins(sl.prepares, threshold, sl.pp.value.digest))
    && (!HasOtherWinner(sl.pp, sl.prepares, threshold) ==>
          (r <==> sl.pp.Some? && Wins(sl.prepares, threshold, sl.pp.value.digest)))
  }

  class AgreementSlice {
    const prepared: PreparedCert
    const commit: Certificate
    ghost const Repr: set<object>

    ghost predicate Valid()
      reads Repr
    {
      && Repr == prepared.Repr + commit.Repr
      && prepared.Repr !! commit.Repr
      && prepared.Valid()
      && commit.Valid()
    }

    ghost function Abs(): Slice
      reads Repr
      requires Valid()
    {
      Slice(prepared.pp, prepared.pc.votes, commit.votes)
    }

    /** Both certificates have the limits the configuration gives them. */
    predicate Fits(c: Config) {
      && prepared.pc.MaxVals() == c.maxVals && prepared.pc.threshold == c.PrepareThreshold()
      && commit.MaxVals() == c.maxVals && commit.threshold == c.CommitThreshold()
    }

    constructor (c: Config)
      requires c.Valid()
      ensures Valid() && fresh(Repr) && Fits(c) && Abs() == EMPTY_SLICE
    {
      var p := new PreparedCert(c.maxVals, c.PrepareThreshold());
      var q := new Certificate(c.maxVals, c.CommitThreshold());
      prepared, commit := p, q;
      Repr := p.Repr + q.Repr;
    }

    method Clear()
      requires Valid()
      modifies Repr
      ensures Valid() && Abs() == EMPTY_SLICE
    {
      prepared.Clear();
      commit.Clear();
    }

    /** A Prepare, the own one or somebody else's. */
    method AddPrepare(d: Digest, sender: int, mine: bool) returns (ok: bool)
      requires Valid()
      modifies Repr
      ensures Valid()
      ensures ok == CanVote(old(Abs()).prepares, sender, d, prepared.pc.MaxVals())
      ensures Abs() == old(Abs()).(prepares := AddVote(old(Abs()).prepares, sender, d, prepared.pc.MaxVals()))
    {
      if mine {
        ok := prepared.pc.AddMine(d, sender);
      } else {
        ok := prepared.pc.Add(d, sender);
      }
    }

    /** A Commit, the own one or somebody else's. */
    method AddCommit(d: Digest, sender: int, mine: bool) returns (ok: bool)
      requires Valid()
      modifies Repr
      ensures Valid()
      ensures ok == CanVote(old(Abs()).commits, sender, d, commit.MaxVals())
      ensures Abs() == old(Abs()).(commits := AddVote(old(Abs()).commits, sender, d, commit.MaxVals()))
    {
      if mine {
        ok := commit.AddMine(d, sender);
      } else {
        ok := commit.Add(d, sender);
      }
    }

    /** The values of the Prepares, in the order of their first votes. */
    ghost function PrepareOrder(): seq<Digest>
      reads Repr
      requires Valid()
    {
      prepared.pc.Values()
    }

    method IsPrepared() returns (r: bool)
      requires Valid()
      ensures SaysPrepared(Abs(), PrepareOrder(), prepared.pc.threshold, r)
    {
      r := prepared.IsComplete();
    }

    method StorePp(pp: PrePrepare) returns (ok: bool)
      requires Valid()
      modifies Repr
      ensures Valid()
      ensures ok == CanStorePp(old(Abs()).pp, pp)
      ensures Abs() == if ok then old(Abs()).(pp := Some(pp)) else old(Abs())
    {
      ok := prepared.AddPp(pp);
    }
  }

  method EmptySlices(c: Config) returns (made: seq<AgreementSlice>, ghost repr: set<object>)
    requires c.Valid()
    ensures |made| == c.window && fresh(repr)
    ensures forall i | 0 <= i < |made| ::
              made[i].Repr <= repr && made[i].Valid() && made[i].Fits(c) && made[i].Abs() == EMPTY_SLICE
    ensures forall i, j | 0 <= i < j < |made| :: made[i].Repr !! made[j].Repr
  {
    made, repr := [], {};
    while |made| < c.window
      invariant |made| <= c.window && fresh(repr)
      invariant forall i | 0 <= i < |made| ::
                  made[i].Repr <= repr && made[i].Valid() && made[i].Fits(c) && made[i].Abs() == EMPTY_SLICE
      invariant forall i, j | 0 <= i < j < |made| :: made[i].Repr !! made[j].Repr
    {
      var sl := new AgreementSlice(c);
      made := made + [sl];
      repr := repr + sl.Repr;
    }
  }

  // ------------------------------------------------------------------ region

  class AgreementRegion {
    const c: Config
    const bits: nat
    const slices: seq<AgreementSlice>
    var head: int
    var headIdx: int

    /** The window as a value. */
    ghost var model: Region
    ghost const Repr: set<object>

    /** Position of the slice of seqno `head + k`. */
    function Idx(k: int): int
      reads this
      requires |slices| > 0
    {
      Wrap(headIdx, k, |slices|)
    }

    ghost predicate Built() {
      && c.Valid()
      && |slices| == c.window == Pow2(bits)
      && (forall i | 0 <= i < |slices| :: slices[i].Repr <= Repr && this !in slices[i].Repr && slices[i].Fits(c))
      && (forall i, j | 0 <= i < j < |slices| :: slices[i].Repr !! slices[j].Repr)
      && this in Repr
    }

    ghost predicate SlicesValid()
      reads Repr
      requires Built()
    {
      forall i | 0 <= i < |slices| :: slices[i].Valid()
    }

    /** The slice found for offset `k` holds what the window has there. */
    ghost predicate Holds(k: int)
      reads this, Repr
      requires Built() && SlicesValid() && 0 <= headIdx < |slices|
      requires 0 <= k < |slices| == |model.slots|
    {
      model.slots[k] == slices[Idx(k)].Abs()
    }

    ghost predicate Valid()
      reads this, Repr
    {
      && Built()
      && SlicesValid()
      && 0 <= headIdx < |slices|
      && model.head == head
      && |model.slots| == |slices|
      && forall k | 0 <= k < |slices| :: Holds(k)
    }

    constructor (c: Config, bits: nat)
      requires c.Valid() && c.window == Pow2(bits)
      ensures Valid() && fresh(Repr)
      ensures this.c == c && model == Region(1, seq(c.window, _ => EMPTY_SLICE))
    {
      var made;
      ghost var repr;
      made, repr := EmptySlices(c);
      this.c, this.bits, slices, head, headIdx := c, bits, made, 1, 0;
      model := Region(1, seq(c.window, _ => EMPTY_SLICE));
      Repr := {this} + repr;
    }

    /** tbft_ar_in_range. */
    predicate InRange(n: int)
      reads this
    {
      n >= head && n < head + |slices|
    }

    /** tbft_ar_slice: the slice of a seqno in the window. */
    method SliceOf(n: int) returns (sl: AgreementSlice, ghost k: int)
      requires Valid() && InRange(n)
      ensures k == n - head && 0 <= k < |slices| && sl == slices[Idx(k)]
      ensures sl in slices && sl.Valid() && sl.Abs() == model.At(n)
    {
      k := n - head;
      MaskIsRemainder(headIdx + (n - head), bits);
      var idx := And(headIdx + (n - head), |slices| - 1);
      assert Holds(k);
      sl := slices[idx];
    }

    /** Changing one slice changes the window at its seqno and nowhere else. */
    twostate lemma SliceChanged(k: int)
      requires old(Valid()) && 0 <= k < |slices|
      requires head == old(head) && headIdx == old(headIdx)
      requires slices[Idx(k)].Valid()
      requires forall o | o in Repr && o != this && o !in slices[Idx(k)].Repr :: unchanged(o)
      requires model == old(model).Put(head + k, slices[Idx(k)].Abs())
      ensures Valid()
    {
      forall i | 0 <= i < |slices|
        ensures slices[i].Valid() && (i != Idx(k) ==> slices[i].Abs() == old(slices[i].Abs()))
      {
        if i != Idx(k) {
          assert slices[i].Repr !! slices[Idx(k)].Repr;
          assert old(slices[i].Valid());
        }
      }
      forall j | 0 <= j < |slices|
        ensures Holds(j)
      {
        assert old(Holds(j));
        if j != k {
          WrapIsInjective(headIdx, j, k, |slices|);
        }
      }
    }

    /** tbft_ar_store_pp. */
    method StorePp(n: int, pp: PrePrepare) returns (ok: bool)
      requires Valid()
      modifies Repr
      ensures Valid()
      ensures ok <==> old(model).InRange(n) && CanStorePp(old(model).At(n).pp, pp)
      ensures model == if ok then old(model).Put(n, old(model).At(n).(pp := Some(pp))) else old(model)
    {
      if !InRange(n) {
        return false;
      }
      var sl;
      ghost var k;
      sl, k := SliceOf(n);
      ok := sl.StorePp(pp);
      model := model.Put(n, sl.Abs());
      SliceChanged(k);
    }

    /** tbft_ar_load_pp. */
    method LoadPp(n: int) returns (pp: Option<PrePrepare>)
      requires Valid()
      ensures pp == if model.InRange(n) then model.At(n).pp else None
    {
      if !InRange(n) {
        return None;
      }
      var sl;
      ghost var k;
      sl, k := SliceOf(n);
      pp := sl.prepared.pp;
    }

    /** tbft_ar_add_prepare and tbft_ar_add_my_prepare. */
    method AddPrepare(n: int, d: Digest, sender: int, mine: bool) returns (ok: bool)
      requires Valid()
      modifies Repr
      ensures Valid()
      ensures ok <==> old(model).InRange(n) && CanVote(old(model).At(n).prepares, sender, d, c.maxVals)
      ensures model == ReplicaSpec.AddPrepare(c, old(model), n, sender, d)
    {
      if !InRange(n) {
        return false;
      }
      var sl;
      ghost var k;
      sl, k := SliceOf(n);
      ok := sl.AddPrepare(d, sender, mine);
      model := model.Put(n, sl.Abs());
      SliceChanged(k);
    }

    /** The values of the Prepares for a seqno, in the order of their first votes. */
    ghost function PrepareOrder(n: int): seq<Digest>
      reads this, Repr
      requires Valid() && model.InRange(n)
    {
      slices[Idx(n - head)].PrepareOrder()
    }

    /** tbft_ar_prepared. */
    method Prepared(n: int) returns (r: bool)
      requires Valid()
      ensures if InRange(n) then SaysPrepared(model.At(n), PrepareOrder(n), c.PrepareThreshold(), r) else !r
    {
      if !InRange(n) {
        return false;
      }
      var sl;
      ghost var k;
      sl, k := SliceOf(n);
      r := sl.IsPrepared();
    }

    /** tbft_ar_add_commit and tbft_ar_add_my_commit. */
    method AddCommit(n: int, d: Digest, sender: int, mine: bool) returns (ok: bool)
      requires Valid()
      modifies Repr
      ensures Valid()
      ensures ok <==> old(model).InRange(n) && CanVote(old(model).At(n).commits, sender, d, c.maxVals)
      ensures model == ReplicaSpec.AddCommit(c, old(model), n, sender, d)
    {
      if !InRange(n) {
        return false;
      }
      var sl;
      ghost var k;
      sl, k := SliceOf(n);
      ok := sl.AddCommit(d, sender, mine);
      model := model.Put(n, sl.Abs());
      SliceChanged(k);
    }

    /** Whether a sender's Commit for a seqno in the window has been counted. */
    method HasCommitOf(n: int, sender: int) returns (r: bool)
      requires Valid() && model.InRange(n)
      ensures r <==> sender in model.At(n).commits
    {
      var sl;
      ghost var k;
      sl, k := SliceOf(n);
      r := sender in sl.commit.bmap;
    }

    /** The winning commit digest of a seqno in the window; tbft_ar_committed asks whether
        there is one. */
    method CommitValue(n: int) returns (v: Option<Digest>)
      requires Valid()
      ensures v.Some? ==> model.InRange(n) && Wins(model.At(n).commits, c.CommitThreshold(), v.value)
      ensures v.Some? <==> model.CommittedAt(c, n)
    {
      if !InRange(n) {
        return None;
      }
      var sl;
      ghost var k;
      sl, k := SliceOf(n);
      v := sl.commit.CValue();
    }

    /** Clearing the slice at offset `i` leaves those at other offsets alone. */
    method ClearSlice(idx: int, i: int)
      requires Built() && SlicesValid() && 0 <= headIdx < |slices| && 0 <= i < |slices| && idx == Idx(i)
      modifies slices[idx].Repr
      ensures SlicesValid() && slices[Idx(i)].Abs() == EMPTY_SLICE
      ensures forall j | 0 <= j < |slices| && j != i :: slices[Idx(j)].Abs() == old(slices[Idx(j)].Abs())
    {
      slices[idx].Clear();
      forall p | 0 <= p < |slices| && p != idx
        ensures slices[p].Valid() && slices[p].Abs() == old(slices[p].Abs())
      {
        assert slices[p].Repr !! slices[idx].Repr;
      }
      forall j | 0 <= j < |slices| && j != i
        ensures Idx(j) != idx
      {
        WrapIsInjective(headIdx, j, i, |slices|);
      }
    }

    /** Where offset `k` of the moved window is found: at offset `full + k` of the old one,
        or at one of the cleared offsets. */
    lemma MovedOffset(start: int, full: int, k: int) returns (j: int)
      requires |slices| > 0 && 0 <= start < |slices| && full > 0 && 0 <= k < |slices|
      ensures 0 <= j < |slices|
      ensures Wrap(Wrap(start, full, |slices|), k, |slices|) == Wrap(start, j, |slices|)
      ensures if full + k < |slices| then j == full + k else j < full
    {
      WrapTwice(start, full, k, |slices|);
      if full + k < |slices| {
        j := full + k;
      } else if full <= |slices| {
        j := full + k - |slices|;
        WrapAround(start, j, |slices|);
      } else {
        j := WrapIsOnto(start, Wrap(start, full + k, |slices|), |slices|);
      }
    }

    lemma HoldsEverywhere()
      requires Valid()
      ensures forall j | 0 <= j < |slices| :: model.slots[j] == slices[Idx(j)].Abs()
    {
      forall j | 0 <= j < |slices|
        ensures model.slots[j] == slices[Idx(j)].Abs()
      {
        assert Holds(j);
      }
    }

    /** The clear loop of tbft_ar_truncate. */
    method ClearFirst(delta: int)
      requires Valid() && 0 <= delta <= |slices|
      modifies Repr - {this}
      ensures Built() && SlicesValid()
      ensures forall j | 0 <= j < delta :: slices[Idx(j)].Abs() == EMPTY_SLICE
      ensures forall j | delta <= j < |slices| :: slices[Idx(j)].Abs() == model.slots[j]
    {
      HoldsEverywhere();
      for i := 0 to delta
        invariant SlicesValid()
        invariant forall j | 0 <= j < i :: slices[Idx(j)].Abs() == EMPTY_SLICE
        invariant forall j | i <= j < |slices| :: slices[Idx(j)].Abs() == model.slots[j]
      {
        MaskIsRemainder(headIdx + i, bits);
        var idx := And(headIdx + i, |slices| - 1);
        ClearSlice(idx, i);
      }
    }

    /** tbft_ar_truncate: clearing is capped at a whole turn, but the position of the head
        moves by the full distance. */
    method Truncate(newHead: int)
      requires Valid()
      modifies Repr
      ensures Valid()
      ensures model == ReplicaSpec.Truncate(old(model), newHead)
    {
      if newHead <= head {
        return;
      }
      var full := newHead - head;
      var delta := if full > |slices| then |slices| else full;
      ClearFirst(delta);
      MaskIsRemainder(headIdx + full, bits);
      Advance(newHead, And(headIdx + full, |slices| - 1));
    }

    /** Moving head and position together, the slices passed over being empty. */
    method Advance(newHead: int, newIdx: int)
      requires Built() && SlicesValid()
      requires 0 <= headIdx < |slices| == |model.slots| && model.head == head < newHead
      requires newIdx == Wrap(headIdx, newHead - head, |slices|)
      requires forall j | 0 <= j < |slices| ::
                 slices[Idx(j)].Abs() == if j < newHead - head then EMPTY_SLICE else model.slots[j]
      modifies this
      ensures Valid()
      ensures model == ReplicaSpec.Truncate(old(model), newHead)
    {
      var full := newHead - head;
      headIdx, head := newIdx, newHead;
      model := ReplicaSpec.Truncate(model, newHead);
      SlicesUntouched();
      forall k | 0 <= k < |slices|
        ensures Holds(k)
      {
        var j := MovedOffset(old(headIdx), full, k);
        assert old(slices[Idx(j)].Abs()) == slices[Idx(k)].Abs();
      }
    }

    /** Assigning to the region's own fields changes no slice. */
    twostate lemma SlicesUntouched()
      requires Built() && old(SlicesValid())
      requires forall o | o in Repr && o != this :: unchanged(o)
      ensures SlicesValid()
      ensures forall i | 0 <= i < |slices| :: slices[i].Abs() == old(slices[i].Abs())
    {
      forall i | 0 <= i < |slices|
        ensures slices[i].Valid() && slices[i].Abs() == old(slices[i].Abs())
      {
        assert old(slices[i].Valid());
      }
    }

    /** The direct assignment to the head: the window shifts under the slices. */
    method SetHead(h: int)
      requires Valid()
      modifies this
      ensures Valid()
      ensures model == old(model).(head := h)
    {
      HoldsEverywhere();
      head := h;
      model := model.(head := h);
      SlicesUntouched();
    }
  }
}
