/** The reassembly slots in memory: fixed buffers filled fragment by fragment. */
module Reassembly {
  import opened Types
  import opened Quorums
  import opened Fragments

  class ReassemblySlot {
    const buf: array<int>
    var bufLen: int
    var msgId: int
    var fragTotal: nat
    var fragReceived: int
    var fragMask: set<int>
    var src: Bytes
    var valid: bool
    var stale: bool
    var lastTick: int
    var lastFragLen: int

    /** The payloads copied into the buffer, by index. */
    ghost var got: map<int, Bytes>
    ghost const Repr: set<object>

    /** The bytes of the buffer are the received payloads, zero elsewhere. */
    ghost predicate Buffers(got: map<int, Bytes>)
      reads buf
    {
      forall k: nat | k < buf.Length :: buf[k] == ByteAt(got, k)
    }

    ghost predicate Valid()
      reads this, Repr
    {
      && Repr == {this, buf}
      && Buffers(got)
      && Tracks(got, fragMask, fragReceived, fragTotal, lastFragLen, buf.Length)
      && (!valid ==> got == map[])
    }

    ghost function Abs(): Slot
      reads this, Repr
      requires Valid()
    {
      Slot(valid, stale, src, msgId, fragTotal, got, lastTick)
    }

    constructor (maxMsg: nat)
      ensures Valid() && fresh(Repr) && Abs() == EMPTY_SLOT && buf.Length == maxMsg
    {
      var b := new int[maxMsg](_ => 0);
      buf := b;
      bufLen, msgId, fragTotal, fragReceived, fragMask, src := 0, 0, 0, 0, {}, [];
      valid, stale, lastTick, lastFragLen, got := false, false, 0, 0, map[];
      Repr := {this, b};
    }

    /** memset of the slot, and the tick it is left with. */
    method Clear(tick: int)
      requires Valid()
      modifies Repr
      ensures Valid() && Abs() == EMPTY_SLOT.(lastTick := tick)
    {
      forall k | 0 <= k < buf.Length {
        buf[k] := 0;
      }
      bufLen, msgId, fragTotal, fragReceived, fragMask, src := 0, 0, 0, 0, {}, [];
      valid, stale, lastTick, lastFragLen, got := false, false, tick, 0, map[];
    }

    /** The first fragment claims a cleared slot. */
    method Claim(now: int, pkt: Packet)
      requires Valid() && !valid
      modifies this
      ensures Valid() && Abs() == Slot(true, false, pkt.src, pkt.msgId, pkt.total, map[], now)
    {
      valid, stale, msgId, fragTotal, src := true, false, pkt.msgId, pkt.total, pkt.src;
      fragReceived, fragMask, bufLen, lastFragLen, lastTick := 0, {}, 0, 0, now;
    }

    /** memcpy of a payload to its place. */
    method Copy(idx: nat, payload: Bytes)
      requires Valid() && valid && idx < fragTotal && idx !in got
      requires |payload| <= PAYLOAD && idx * PAYLOAD + |payload| <= buf.Length
      modifies buf
      ensures Buffers(got[idx := payload])
    {
      var offset := idx * PAYLOAD;
      for j := 0 to |payload|
        invariant forall k | offset <= k < offset + j :: buf[k] == payload[k - offset]
        invariant forall k | 0 <= k < buf.Length && !(offset <= k < offset + j) :: buf[k] == old(buf[k])
      {
        buf[offset + j] := payload[j];
      }
      forall k: nat | k < buf.Length
        ensures buf[k] == ByteAt(got[idx := payload], k)
      {
        ByteAfter(got, idx, payload, k);
        assert old(buf[k]) == ByteAt(got, k);
      }
    }

    /** Copying a fragment in and counting it. */
    method Accept(now: int, idx: nat, payload: Bytes)
      requires Valid() && valid && idx < fragTotal && idx !in got
      requires |payload| <= PAYLOAD && idx * PAYLOAD + |payload| <= buf.Length
      modifies Repr
      ensures Valid() && Abs() == old(Abs()).(got := old(got)[idx := payload], lastTick := now)
    {
      Copy(idx, payload);
      Count(now, idx, payload);
    }

    method Count(now: int, idx: nat, payload: Bytes)
      requires Tracks(got, fragMask, fragReceived, fragTotal, lastFragLen, buf.Length)
      requires valid && idx < fragTotal && idx !in got
      requires |payload| <= PAYLOAD && idx * PAYLOAD + |payload| <= buf.Length
      modifies this
      ensures Tracks(got, fragMask, fragReceived, fragTotal, lastFragLen, buf.Length)
      ensures got == old(got)[idx := payload] && lastTick == now
      ensures unchanged(`valid) && unchanged(`stale) && unchanged(`src) && unchanged(`msgId) && unchanged(`fragTotal)
    {
      TracksMore(got, fragMask, fragReceived, fragTotal, lastFragLen, buf.Length, idx, payload);
      got := got[idx := payload];
      fragMask, fragReceived, lastTick := fragMask + {idx}, fragReceived + 1, now;
      if idx == fragTotal - 1 {
        lastFragLen := |payload|;
      }
    }

    /** reasm_feed. */
    method Feed(now: int, pkt: Packet) returns (complete: bool)
      requires Valid() && !stale && |pkt.payload| <= PAYLOAD
      modifies Repr
      ensures Valid()
      ensures Fed(Abs(), complete) == Fragments.Feed(old(Abs()), now, pkt, buf.Length)
      ensures complete ==> bufLen == (fragTotal - 1) * PAYLOAD + lastFragLen
    {
      complete := false;
      if !valid {
        if pkt.total == 0 || pkt.total > 32 {
          return;
        }
        Claim(now, pkt);
      }
      if pkt.msgId != msgId || pkt.total != fragTotal {
        return;
      }
      if pkt.idx >= pkt.total || pkt.idx >= 32 {
        return;
      }
      if pkt.idx in fragMask {
        return;
      }
      if pkt.idx * PAYLOAD + |pkt.payload| > buf.Length {
        return;
      }
      Accept(now, pkt.idx, pkt.payload);
      if fragReceived == pkt.total {
        SetLength();
        complete := true;
      }
    }

    method MarkStale()
      requires Valid()
      modifies `stale
      ensures Valid() && Abs() == old(Abs()).(stale := true)
    {
      stale := true;
    }

    method SetLength()
      requires Valid()
      modifies `bufLen
      ensures Valid() && Abs() == old(Abs()) && bufLen == (fragTotal - 1) * PAYLOAD + lastFragLen
    {
      bufLen := (fragTotal - 1) * PAYLOAD + lastFragLen;
    }

    /** A complete slot's buffer holds its message. */
    lemma BufferIsMessage()
      requires Valid() && fragTotal >= 1 && |got| == fragTotal
      ensures fragTotal - 1 in got
      ensures (fragTotal - 1) * PAYLOAD + lastFragLen <= buf.Length
      ensures buf[..(fragTotal - 1) * PAYLOAD + lastFragLen] == Message(Abs())
    {
      SameSize(got.Keys, Upto(fragTotal));
      assert |got| == |got.Keys|;
      assert fragTotal - 1 in got.Keys;
      var n := (fragTotal - 1) * PAYLOAD + lastFragLen;
      forall k | 0 <= k < n
        ensures buf[..n][k] == Message(Abs())[k]
      {
        assert buf[k] == ByteAt(got, k);
      }
    }
  }

  /** The mask, the count and the length of the last fragment agree with what was received. */
  ghost predicate Tracks(got: map<int, Bytes>, mask: set<int>, received: int, total: nat, lastLen: int, maxMsg: int) {
    && mask == got.Keys && received == |got|
    && (forall i | i in got :: 0 <= i < total && |got[i]| <= PAYLOAD && i * PAYLOAD + |got[i]| <= maxMsg)
    && (total - 1 in got ==> lastLen == |got[total - 1]|)
  }

  lemma TracksMore(got: map<int, Bytes>, mask: set<int>, received: int, total: nat, lastLen: int, maxMsg: int,
                   idx: nat, payload: Bytes)
    requires Tracks(got, mask, received, total, lastLen, maxMsg)
    requires idx < total && idx !in got && |payload| <= PAYLOAD && idx * PAYLOAD + |payload| <= maxMsg
    ensures Tracks(got[idx := payload], mask + {idx}, received + 1, total,
                   if idx == total - 1 then |payload| else lastLen, maxMsg)
  {
    assert got[idx := payload].Keys == got.Keys + {idx};
    assert |got[idx := payload]| == |got[idx := payload].Keys| && |got| == |got.Keys|;
  }

  lemma ByteAfter(got: map<int, Bytes>, idx: nat, payload: Bytes, k: nat)
    requires idx !in got && |payload| <= PAYLOAD
    ensures ByteAt(got[idx := payload], k) ==
            if idx * PAYLOAD <= k < idx * PAYLOAD + |payload| then payload[k - idx * PAYLOAD] else ByteAt(got, k)
  {
  }

  method EmptySlots(maxMsg: nat) returns (made: seq<ReassemblySlot>, ghost repr: set<object>)
    ensures |made| == SLOTS && fresh(repr)
    ensures forall i | 0 <= i < |made| ::
              made[i].Repr <= repr && made[i].Valid() && made[i].buf.Length == maxMsg && made[i].Abs() == EMPTY_SLOT
    ensures forall i, j | 0 <= i < j < |made| :: made[i].Repr !! made[j].Repr
  {
    made, repr := [], {};
    while |made| < SLOTS
      invariant |made| <= SLOTS && fresh(repr)
      invariant forall i | 0 <= i < |made| ::
                  made[i].Repr <= repr && made[i].Valid() && made[i].buf.Length == maxMsg && made[i].Abs() == EMPTY_SLOT
      invariant forall i, j | 0 <= i < j < |made| :: made[i].Repr !! made[j].Repr
    {
      var slot := new ReassemblySlot(maxMsg);
      made := made + [slot];
      repr := repr + slot.Repr;
    }
  }

  class Reassembler {
    const maxMsg: nat
    const slots: seq<ReassemblySlot>

    /** The slots as values. */
    ghost var model: seq<Slot>
    ghost const Repr: set<object>

    ghost predicate Built() {
      && |slots| == SLOTS
      && (forall i | 0 <= i < |slots| ::
            slots[i].Repr <= Repr && this !in slots[i].Repr && slots[i].buf.Length == maxMsg)
      && (forall i, j | 0 <= i < j < |slots| :: slots[i].Repr !! slots[j].Repr)
      && this in Repr
    }

    ghost predicate Holds(i: int)
      reads this, Repr
      requires Built() && 0 <= i < |slots| == |model|
    {
      && slots[i] in Repr
      && slots[i].Valid() && slots[i].Abs() == model[i]
      && slots[i].valid == model[i].valid && slots[i].stale == model[i].stale
    }

    ghost predicate Valid()
      reads this, Repr
    {
      Built() && |model| == |slots| && forall i | 0 <= i < |slots| :: Holds(i)
    }

    constructor (maxMsg: nat)
      ensures Valid() && fresh(Repr) && this.maxMsg == maxMsg
      ensures model == seq(SLOTS, _ => EMPTY_SLOT)
    {
      var made;
      ghost var repr;
      made, repr := EmptySlots(maxMsg);
      this.maxMsg, slots, model := maxMsg, made, seq(SLOTS, _ => EMPTY_SLOT);
      Repr := {this} + repr;
    }

    /** A slot none of whose objects changed still represents the same. */
    twostate lemma Untouched(i: int)
      requires Built() && 0 <= i < |slots| && old(slots[i].Valid())
      requires forall o | o in slots[i].Repr :: unchanged(o)
      ensures slots[i].Valid() && slots[i].Abs() == old(slots[i].Abs())
    {
    }

    /** Changing one slot changes the model there and nowhere else. */
    twostate lemma SlotChanged(k: int)
      requires old(Valid()) && 0 <= k < |slots|
      requires slots[k].Valid()
      requires forall o | o in Repr && o != this && o !in slots[k].Repr :: unchanged(o)
      requires model == old(model)[k := slots[k].Abs()]
      ensures Valid()
    {
      forall i | 0 <= i < |slots|
        ensures Holds(i)
      {
        assert old(Holds(i));
        if i != k {
          assert slots[i].Repr !! slots[k].Repr;
          Untouched(i);
        }
      }
    }

    method ClearSlot(k: int, tick: int)
      requires Valid() && 0 <= k < |slots|
      modifies Repr
      ensures Valid() && model == old(model)[k := EMPTY_SLOT.(lastTick := tick)]
    {
      assert Holds(k);
      slots[k].Clear(tick);
      model := model[k := slots[k].Abs()];
      SlotChanged(k);
    }

    /** reasm_clear_stale. */
    method ClearStale()
      requires Valid()
      modifies Repr
      ensures Valid() && model == Fragments.ClearStale(old(model))
    {
      for i := 0 to |slots|
        invariant Valid()
        invariant forall j | 0 <= j < i :: model[j] == if old(model)[j].stale then EMPTY_SLOT else old(model)[j]
        invariant forall j | i <= j < |slots| :: model[j] == old(model)[j]
      {
        assert Holds(i);
        if slots[i].stale {
          ClearSlot(i, 0);
        }
      }
    }

    method FindExisting(src: Bytes, msgId: int) returns (k: nat)
      requires Valid()
      ensures k == Existing(model, src, msgId)
    {
      k := 0;
      while k < |slots|
        invariant 0 <= k <= |slots|
        invariant forall j | 0 <= j < k :: !IsForMessage(model[j], src, msgId)
      {
        assert Holds(k);
        if slots[k].valid && slots[k].msgId == msgId && slots[k].src == src {
          break;
        }
        k := k + 1;
      }
      ExistingIs(model, src, msgId, k);
    }

    method FindAvailable(now: int) returns (k: nat)
      requires Valid()
      ensures k == Available(model, now)
    {
      k := 0;
      while k < |slots|
        invariant 0 <= k <= |slots|
        invariant forall j | 0 <= j < k :: model[j].valid && !TimedOut(model[j], now)
      {
        assert Holds(k);
        if !slots[k].valid || now - slots[k].lastTick > TIMEOUT {
          break;
        }
        k := k + 1;
      }
      AvailableIs(model, now, k);
    }

    method FindOldest() returns (oldest: nat)
      requires Valid()
      ensures oldest == Oldest(model, |model|)
    {
      oldest := 0;
      assert Holds(0);
      var oldestTick := slots[0].lastTick;
      for i := 1 to |slots|
        invariant oldest == Oldest(model, i) && oldestTick == model[oldest].lastTick
      {
        assert Holds(i);
        if slots[i].lastTick < oldestTick {
          oldest, oldestTick := i, slots[i].lastTick;
        }
      }
    }

    /** reasm_find_or_alloc. */
    method FindOrAlloc(now: int, src: Bytes, msgId: int) returns (k: nat)
      requires Valid()
      modifies Repr
      ensures Valid() && k < |slots|
      ensures Found(model, k) == Fragments.FindOrAlloc(old(model), now, src, msgId)
    {
      k := FindExisting(src, msgId);
      if k < |slots| {
        return;
      }
      k := FindAvailable(now);
      if k < |slots| {
        assert Holds(k);
        if slots[k].valid {
          ClearSlot(k, now);
        }
        return;
      }
      k := FindOldest();
      ClearSlot(k, now);
    }

    method FeedSlot(k: nat, now: int, pkt: Packet) returns (complete: bool)
      requires Valid() && k < |slots| && !model[k].stale && |pkt.payload| <= PAYLOAD
      modifies Repr
      ensures Valid()
      ensures var fed := Feed(old(model)[k], now, pkt, maxMsg);
              model == old(model)[k := fed.slot] && complete == fed.complete
      ensures complete ==> slots[k].bufLen == (slots[k].fragTotal - 1) * PAYLOAD + slots[k].lastFragLen
    {
      assert Holds(k);
      complete := slots[k].Feed(now, pkt);
      model := model[k := slots[k].Abs()];
      SlotChanged(k);
    }

    /** Taking the finished message out and marking the slot as stale. */
    method TakeMessage(k: nat) returns (m: Bytes)
      requires Valid() && k < |slots| && model[k].total >= 1 && |model[k].got| == model[k].total
      requires slots[k].bufLen == (slots[k].fragTotal - 1) * PAYLOAD + slots[k].lastFragLen
      modifies Repr
      ensures Valid() && model == old(model)[k := old(model)[k].(stale := true)]
      ensures old(model)[k].total - 1 in old(model)[k].got && m == Message(old(model)[k])
    {
      assert Holds(k);
      slots[k].BufferIsMessage();
      m := slots[k].buf[..slots[k].bufLen];
      slots[k].MarkStale();
      model := model[k := slots[k].Abs()];
      SlotChanged(k);
    }

    /** The receive callback. */
    method Receive(now: int, pkt: Packet) returns (message: Option<Bytes>)
      requires Valid() && |pkt.payload| <= PAYLOAD
      modifies Repr
      ensures Valid()
      ensures Received(model, message) == Fragments.Receive(old(model), now, pkt, maxMsg)
    {
      message := None;
      ClearStale();
      ghost var clear := model;
      var k := FindOrAlloc(now, pkt.src, pkt.msgId);
      FoundIsNotStale(clear, now, pkt.src, pkt.msgId);
      var complete := FeedSlot(k, now, pkt);
      if complete {
        var m := TakeMessage(k);
        message := Some(m);
      }
    }
  }

  lemma ExistingIs(slots: seq<Slot>, src: Bytes, msgId: int, k: nat)
    requires k <= |slots| && forall j | 0 <= j < k :: !IsForMessage(slots[j], src, msgId)
    requires k < |slots| ==> IsForMessage(slots[k], src, msgId)
    ensures Existing(slots, src, msgId) == k
  {
    var e := Existing(slots, src, msgId);
    assert e < |slots| ==> IsForMessage(slots[e], src, msgId);
  }

  lemma AvailableIs(slots: seq<Slot>, now: int, k: nat)
    requires k <= |slots| && forall j | 0 <= j < k :: slots[j].valid && !TimedOut(slots[j], now)
    requires k < |slots| ==> !slots[k].valid || TimedOut(slots[k], now)
    ensures Available(slots, now) == k
  {
    var e := Available(slots, now);
    assert e < |slots| ==> !slots[e].valid || TimedOut(slots[e], now);
  }

  lemma FoundIsNotStale(slots: seq<Slot>, now: int, src: Bytes, msgId: int)
    requires |slots| >= 1 && forall k | 0 <= k < |slots| :: !slots[k].stale
    ensures var found := FindOrAlloc(slots, now, src, msgId); !found.slots[found.index].stale
  {
  }
}
