/** Splitting messages into radio packets and putting them together again. */
module Fragments {
  import opened Types
  import opened Quorums

  /** ESPNOW_MAX_DATA_LEN less the fragment header. */
  const PAYLOAD := 1466
  const MAX_PARTS := 32
  const SLOTS := 8
  const TIMEOUT := 5000

  /** The largest message; TBFT_MAX_MESSAGE_SIZE is asserted to need at most 32 parts. */
  predicate IsMaxSize(maxMsg: int) {
    1 <= maxMsg <= MAX_PARTS * PAYLOAD
  }

  datatype Packet = Packet(src: Bytes, msgId: int, total: nat, idx: nat, payload: Bytes)

  // ------------------------------------------------------------------ splitting

  function Parts(len: nat): nat { (len + PAYLOAD - 1) / PAYLOAD }

  function Fragment(m: Bytes, i: nat): (part: Bytes)
    requires i < Parts(|m|)
  {
    if (i + 1) * PAYLOAD <= |m| then m[i * PAYLOAD..(i + 1) * PAYLOAD] else m[i * PAYLOAD..]
  }

  function PacketOf(src: Bytes, msgId: int, m: Bytes, i: nat): Packet
    requires i < Parts(|m|)
  {
    Packet(src, msgId, Parts(|m|), i, Fragment(m, i))
  }

  function PacketsOf(src: Bytes, msgId: int, m: Bytes): (packets: seq<Packet>)
    ensures |packets| == Parts(|m|)
  {
    seq(Parts(|m|), i requires 0 <= i < Parts(|m|) => PacketOf(src, msgId, m, i))
  }

  lemma OneMorePacket(src: Bytes, msgId: int, m: Bytes, i: nat)
    requires i < Parts(|m|)
    ensures PacketsOf(src, msgId, m)[..i + 1] == PacketsOf(src, msgId, m)[..i] + [PacketOf(src, msgId, m, i)]
  {
  }

  lemma ChunkIsFragment(m: Bytes, i: nat, chunk: nat)
    requires i * PAYLOAD < |m|
    requires chunk == if |m| - i * PAYLOAD > PAYLOAD then PAYLOAD else |m| - i * PAYLOAD
    ensures i < Parts(|m|) && m[i * PAYLOAD..i * PAYLOAD + chunk] == Fragment(m, i)
    ensures i * PAYLOAD + chunk < |m| <==> i + 1 < Parts(|m|)
  {
  }

  /** The splitting in espnow_do_send: one packet if the message fits, otherwise a cursor
      moving over the message; the number of parts is stored in a byte. */
  method Split(src: Bytes, msgId: int, buf: Bytes, maxMsg: int) returns (packets: seq<Packet>)
    requires IsMaxSize(maxMsg) && 1 <= |buf| <= maxMsg
    ensures packets == PacketsOf(src, msgId, buf)
  {
    if |buf| <= PAYLOAD {
      packets := [Packet(src, msgId, 1, 0, buf)];
      assert Fragment(buf, 0) == buf;
      return;
    }
    var remaining := |buf|;
    var total := ((remaining + PAYLOAD - 1) / PAYLOAD) % 256;
    assert total == Parts(|buf|);
    var idx, cursor := 0, 0;
    packets := [];
    while remaining > 0
      invariant 0 <= idx <= total && 0 <= cursor <= |buf| && remaining == |buf| - cursor
      invariant if remaining > 0 then idx < total && cursor == idx * PAYLOAD else idx == total
      invariant packets == PacketsOf(src, msgId, buf)[..idx]
    {
      var chunk := if remaining > PAYLOAD then PAYLOAD else remaining;
      ChunkIsFragment(buf, idx, chunk);
      OneMorePacket(src, msgId, buf, idx);
      packets := packets + [Packet(src, msgId, total, idx, buf[cursor..cursor + chunk])];
      cursor := cursor + chunk;
      remaining := remaining - chunk;
      idx := idx + 1;
    }
  }

  // ---------------------------------------------------------------- reassembling

  /** A reassembly slot; `got` holds the payloads received so far, by index. */
  datatype Slot = Slot(valid: bool, stale: bool, src: Bytes, msgId: int, total: nat,
                       got: map<int, Bytes>, lastTick: int)

  const EMPTY_SLOT := Slot(false, false, [], 0, 0, map[], 0)

  /** The byte at position `k` of the buffer of a slot. */
  function ByteAt(got: map<int, Bytes>, k: nat): int {
    if k / PAYLOAD in got && k % PAYLOAD < |got[k / PAYLOAD]| then got[k / PAYLOAD][k % PAYLOAD] else 0
  }

  /** The message of a complete slot. */
  function Message(slot: Slot): Bytes
    requires slot.total >= 1 && slot.total - 1 in slot.got
  {
    seq((slot.total - 1) * PAYLOAD + |slot.got[slot.total - 1]|, k requires 0 <= k => ByteAt(slot.got, k))
  }

  predicate IsForMessage(slot: Slot, src: Bytes, msgId: int) {
    slot.valid && slot.msgId == msgId && slot.src == src
  }

  predicate TimedOut(slot: Slot, now: int) { now - slot.lastTick > TIMEOUT }

  /** reasm_clear_stale. */
  function ClearStale(slots: seq<Slot>): (r: seq<Slot>)
    ensures |r| == |slots|
  {
    seq(|slots|, k requires 0 <= k < |slots| => if slots[k].stale then EMPTY_SLOT else slots[k])
  }

  /** The first slot that is already used for the message. */
  function Existing(slots: seq<Slot>, src: Bytes, msgId: int): (k: nat)
    ensures k <= |slots|
    ensures k < |slots| ==> IsForMessage(slots[k], src, msgId)
    ensures forall j | 0 <= j < k :: !IsForMessage(slots[j], src, msgId)
  {
    if slots == [] || IsForMessage(slots[0], src, msgId) then 0 else 1 + Existing(slots[1..], src, msgId)
  }

  /** The first slot that is free or timed out. */
  function Available(slots: seq<Slot>, now: int): (k: nat)
    ensures k <= |slots|
    ensures k < |slots| ==> !slots[k].valid || TimedOut(slots[k], now)
    ensures forall j | 0 <= j < k :: slots[j].valid && !TimedOut(slots[j], now)
  {
    if slots == [] || !slots[0].valid || TimedOut(slots[0], now) then 0 else 1 + Available(slots[1..], now)
  }

  /** The first slot with the least tick among the first `n`. */
  function Oldest(slots: seq<Slot>, n: nat): (k: nat)
    requires 1 <= n <= |slots|
    ensures k < n
    ensures forall j | 0 <= j < n :: slots[k].lastTick <= slots[j].lastTick
  {
    if n == 1 then 0
    else
      var k := Oldest(slots, n - 1);
      if slots[n - 1].lastTick < slots[k].lastTick then n - 1 else k
  }

  datatype Found = Found(slots: seq<Slot>, index: nat)

  /** reasm_find_or_alloc. */
  function FindOrAlloc(slots: seq<Slot>, now: int, src: Bytes, msgId: int): (f: Found)
    requires |slots| >= 1
    ensures |f.slots| == |slots| && f.index < |slots|
  {
    var k := Existing(slots, src, msgId);
    if k < |slots| then Found(slots, k)
    else
      var free := Available(slots, now);
      if free < |slots| then
        Found(if slots[free].valid then slots[free := EMPTY_SLOT.(lastTick := now)] else slots, free)
      else
        var oldest := Oldest(slots, |slots|);
        Found(slots[oldest := EMPTY_SLOT.(lastTick := now)], oldest)
  }

  datatype Fed = Fed(slot: Slot, complete: bool)

  /** reasm_feed. */
  function Feed(slot: Slot, now: int, pkt: Packet, maxMsg: int): Fed {
    if (!slot.valid || slot.stale) && (pkt.total == 0 || pkt.total > 32) then Fed(slot, false)
    else
      var s := if !slot.valid || slot.stale then Slot(true, false, pkt.src, pkt.msgId, pkt.total, map[], now) else slot;
      if pkt.msgId != s.msgId || pkt.total != s.total then Fed(s, false)
      else if pkt.idx >= pkt.total || pkt.idx >= 32 then Fed(s, false)
      else if pkt.idx in s.got then Fed(s, false)
      else if pkt.idx * PAYLOAD + |pkt.payload| > maxMsg then Fed(s, false)
      else
        var s' := s.(got := s.got[pkt.idx := pkt.payload], lastTick := now);
        Fed(s', |s'.got| == pkt.total)
  }

  datatype Received = Received(slots: seq<Slot>, message: Option<Bytes>)

  /** The receive callback: clear, find, feed, and hand the message on when it is complete. */
  function Receive(slots: seq<Slot>, now: int, pkt: Packet, maxMsg: int): (r: Received)
    requires |slots| >= 1
    ensures |r.slots| == |slots|
  {
    var found := FindOrAlloc(ClearStale(slots), now, pkt.src, pkt.msgId);
    var fed := Feed(found.slots[found.index], now, pkt, maxMsg);
    if fed.complete && fed.slot.total >= 1 && fed.slot.total - 1 in fed.slot.got
    then Received(found.slots[found.index := fed.slot.(stale := true)], Some(Message(fed.slot)))
    else Received(found.slots[found.index := fed.slot], None)
  }
}

/** Fragmentation round trip, and that messages never mix. */
module FragmentProofs {
  import opened Types
  import opened Quorums
  import opened Fragments

  /** The slot holds fragments of `m` only. */
  ghost predicate PartOf(slot: Slot, src: Bytes, msgId: int, m: Bytes) {
    && slot.valid && !slot.stale && slot.src == src && slot.msgId == msgId && slot.total == Parts(|m|)
    && forall i | i in slot.got :: 0 <= i < Parts(|m|) && slot.got[i] == Fragment(m, i)
  }

  /** All fragments together are the message. */
  lemma AllParts(slot: Slot, src: Bytes, msgId: int, m: Bytes)
    requires |m| >= 1 && PartOf(slot, src, msgId, m)
    requires forall i: nat | i < Parts(|m|) :: i in slot.got
    ensures slot.total >= 1 && slot.total - 1 in slot.got && Message(slot) == m
  {
    var last := Parts(|m|) - 1;
    assert last in slot.got && slot.got[last] == Fragment(m, last);
    forall k: nat | k < |m|
      ensures ByteAt(slot.got, k) == m[k]
    {
      var i := k / PAYLOAD;
      assert i in slot.got && slot.got[i] == Fragment(m, i);
    }
  }

  /** The fragments of `m` with the given indices, fed one after the other to a fresh slot. */
  function FedWith(src: Bytes, msgId: int, m: Bytes, idxs: seq<nat>, times: seq<int>, maxMsg: int): Slot
    requires |idxs| == |times| && forall j | 0 <= j < |idxs| :: idxs[j] < Parts(|m|)
  {
    if idxs == [] then EMPTY_SLOT
    else
      var n := |idxs| - 1;
      Feed(FedWith(src, msgId, m, idxs[..n], times[..n], maxMsg), times[n], PacketOf(src, msgId, m, idxs[n]), maxMsg).slot
  }

  ghost predicate Feeding(m: Bytes, idxs: seq<nat>, times: seq<int>, maxMsg: int) {
    && IsMaxSize(maxMsg) && 1 <= |m| <= maxMsg
    && |idxs| == |times| && forall j | 0 <= j < |idxs| :: idxs[j] < Parts(|m|)
  }

  /** The outcome of feeding the last of the given fragments. */
  function LastFed(src: Bytes, msgId: int, m: Bytes, idxs: seq<nat>, times: seq<int>, maxMsg: int): Fed
    requires |idxs| == |times| >= 1 && forall j | 0 <= j < |idxs| :: idxs[j] < Parts(|m|)
  {
    var n := |idxs| - 1;
    Feed(FedWith(src, msgId, m, idxs[..n], times[..n], maxMsg), times[n], PacketOf(src, msgId, m, idxs[n]), maxMsg)
  }

  /** The indices fed. */
  function Seen(idxs: seq<nat>): set<int> {
    if idxs == [] then {} else Seen(idxs[..|idxs| - 1]) + {idxs[|idxs| - 1]}
  }

  lemma {:induction false} SeenAre(idxs: seq<nat>, i: nat)
    ensures i in Seen(idxs) <==> i in idxs
  {
    if idxs != [] {
      SeenAre(idxs[..|idxs| - 1], i);
      assert idxs == idxs[..|idxs| - 1] + [idxs[|idxs| - 1]];
    }
  }

  lemma SizeFits(m: Bytes, i: nat, maxMsg: int)
    requires IsMaxSize(maxMsg) && 1 <= |m| <= maxMsg && i < Parts(|m|)
    ensures i < 32 && 1 <= Parts(|m|) <= 32 && i * PAYLOAD + |Fragment(m, i)| <= maxMsg
  {
  }

  /** Feeding one fragment of `m` to a slot that holds others, or to a fresh one. */
  lemma FeedOne(slot: Slot, now: int, src: Bytes, msgId: int, m: Bytes, i: nat, maxMsg: int)
    requires IsMaxSize(maxMsg) && 1 <= |m| <= maxMsg && i < Parts(|m|)
    requires slot == EMPTY_SLOT || PartOf(slot, src, msgId, m)
    ensures var fed := Feed(slot, now, PacketOf(src, msgId, m, i), maxMsg);
            && PartOf(fed.slot, src, msgId, m)
            && fed.slot.got.Keys == slot.got.Keys + {i}
            && (fed.complete <==> i !in slot.got && |fed.slot.got| == Parts(|m|))
  {
    SizeFits(m, i, maxMsg);
  }

  /** A slot not in use is claimed by a packet with 1 to 32 parts, for its message. */
  function Claimed(slot: Slot, now: int, pkt: Packet): Slot {
    if slot.valid && !slot.stale then slot else Slot(true, false, pkt.src, pkt.msgId, pkt.total, map[], now)
  }

  /** A fragment is taken when it is one of the slot's message, with as many parts, not received
      yet, and fits the buffer. */
  predicate TakesFragment(slot: Slot, pkt: Packet, maxMsg: int) {
    && pkt.msgId == slot.msgId && pkt.total == slot.total
    && pkt.idx < pkt.total && pkt.idx < 32 && pkt.idx !in slot.got
    && pkt.idx * PAYLOAD + |pkt.payload| <= maxMsg
  }

  /** Whatever packet a slot is fed: it is refused, or claims the slot and is not taken, or is
      taken, and completes the message exactly when it is the last part missing. */
  lemma FeedsExactly(slot: Slot, now: int, pkt: Packet, maxMsg: int)
    ensures var fed, s := Feed(slot, now, pkt, maxMsg), Claimed(slot, now, pkt);
            if !(slot.valid && !slot.stale) && !(1 <= pkt.total <= 32) then fed == Fed(slot, false)
            else if TakesFragment(s, pkt, maxMsg) then
              && fed.slot == s.(got := s.got[pkt.idx := pkt.payload], lastTick := now)
              && (fed.complete <==> |s.got| + 1 == s.total)
            else fed == Fed(s, false)
  {
  }

  /** What has been fed so far is what the slot holds. */
  lemma {:induction false} HoldsWhatWasFed(src: Bytes, msgId: int, m: Bytes, idxs: seq<nat>, times: seq<int>, maxMsg: int)
    requires Feeding(m, idxs, times, maxMsg)
    ensures var slot := FedWith(src, msgId, m, idxs, times, maxMsg);
            && (idxs == [] ==> slot == EMPTY_SLOT)
            && (idxs != [] ==> PartOf(slot, src, msgId, m))
            && slot.got.Keys == Seen(idxs)
  {
    if idxs != [] {
      var n := |idxs| - 1;
      HoldsWhatWasFed(src, msgId, m, idxs[..n], times[..n], maxMsg);
      FeedOne(FedWith(src, msgId, m, idxs[..n], times[..n], maxMsg), times[n], src, msgId, m, idxs[n], maxMsg);
    }
  }

  /** A slot has as many fragments as there are exactly when every one is there. */
  lemma FullWhenAllThere(slot: Slot, src: Bytes, msgId: int, m: Bytes)
    requires PartOf(slot, src, msgId, m)
    ensures |slot.got| == Parts(|m|) <==> forall i: nat | i < Parts(|m|) :: i in slot.got
  {
    SameSize(slot.got.Keys, Upto(Parts(|m|)));
    assert |slot.got| == |slot.got.Keys|;
    if forall i: nat | i < Parts(|m|) :: i in slot.got {
      assert Upto(Parts(|m|)) <= slot.got.Keys;
    }
  }

  /** A fragment completes the message exactly when it is the last one missing. */
  lemma FeedCompletes(slot: Slot, now: int, src: Bytes, msgId: int, m: Bytes, i: nat, maxMsg: int)
    requires IsMaxSize(maxMsg) && 1 <= |m| <= maxMsg && i < Parts(|m|)
    requires slot == EMPTY_SLOT || PartOf(slot, src, msgId, m)
    ensures var fed := Feed(slot, now, PacketOf(src, msgId, m, i), maxMsg);
            && (fed.complete <==> i !in slot.got && forall j: nat | j < Parts(|m|) :: j == i || j in slot.got)
            && (fed.complete ==> fed.slot.total >= 1 && fed.slot.total - 1 in fed.slot.got && Message(fed.slot) == m)
  {
    var fed := Feed(slot, now, PacketOf(src, msgId, m, i), maxMsg);
    FeedOne(slot, now, src, msgId, m, i, maxMsg);
    FullWhenAllThere(fed.slot, src, msgId, m);
    assert forall j: nat | j < Parts(|m|) :: j in fed.slot.got <==> j == i || j in slot.got;
    if fed.complete {
      AllParts(fed.slot, src, msgId, m);
    }
  }

  /** The round trip: whatever the order and however many duplicates, feeding a fragment
      completes the message exactly when it is the last one missing, and then yields the
      original bytes and length. */
  lemma RoundTrip(src: Bytes, msgId: int, m: Bytes, idxs: seq<nat>, times: seq<int>, maxMsg: int)
    requires Feeding(m, idxs, times, maxMsg) && idxs != []
    ensures var fed := LastFed(src, msgId, m, idxs, times, maxMsg);
            && (fed.complete <==>
                idxs[|idxs| - 1] !in idxs[..|idxs| - 1] && forall i: nat | i < Parts(|m|) :: i in idxs)
            && (fed.complete ==> fed.slot.total >= 1 && fed.slot.total - 1 in fed.slot.got && Message(fed.slot) == m)
  {
    var n := |idxs| - 1;
    var rest, last := idxs[..n], idxs[n];
    HoldsWhatWasFed(src, msgId, m, rest, times[..n], maxMsg);
    var slot := FedWith(src, msgId, m, rest, times[..n], maxMsg);
    FeedCompletes(slot, times[n], src, msgId, m, last, maxMsg);
    WhatIsFed(idxs, slot.got.Keys);
  }

  lemma WhatIsFed(idxs: seq<nat>, got: set<int>)
    requires idxs != [] && got == Seen(idxs[..|idxs| - 1])
    ensures idxs[|idxs| - 1] in got <==> idxs[|idxs| - 1] in idxs[..|idxs| - 1]
    ensures forall i: nat :: i == idxs[|idxs| - 1] || i in got <==> i in idxs
  {
    var rest, last := idxs[..|idxs| - 1], idxs[|idxs| - 1];
    assert idxs == rest + [last];
    SeenAre(rest, last);
    forall i: nat
      ensures i == last || i in got <==> i in idxs
    {
      SeenAre(rest, i);
    }
  }

  // ---------------------------------------------------------------- no mixing

  /** Every fragment in a slot was received, under the slot's sender, message id and part
      count, and fits the buffer. */
  ghost predicate FromPackets(slot: Slot, packets: seq<Packet>, maxMsg: int) {
    && (if slot.valid then slot.total <= 32 else slot.got == map[])
    && forall i | i in slot.got ::
         && 0 <= i < slot.total
         && i * PAYLOAD + |slot.got[i]| <= maxMsg
         && Packet(slot.src, slot.msgId, slot.total, i, slot.got[i]) in packets
  }

  /** The slots before and after every packet. */
  ghost predicate IsReceiving(packets: seq<Packet>, times: seq<int>, maxMsg: int, run: seq<seq<Slot>>) {
    && |run| == |packets| + 1 == |times| + 1
    && run[0] == seq(SLOTS, _ => EMPTY_SLOT)
    && forall k {:trigger times[k]} | 0 <= k < |packets| :: Receives(run[k], times[k], packets[k], maxMsg, run[k + 1])
  }

  ghost predicate Receives(slots: seq<Slot>, now: int, pkt: Packet, maxMsg: int, slots': seq<Slot>) {
    |slots| == SLOTS && slots' == Receive(slots, now, pkt, maxMsg).slots
  }

  lemma FeedFrom(slot: Slot, now: int, pkt: Packet, packets: seq<Packet>, maxMsg: int)
    requires FromPackets(slot, packets, maxMsg) && !slot.stale && pkt in packets
    requires slot.valid ==> IsForMessage(slot, pkt.src, pkt.msgId)
    ensures FromPackets(Feed(slot, now, pkt, maxMsg).slot, packets, maxMsg)
    ensures Feed(slot, now, pkt, maxMsg).slot.valid ==> IsForMessage(Feed(slot, now, pkt, maxMsg).slot, pkt.src, pkt.msgId)
  {
    var fed := Feed(slot, now, pkt, maxMsg);
    assert pkt == Packet(pkt.src, pkt.msgId, pkt.total, pkt.idx, pkt.payload);
  }

  ghost predicate AllFrom(slots: seq<Slot>, packets: seq<Packet>, maxMsg: int) {
    forall k | 0 <= k < |slots| :: FromPackets(slots[k], packets, maxMsg)
  }

  ghost predicate NoneStale(slots: seq<Slot>) {
    forall k | 0 <= k < |slots| :: !slots[k].stale
  }

  lemma FindKeeps(slots: seq<Slot>, now: int, src: Bytes, msgId: int, packets: seq<Packet>, maxMsg: int)
    requires |slots| >= 1 && AllFrom(slots, packets, maxMsg) && NoneStale(slots)
    ensures var found := FindOrAlloc(slots, now, src, msgId);
            && AllFrom(found.slots, packets, maxMsg) && NoneStale(found.slots)
            && (found.slots[found.index].valid ==> IsForMessage(found.slots[found.index], src, msgId))
  {
  }

  lemma ReceiveKeeps(slots: seq<Slot>, now: int, pkt: Packet, packets: seq<Packet>, maxMsg: int)
    requires |slots| >= 1 && AllFrom(slots, packets, maxMsg) && pkt in packets
    ensures AllFrom(Receive(slots, now, pkt, maxMsg).slots, packets, maxMsg)
  {
    var clear := ClearStale(slots);
    assert AllFrom(clear, packets, maxMsg) && NoneStale(clear);
    FindKeeps(clear, now, pkt.src, pkt.msgId, packets, maxMsg);
    var found := FindOrAlloc(clear, now, pkt.src, pkt.msgId);
    FeedFrom(found.slots[found.index], now, pkt, packets, maxMsg);
  }

  lemma {:induction false} SlotsAreFromPackets(packets: seq<Packet>, times: seq<int>, maxMsg: int, run: seq<seq<Slot>>, k: nat)
    requires IsReceiving(packets, times, maxMsg, run) && k <= |packets|
    ensures AllFrom(run[k], packets, maxMsg)
  {
    if k > 0 {
      SlotsAreFromPackets(packets, times, maxMsg, run, k - 1);
      assert Receives(run[k - 1], times[k - 1], packets[k - 1], maxMsg, run[k]);
      ReceiveKeeps(run[k - 1], times[k - 1], packets[k - 1], packets, maxMsg);
    }
  }

  /** Messages never mix: whatever else arrives from whomever, and whatever is evicted or
      times out, a message that is handed on is the one its sender split under its id. */
  lemma MessagesNeverMix(packets: seq<Packet>, times: seq<int>, maxMsg: int, run: seq<seq<Slot>>, k: nat, m: Bytes)
    requires IsReceiving(packets, times, maxMsg, run) && k < |packets| && |m| >= 1
    requires forall p | p in packets && p.src == packets[k].src && p.msgId == packets[k].msgId ::
               p in PacketsOf(p.src, p.msgId, m)
    ensures |run[k]| == SLOTS
    ensures var r := Receive(run[k], times[k], packets[k], maxMsg).message;
            r.Some? ==> r.value == m
  {
    assert Receives(run[k], times[k], packets[k], maxMsg, run[k + 1]);
    var pkt, slots := packets[k], ClearStale(run[k]);
    SlotsAreFromPackets(packets, times, maxMsg, run, k);
    assert AllFrom(slots, packets, maxMsg) && NoneStale(slots);
    FindKeeps(slots, times[k], pkt.src, pkt.msgId, packets, maxMsg);
    var found := FindOrAlloc(slots, times[k], pkt.src, pkt.msgId);
    var slot := found.slots[found.index];
    FeedFrom(slot, times[k], pkt, packets, maxMsg);
    var fed := Feed(slot, times[k], pkt, maxMsg);
    if fed.complete {
      forall i | i in fed.slot.got
        ensures 0 <= i < Parts(|m|) && fed.slot.got[i] == Fragment(m, i) && fed.slot.total == Parts(|m|)
      {
        var p := Packet(fed.slot.src, fed.slot.msgId, fed.slot.total, i, fed.slot.got[i]);
        assert p in PacketsOf(p.src, p.msgId, m);
      }
      assert pkt.idx in fed.slot.got;
      FullWhenAllThere(fed.slot, pkt.src, pkt.msgId, m);
      AllParts(fed.slot, pkt.src, pkt.msgId, m);
    }
  }

  predicate CanBeTaken(slot: Slot, now: int) {
    !slot.valid || now - slot.lastTick > 5000
  }

  /** Which slot a packet gets: that of its message, else the first that is free or timed out,
      else one of the oldest; all others stay, and one taken over is cleared. */
  lemma FindsExactly(slots: seq<Slot>, now: int, src: Bytes, msgId: int)
    requires |slots| >= 1
    ensures var f, k := FindOrAlloc(slots, now, src, msgId), FindOrAlloc(slots, now, src, msgId).index;
            && f.slots[..k] == slots[..k] && f.slots[k + 1..] == slots[k + 1..]
            && (if IsForMessage(slots[k], src, msgId) then
                  f.slots[k] == slots[k] && forall j | 0 <= j < k :: !IsForMessage(slots[j], src, msgId)
                else
                  && (forall j | 0 <= j < |slots| :: !IsForMessage(slots[j], src, msgId))
                  && !f.slots[k].valid && (slots[k].valid ==> f.slots[k] == EMPTY_SLOT.(lastTick := now))
                  && (if CanBeTaken(slots[k], now) then forall j | 0 <= j < k :: !CanBeTaken(slots[j], now)
                      else forall j | 0 <= j < |slots| ::
                             !CanBeTaken(slots[j], now) && slots[k].lastTick <= slots[j].lastTick))
  {
  }

  /** A packet of another message changes a slot in use only by evicting it: because it has
      timed out, or because all slots are in use, none has timed out and it is the oldest. */
  lemma OthersLeaveASlotAlone(slots: seq<Slot>, now: int, pkt: Packet, maxMsg: int, k: nat)
    requires k < |slots| && slots[k].valid && !slots[k].stale && !IsForMessage(slots[k], pkt.src, pkt.msgId)
    ensures var after := Receive(slots, now, pkt, maxMsg).slots[k];
            after != slots[k] ==>
              || now - slots[k].lastTick > 5000
              || forall j | 0 <= j < |slots| ::
                   && slots[j].valid && !slots[j].stale && now - slots[j].lastTick <= 5000
                   && slots[k].lastTick <= slots[j].lastTick
  {
    var clear := ClearStale(slots);
    var e, free := Existing(clear, pkt.src, pkt.msgId), Available(clear, now);
    if e == |clear| && free == |clear| {
      forall j | 0 <= j < |slots|
        ensures slots[j].valid && !slots[j].stale && !TimedOut(slots[j], now)
        ensures clear[j] == slots[j]
      {
        assert clear[j].valid && !TimedOut(clear[j], now);
      }
    }
  }
}
