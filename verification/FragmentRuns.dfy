/** The round trip through the receive callback: among all other traffic, a message whose
    slot is spared is handed on with its last missing fragment, and not before. */
module FragmentRuns {
  import opened Types
  import opened Quorums
  import opened Fragments
  import opened FragmentProofs

  // --------------------------------------------------------------- statements

  predicate IsOf(pkt: Packet, src: Bytes, msgId: int) { pkt.src == src && pkt.msgId == msgId }

  /** The fragments of the message among the packets from `a` to before `t`. */
  function Got(packets: seq<Packet>, src: Bytes, msgId: int, a: nat, t: nat): set<int>
    requires a <= t <= |packets|
  {
    set s | a <= s < t && IsOf(packets[s], src, msgId) :: packets[s].idx
  }

  predicate AllThere(m: Bytes, got: set<int>) {
    forall i: nat | i < Parts(|m|) :: i in got
  }

  /** What the slots hold of the message: these fragments in one slot, or nothing anywhere. */
  ghost predicate Awaits(slots: seq<Slot>, src: Bytes, msgId: int, m: Bytes, got: set<int>) {
    if got == {} then forall j | 0 <= j < |slots| :: NotFor(slots[j], src, msgId)
    else exists k :: AwaitsIn(slots, src, msgId, m, got, k)
  }

  ghost predicate AwaitsIn(slots: seq<Slot>, src: Bytes, msgId: int, m: Bytes, got: set<int>, k: int) {
    && 0 <= k < |slots|
    && PartOf(slots[k], src, msgId, m) && slots[k].got.Keys == got
    && forall j | 0 <= j < |slots| && j != k :: NotFor(slots[j], src, msgId)
  }

  /** The slot is stale, or not in use for the message. */
  predicate NotFor(slot: Slot, src: Bytes, msgId: int) {
    slot.stale || !IsForMessage(slot, src, msgId)
  }

  /** The slot would be given up before one that was last fed at `tick`: it is not in use, has
      timed out, or was fed earlier. */
  predicate GoesBefore(slot: Slot, now: int, tick: int) {
    !slot.valid || slot.stale || TimedOut(slot, now) || slot.lastTick < tick
  }

  /** A packet of another message spares the slot of this one: its own message has a slot, or
      the slot of this one has not timed out and is not the oldest with all slots in use. */
  predicate Spares(slots: seq<Slot>, now: int, pkt: Packet, src: Bytes, msgId: int) {
    || (exists j :: 0 <= j < |slots| && !NotFor(slots[j], pkt.src, pkt.msgId))
    || (forall k | 0 <= k < |slots| && !NotFor(slots[k], src, msgId) ::
          && !TimedOut(slots[k], now)
          && exists j :: 0 <= j < |slots| && GoesBefore(slots[j], now, slots[k].lastTick))
  }

  // --------------------------------------------------------------- one packet

  /** Feeding the chosen slot, fresh or holding other fragments of the message. */
  lemma FeedChosen(slot: Slot, now: int, src: Bytes, msgId: int, m: Bytes, i: nat, got: set<int>, maxMsg: int)
    requires IsMaxSize(maxMsg) && 1 <= |m| <= maxMsg && i < Parts(|m|) && !slot.stale
    requires if slot.valid then PartOf(slot, src, msgId, m) && slot.got.Keys == got else got == {}
    ensures var fed := Feed(slot, now, PacketOf(src, msgId, m, i), maxMsg);
            && PartOf(fed.slot, src, msgId, m) && fed.slot.got.Keys == got + {i}
            && (fed.complete <==> i !in got && AllThere(m, got + {i}))
            && (fed.complete ==> fed.slot.total >= 1 && fed.slot.total - 1 in fed.slot.got && Message(fed.slot) == m)
  {
    var fed := Feed(slot, now, PacketOf(src, msgId, m, i), maxMsg);
    SizeFits(m, i, maxMsg);
    assert PartOf(fed.slot, src, msgId, m) && fed.slot.got.Keys == got + {i};
    FullWhenAllThere(fed.slot, src, msgId, m);
    if fed.complete {
      AllParts(fed.slot, src, msgId, m);
    }
  }

  /** Where a packet of the message goes. */
  lemma FindsItsSlot(slots: seq<Slot>, now: int, src: Bytes, msgId: int, m: Bytes, got: set<int>)
    requires |slots| >= 1 && NoneStale(slots) && Awaits(slots, src, msgId, m, got)
    ensures var found := FindOrAlloc(slots, now, src, msgId);
            var slot := found.slots[found.index];
            && !slot.stale
            && (if slot.valid then PartOf(slot, src, msgId, m) && slot.got.Keys == got else got == {})
            && forall j | 0 <= j < |slots| && j != found.index :: NotFor(found.slots[j], src, msgId)
  {
    var e := Existing(slots, src, msgId);
    if got != {} {
      var k :| AwaitsIn(slots, src, msgId, m, got, k);
      assert e == k;
    } else {
      assert e == |slots|;
    }
  }

  lemma OwnPacket(slots: seq<Slot>, now: int, src: Bytes, msgId: int, m: Bytes, i: nat, got: set<int>, maxMsg: int)
    requires IsMaxSize(maxMsg) && 1 <= |m| <= maxMsg && i < Parts(|m|)
    requires |slots| >= 1 && Awaits(ClearStale(slots), src, msgId, m, got) && !AllThere(m, got)
    ensures var r := Receive(slots, now, PacketOf(src, msgId, m, i), maxMsg);
            && r.message == (if AllThere(m, got + {i}) then Some(m) else None)
            && Awaits(ClearStale(r.slots), src, msgId, m, if AllThere(m, got + {i}) then {} else got + {i})
  {
    var clear, pkt := ClearStale(slots), PacketOf(src, msgId, m, i);
    FindsItsSlot(clear, now, src, msgId, m, got);
    var found := FindOrAlloc(clear, now, src, msgId);
    var slot, k := found.slots[found.index], found.index;
    FeedChosen(slot, now, src, msgId, m, i, got, maxMsg);
    var fed := Feed(slot, now, pkt, maxMsg);
    SameIfIn(got, i);
    assert fed.complete <==> AllThere(m, got + {i});
    AfterOwn(found.slots, k, fed, src, msgId, m, got + {i});
  }

  lemma SameIfIn(got: set<int>, i: int)
    ensures i in got ==> got + {i} == got
  {
  }

  /** The slots after a fragment has been fed to slot `k`: given up when it was the last one. */
  lemma AfterOwn(slots: seq<Slot>, k: nat, fed: Fed, src: Bytes, msgId: int, m: Bytes, got: set<int>)
    requires k < |slots| && forall j | 0 <= j < |slots| && j != k :: NotFor(slots[j], src, msgId)
    requires PartOf(fed.slot, src, msgId, m) && fed.slot.got.Keys == got && got != {}
    ensures Awaits(ClearStale(slots[k := fed.slot]), src, msgId, m, got)
    ensures Awaits(ClearStale(slots[k := fed.slot.(stale := true)]), src, msgId, m, {})
  {
    assert AwaitsIn(ClearStale(slots[k := fed.slot]), src, msgId, m, got, k);
  }

  lemma OtherPacket(slots: seq<Slot>, now: int, pkt: Packet, src: Bytes, msgId: int, m: Bytes, got: set<int>, maxMsg: int)
    requires |slots| >= 1 && Awaits(ClearStale(slots), src, msgId, m, got)
    requires !IsOf(pkt, src, msgId) && (got != {} ==> Spares(slots, now, pkt, src, msgId))
    ensures Awaits(ClearStale(Receive(slots, now, pkt, maxMsg).slots), src, msgId, m, got)
  {
    var clear := ClearStale(slots);
    var found := FindOrAlloc(clear, now, pkt.src, pkt.msgId);
    var slots' := ClearStale(Receive(slots, now, pkt, maxMsg).slots);
    OthersSlot(clear, now, pkt, src, msgId, maxMsg);
    if got != {} {
      var k :| AwaitsIn(clear, src, msgId, m, got, k);
      SparedIsNotFound(slots, now, pkt, src, msgId, k);
      assert slots'[k] == clear[k];
      assert AwaitsIn(slots', src, msgId, m, got, k);
    }
  }

  /** A spared slot is not the one that the other message's packet is fed to. */
  lemma SparedIsNotFound(slots: seq<Slot>, now: int, pkt: Packet, src: Bytes, msgId: int, k: nat)
    requires k < |slots| && !NotFor(slots[k], src, msgId) && !IsOf(pkt, src, msgId)
    requires Spares(slots, now, pkt, src, msgId)
    ensures FindOrAlloc(ClearStale(slots), now, pkt.src, pkt.msgId).index != k
  {
    var clear := ClearStale(slots);
    var e, free := Existing(clear, pkt.src, pkt.msgId), Available(clear, now);
    assert clear[k] == slots[k];
    if exists j :: 0 <= j < |slots| && !NotFor(slots[j], pkt.src, pkt.msgId) {
      var j :| 0 <= j < |slots| && !NotFor(slots[j], pkt.src, pkt.msgId);
      assert IsForMessage(clear[j], pkt.src, pkt.msgId);
      assert e < |clear|;
    } else {
      assert !TimedOut(clear[k], now);
      var j :| 0 <= j < |slots| && GoesBefore(slots[j], now, slots[k].lastTick);
      assert slots[j].stale ==> !clear[j].valid;
      assert !slots[j].stale ==> clear[j] == slots[j];
    }
  }

  /** The slot that another message's packet is fed to is not for this message afterwards. */
  lemma OthersSlot(slots: seq<Slot>, now: int, pkt: Packet, src: Bytes, msgId: int, maxMsg: int)
    requires |slots| >= 1 && NoneStale(slots) && !IsOf(pkt, src, msgId)
    ensures var found := FindOrAlloc(slots, now, pkt.src, pkt.msgId);
            && !IsForMessage(Feed(found.slots[found.index], now, pkt, maxMsg).slot, src, msgId)
            && forall j | 0 <= j < |slots| && j != found.index :: found.slots[j] == slots[j]
  {
  }

  // ---------------------------------------------------------------- whole runs

  /** From `a` to before `t` the message's packets are fragments of `m`, and no packet of
      another message takes its slot while it has one. */
  ghost predicate Undisturbed(packets: seq<Packet>, times: seq<int>, run: seq<seq<Slot>>, src: Bytes, msgId: int,
                              m: Bytes, a: nat, t: nat)
    requires t <= |packets| == |times| && |run| == |packets| + 1
  {
    forall s | a <= s < t :: UndisturbedAt(packets, times, run, src, msgId, m, a, s)
  }

  ghost predicate UndisturbedAt(packets: seq<Packet>, times: seq<int>, run: seq<seq<Slot>>, src: Bytes, msgId: int,
                                m: Bytes, a: nat, s: nat)
    requires a <= s < |packets| == |times| && s < |run|
  {
    && |run[s]| >= 1
    && if IsOf(packets[s], src, msgId) then packets[s] in PacketsOf(src, msgId, m)
       else Got(packets, src, msgId, a, s) != {} ==> Spares(run[s], times[s], packets[s], src, msgId)
  }

  lemma FragmentOf(pkt: Packet, src: Bytes, msgId: int, m: Bytes)
    requires pkt in PacketsOf(src, msgId, m)
    ensures pkt.idx < Parts(|m|) && pkt == PacketOf(src, msgId, m, pkt.idx)
  {
  }

  lemma NoneGot(packets: seq<Packet>, src: Bytes, msgId: int, a: nat)
    requires a <= |packets|
    ensures Got(packets, src, msgId, a, a) == {}
  {
  }

  /** One packet, of the message or another one, while a fragment is still missing after it. */
  lemma StillMissing(slots: seq<Slot>, now: int, pkt: Packet, src: Bytes, msgId: int, m: Bytes, got: set<int>, maxMsg: int)
    requires IsMaxSize(maxMsg) && 1 <= |m| <= maxMsg && |slots| >= 1 && Awaits(ClearStale(slots), src, msgId, m, got)
    requires if IsOf(pkt, src, msgId) then pkt in PacketsOf(src, msgId, m)
             else got != {} ==> Spares(slots, now, pkt, src, msgId)
    requires !AllThere(m, got + if IsOf(pkt, src, msgId) then {pkt.idx} else {})
    ensures var r := Receive(slots, now, pkt, maxMsg);
            && Awaits(ClearStale(r.slots), src, msgId, m, got + if IsOf(pkt, src, msgId) then {pkt.idx} else {})
            && (IsOf(pkt, src, msgId) ==> r.message == None)
  {
    if IsOf(pkt, src, msgId) {
      FragmentOf(pkt, src, msgId, m);
      OwnPacket(slots, now, src, msgId, m, pkt.idx, got, maxMsg);
    } else {
      OtherPacket(slots, now, pkt, src, msgId, m, got, maxMsg);
      assert got + {} == got;
    }
  }

  /** What the packet before `t` adds. */
  lemma GotMore(packets: seq<Packet>, src: Bytes, msgId: int, m: Bytes, a: nat, t: nat)
    requires a < t <= |packets|
    ensures Got(packets, src, msgId, a, t) ==
            Got(packets, src, msgId, a, t - 1) + if IsOf(packets[t - 1], src, msgId) then {packets[t - 1].idx} else {}
    ensures AllThere(m, Got(packets, src, msgId, a, t - 1)) ==> AllThere(m, Got(packets, src, msgId, a, t))
  {
  }

  /** The slots before `t` hold what has arrived since `a`. */
  ghost predicate AwaitsAt(packets: seq<Packet>, run: seq<seq<Slot>>, src: Bytes, msgId: int, m: Bytes, a: nat, t: nat) {
    a <= t <= |packets| && t < |run| && Awaits(ClearStale(run[t]), src, msgId, m, Got(packets, src, msgId, a, t))
  }

  /** What the packet at `s` makes the callback hand on. */
  function HandedOn(packets: seq<Packet>, times: seq<int>, maxMsg: int, run: seq<seq<Slot>>, s: nat): Option<Bytes>
    requires s < |packets| == |times| && s < |run| && |run[s]| >= 1
  {
    Receive(run[s], times[s], packets[s], maxMsg).message
  }

  ghost predicate NothingYet(packets: seq<Packet>, times: seq<int>, maxMsg: int, run: seq<seq<Slot>>,
                             src: Bytes, msgId: int, a: nat, t: nat)
    requires t <= |packets| == |times| && |run| == |packets| + 1
  {
    forall s | a <= s < t && IsOf(packets[s], src, msgId) ::
      |run[s]| >= 1 && HandedOn(packets, times, maxMsg, run, s) == None
  }

  lemma OneMorePacket(packets: seq<Packet>, times: seq<int>, maxMsg: int, run: seq<seq<Slot>>,
                      src: Bytes, msgId: int, m: Bytes, a: nat, t: nat)
    requires |run| == |packets| + 1 == |times| + 1 && IsMaxSize(maxMsg) && 1 <= |m| <= maxMsg && a < t <= |packets|
    requires |run[t - 1]| >= 1 && Step(packets, times, maxMsg, run, t - 1)
    requires AwaitsAt(packets, run, src, msgId, m, a, t - 1) && Undisturbed(packets, times, run, src, msgId, m, a, t)
    requires !AllThere(m, Got(packets, src, msgId, a, t))
    ensures IsOf(packets[t - 1], src, msgId) ==> HandedOn(packets, times, maxMsg, run, t - 1) == None
    ensures AwaitsAt(packets, run, src, msgId, m, a, t)
  {
    GotMore(packets, src, msgId, m, a, t);
    assert UndisturbedAt(packets, times, run, src, msgId, m, a, t - 1);
    StillMissing(run[t - 1], times[t - 1], packets[t - 1], src, msgId, m, Got(packets, src, msgId, a, t - 1), maxMsg);
  }

  /** While a fragment is missing the slots hold what has arrived. */
  lemma {:induction false} StillAwaited(packets: seq<Packet>, times: seq<int>, maxMsg: int, run: seq<seq<Slot>>,
                                        src: Bytes, msgId: int, m: Bytes, a: nat, t: nat)
    requires IsReceiving(packets, times, maxMsg, run) && IsMaxSize(maxMsg) && 1 <= |m| <= maxMsg && a <= t <= |packets|
    requires AwaitsAt(packets, run, src, msgId, m, a, a) && Undisturbed(packets, times, run, src, msgId, m, a, t)
    requires !AllThere(m, Got(packets, src, msgId, a, t))
    ensures AwaitsAt(packets, run, src, msgId, m, a, t)
    ensures NothingYet(packets, times, maxMsg, run, src, msgId, a, t)
  {
    if t > a {
      GotMore(packets, src, msgId, m, a, t);
      UndisturbedBefore(packets, times, run, src, msgId, m, a, t);
      StillAwaited(packets, times, maxMsg, run, src, msgId, m, a, t - 1);
      ReceivedAt(packets, times, maxMsg, run, t - 1);
      OneMorePacket(packets, times, maxMsg, run, src, msgId, m, a, t);
      StillNothing(packets, times, maxMsg, run, src, msgId, a, t);
    }
  }

  lemma UndisturbedBefore(packets: seq<Packet>, times: seq<int>, run: seq<seq<Slot>>, src: Bytes, msgId: int,
                          m: Bytes, a: nat, t: nat)
    requires a < t <= |packets| == |times| && |run| == |packets| + 1
    requires Undisturbed(packets, times, run, src, msgId, m, a, t)
    ensures Undisturbed(packets, times, run, src, msgId, m, a, t - 1)
  {
  }

  lemma StillNothing(packets: seq<Packet>, times: seq<int>, maxMsg: int, run: seq<seq<Slot>>,
                     src: Bytes, msgId: int, a: nat, t: nat)
    requires a < t <= |packets| == |times| && |run| == |packets| + 1 && |run[t - 1]| >= 1
    requires NothingYet(packets, times, maxMsg, run, src, msgId, a, t - 1)
    requires IsOf(packets[t - 1], src, msgId) ==> HandedOn(packets, times, maxMsg, run, t - 1) == None
    ensures NothingYet(packets, times, maxMsg, run, src, msgId, a, t)
  {
  }

  lemma ReceivedAt(packets: seq<Packet>, times: seq<int>, maxMsg: int, run: seq<seq<Slot>>, s: nat)
    requires IsReceiving(packets, times, maxMsg, run) && s < |packets|
    ensures Step(packets, times, maxMsg, run, s)
  {
    assert times[s] == times[s];
  }

  ghost predicate Step(packets: seq<Packet>, times: seq<int>, maxMsg: int, run: seq<seq<Slot>>, s: int) {
    && 0 <= s < |packets| == |times| && |run| == |packets| + 1
    && Receives(run[s], times[s], packets[s], maxMsg, run[s + 1])
  }

  /** Among whatever other traffic, a message whose slot is spared is handed on exactly with
      its last missing fragment, with its original bytes, and nothing of it before; and then
      its slot is given up, so that the next round starts afresh. */
  lemma HandedOnWithTheLast(packets: seq<Packet>, times: seq<int>, maxMsg: int, run: seq<seq<Slot>>,
                            src: Bytes, msgId: int, m: Bytes, a: nat, t: nat)
    requires IsReceiving(packets, times, maxMsg, run) && IsMaxSize(maxMsg) && 1 <= |m| <= maxMsg && a <= t < |packets|
    requires AwaitsAt(packets, run, src, msgId, m, a, a) && Undisturbed(packets, times, run, src, msgId, m, a, t + 1)
    requires IsOf(packets[t], src, msgId) && !AllThere(m, Got(packets, src, msgId, a, t))
    ensures |run[t]| >= 1
    ensures HandedOn(packets, times, maxMsg, run, t) ==
            if AllThere(m, Got(packets, src, msgId, a, t + 1)) then Some(m) else None
    ensures NothingYet(packets, times, maxMsg, run, src, msgId, a, t)
    ensures AllThere(m, Got(packets, src, msgId, a, t + 1)) ==> AwaitsAt(packets, run, src, msgId, m, t + 1, t + 1)
  {
    StillAwaited(packets, times, maxMsg, run, src, msgId, m, a, t);
    ReceivedAt(packets, times, maxMsg, run, t);
    LastPacket(packets, times, maxMsg, run, src, msgId, m, a, t);
  }

  lemma LastPacket(packets: seq<Packet>, times: seq<int>, maxMsg: int, run: seq<seq<Slot>>,
                   src: Bytes, msgId: int, m: Bytes, a: nat, t: nat)
    requires |run| == |packets| + 1 == |times| + 1 && IsMaxSize(maxMsg) && 1 <= |m| <= maxMsg && a <= t < |packets|
    requires Step(packets, times, maxMsg, run, t)
    requires AwaitsAt(packets, run, src, msgId, m, a, t) && Undisturbed(packets, times, run, src, msgId, m, a, t + 1)
    requires IsOf(packets[t], src, msgId) && !AllThere(m, Got(packets, src, msgId, a, t))
    ensures HandedOn(packets, times, maxMsg, run, t) ==
            if AllThere(m, Got(packets, src, msgId, a, t + 1)) then Some(m) else None
    ensures AllThere(m, Got(packets, src, msgId, a, t + 1)) ==> AwaitsAt(packets, run, src, msgId, m, t + 1, t + 1)
  {
    GotMore(packets, src, msgId, m, a, t + 1);
    assert UndisturbedAt(packets, times, run, src, msgId, m, a, t);
    FragmentOf(packets[t], src, msgId, m);
    OwnPacket(run[t], times[t], src, msgId, m, packets[t].idx, Got(packets, src, msgId, a, t), maxMsg);
    NoneGot(packets, src, msgId, t + 1);
  }

  /** At the start nothing is held of any message. */
  lemma NothingAtFirst(packets: seq<Packet>, times: seq<int>, maxMsg: int, run: seq<seq<Slot>>, src: Bytes, msgId: int, m: Bytes)
    requires IsReceiving(packets, times, maxMsg, run)
    ensures AwaitsAt(packets, run, src, msgId, m, 0, 0)
  {
    assert Got(packets, src, msgId, 0, 0) == {};
  }
}
