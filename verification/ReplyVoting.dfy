/** The client's vote over replies: a result needs f+1 matching replies of distinct replicas. */
module ReplyVoting {
  import opened Types
  import opened Quorums

  /** A Reply message; `size` is what its header claims about the payload in `body`. */
  datatype Reply = Reply(cid: int, rid: int, size: int, body: Bytes)
  {
    predicate WellSized() { 0 <= size <= |body| }

    function Payload(): Bytes
      requires WellSized()
    {
      body[..size]
    }
  }

  /** A received message and the replica whose key verifies its signature, if any does. */
  datatype Signed = Signed(sender: Option<int>, reply: Reply)

  /** The reply counts for `payload` in the request `rid`. */
  predicate Backs(r: Reply, rid: int, payload: Bytes) {
    r.rid == rid && r.WellSized() && r.Payload() == payload
  }

  function Backers(replies: map<int, Reply>, rid: int, payload: Bytes): set<int> {
    set i | i in replies && Backs(replies[i], rid, payload)
  }

  ghost predicate Decided(replies: map<int, Reply>, rid: int, needed: int) {
    exists payload :: |Backers(replies, rid, payload)| >= needed
  }

  /** The message is an authentic reply to the current request of this client. */
  predicate Relevant(m: Signed, n: int, cid: int, rid: int) {
    m.sender.Some? && 0 <= m.sender.value < n && m.reply.cid == cid && m.reply.rid == rid
  }

  /** The stored replies after a message: one per replica and request, the first one. */
  function Filed(replies: map<int, Reply>, m: Signed, n: int, cid: int, rid: int): map<int, Reply> {
    if !Relevant(m, n, cid, rid) then replies
    else if m.sender.value in replies && replies[m.sender.value].rid == rid then replies
    else replies[m.sender.value := m.reply]
  }

  /** A new reply changes the support of its own payload only, so only that can become
      decided: comparing no others than those of its size is enough. */
  lemma OnlyNewestDecides(replies: map<int, Reply>, i: int, r: Reply, rid: int, payload: Bytes)
    requires i in replies ==> replies[i].rid != rid
    ensures Backs(r, rid, payload) || Backers(replies[i := r], rid, payload) == Backers(replies, rid, payload)
  {
  }

  /** The stored replies after the first `k` messages. */
  function FiledAll(replies: map<int, Reply>, inbox: seq<Signed>, k: nat, n: int, cid: int, rid: int): map<int, Reply>
    requires k <= |inbox|
  {
    if k == 0 then replies else Filed(FiledAll(replies, inbox, k - 1, n, cid, rid), inbox[k - 1], n, cid, rid)
  }

  ghost predicate DecidedAfter(replies: map<int, Reply>, inbox: seq<Signed>, k: nat, n: int, cid: int, rid: int, needed: int)
    requires k <= |inbox|
  {
    Decided(FiledAll(replies, inbox, k, n, cid, rid), rid, needed)
  }

  /** Nothing was decided before the message at position `used` was filed. */
  ghost predicate UndecidedBefore(replies: map<int, Reply>, inbox: seq<Signed>, used: nat,
                                  n: int, cid: int, rid: int, needed: int)
    requires used <= |inbox| + 1
  {
    forall k: nat | k < used :: !DecidedAfter(replies, inbox, k, n, cid, rid, needed)
  }

  /** Replies to other requests decide nothing. */
  lemma StaleDoNotCount(replies: map<int, Reply>, rid: int, f: nat)
    requires forall i | i in replies :: replies[i].rid != rid
    ensures !Decided(replies, rid, f + 1)
  {
    forall payload
      ensures |Backers(replies, rid, payload)| == 0
    {
      forall i
        ensures i !in Backers(replies, rid, payload)
      {
      }
      assert Backers(replies, rid, payload) == {};
    }
  }

  // ------------------------------------------------------- on the inbox itself

  /** The message is replica `q`'s, and a reply to the request. */
  predicate IsFrom(m: Signed, q: int, cid: int, rid: int) {
    m.sender == Some(q) && m.reply.cid == cid && m.reply.rid == rid
  }

  /** Message `j` is the first reply of replica `q`, well sized and with this payload. */
  predicate SpeaksAt(inbox: seq<Signed>, j: int, q: int, cid: int, rid: int, payload: Bytes) {
    && 0 <= j < |inbox| && IsFrom(inbox[j], q, cid, rid)
    && (forall i | 0 <= i < j :: !IsFrom(inbox[i], q, cid, rid))
    && inbox[j].reply.WellSized() && inbox[j].reply.Payload() == payload
  }

  /** The replicas whose first reply, among the first `k` messages, has this payload. */
  ghost function Voices(inbox: seq<Signed>, k: nat, n: nat, cid: int, rid: int, payload: Bytes): set<int> {
    set q | 0 <= q < n && Speaks(inbox, k, q, cid, rid, payload)
  }

  ghost predicate Speaks(inbox: seq<Signed>, k: nat, q: int, cid: int, rid: int, payload: Bytes) {
    exists j :: j < k && SpeaksAt(inbox, j, q, cid, rid, payload)
  }

  ghost predicate SomeVoice(inbox: seq<Signed>, k: nat, n: nat, cid: int, rid: int, needed: int) {
    exists payload :: |Voices(inbox, k, n, cid, rid, payload)| >= needed
  }

  ghost predicate NoneStored(replies: map<int, Reply>, rid: int) {
    forall i | i in replies :: replies[i].rid != rid
  }

  /** Message `j` is what is stored for replica `q`: its first reply among the first `k`. */
  ghost predicate FiledAt(replies: map<int, Reply>, inbox: seq<Signed>, j: int, k: nat, q: int, cid: int, rid: int) {
    && 0 <= j < k <= |inbox| && IsFrom(inbox[j], q, cid, rid)
    && (forall i | 0 <= i < j :: !IsFrom(inbox[i], q, cid, rid))
    && q in replies && replies[q] == inbox[j].reply
  }

  ghost predicate IsFiled(replies: map<int, Reply>, inbox: seq<Signed>, k: nat, q: int, cid: int, rid: int) {
    exists j :: FiledAt(replies, inbox, j, k, q, cid, rid)
  }

  ghost predicate Silent(inbox: seq<Signed>, k: nat, q: int, cid: int, rid: int) {
    k <= |inbox| && forall i | 0 <= i < k :: !IsFrom(inbox[i], q, cid, rid)
  }

  /** What is stored for a replica after `k` messages is its first reply among them, or none. */
  lemma {:induction false} FirstIsFiled(replies: map<int, Reply>, inbox: seq<Signed>, k: nat, n: nat, cid: int, rid: int, q: int)
    requires NoneStored(replies, rid) && k <= |inbox| && 0 <= q < n
    ensures var filed := FiledAll(replies, inbox, k, n, cid, rid);
            if Silent(inbox, k, q, cid, rid) then q in filed ==> filed[q].rid != rid
            else IsFiled(filed, inbox, k, q, cid, rid)
  {
    if k > 0 {
      FirstIsFiled(replies, inbox, k - 1, n, cid, rid, q);
      var before, filed := FiledAll(replies, inbox, k - 1, n, cid, rid), FiledAll(replies, inbox, k, n, cid, rid);
      if Silent(inbox, k - 1, q, cid, rid) {
        if IsFrom(inbox[k - 1], q, cid, rid) {
          var j := k - 1;
          assert FiledAt(filed, inbox, j, k, q, cid, rid);
        }
      } else {
        var j :| FiledAt(before, inbox, j, k - 1, q, cid, rid);
        assert FiledAt(filed, inbox, j, k, q, cid, rid);
      }
    }
  }

  lemma {:induction false} FiledInRange(replies: map<int, Reply>, inbox: seq<Signed>, k: nat, n: nat, cid: int, rid: int, q: int)
    requires k <= |inbox| && NoneStored(replies, rid)
    ensures var filed := FiledAll(replies, inbox, k, n, cid, rid); q in filed && filed[q].rid == rid ==> 0 <= q < n
  {
    if k > 0 {
      FiledInRange(replies, inbox, k - 1, n, cid, rid, q);
    }
  }

  /** The backers of a payload among the stored replies are the replicas whose first reply
      has it. */
  lemma VoicesAreBackers(replies: map<int, Reply>, inbox: seq<Signed>, k: nat, n: nat, cid: int, rid: int, payload: Bytes)
    requires NoneStored(replies, rid) && k <= |inbox|
    ensures Backers(FiledAll(replies, inbox, k, n, cid, rid), rid, payload) == Voices(inbox, k, n, cid, rid, payload)
  {
    var filed, voices := FiledAll(replies, inbox, k, n, cid, rid), Voices(inbox, k, n, cid, rid, payload);
    forall q
      ensures q in Backers(filed, rid, payload) <==> q in voices
    {
      FiledInRange(replies, inbox, k, n, cid, rid, q);
      if 0 <= q < n {
        BacksIffSpeaks(replies, inbox, k, n, cid, rid, payload, q);
      }
    }
  }

  lemma BacksIffSpeaks(replies: map<int, Reply>, inbox: seq<Signed>, k: nat, n: nat, cid: int, rid: int, payload: Bytes, q: int)
    requires NoneStored(replies, rid) && k <= |inbox| && 0 <= q < n
    ensures var filed := FiledAll(replies, inbox, k, n, cid, rid);
            (q in filed && Backs(filed[q], rid, payload)) <==> Speaks(inbox, k, q, cid, rid, payload)
  {
    var filed := FiledAll(replies, inbox, k, n, cid, rid);
    FirstIsFiled(replies, inbox, k, n, cid, rid, q);
    if !Silent(inbox, k, q, cid, rid) {
      var j :| FiledAt(filed, inbox, j, k, q, cid, rid);
      if Backs(filed[q], rid, payload) {
        assert SpeaksAt(inbox, j, q, cid, rid, payload);
      }
      if Speaks(inbox, k, q, cid, rid, payload) {
        var i :| i < k && SpeaksAt(inbox, i, q, cid, rid, payload);
        assert i == j;
      }
    }
  }

  /** Something is decided after `k` messages exactly when f+1 first replies among them agree. */
  lemma DecidedIsSomeVoice(replies: map<int, Reply>, inbox: seq<Signed>, k: nat, n: nat, cid: int, rid: int, needed: int)
    requires NoneStored(replies, rid) && k <= |inbox|
    ensures DecidedAfter(replies, inbox, k, n, cid, rid, needed) <==> SomeVoice(inbox, k, n, cid, rid, needed)
  {
    forall payload
      ensures Backers(FiledAll(replies, inbox, k, n, cid, rid), rid, payload) == Voices(inbox, k, n, cid, rid, payload)
    {
      VoicesAreBackers(replies, inbox, k, n, cid, rid, payload);
    }
    if DecidedAfter(replies, inbox, k, n, cid, rid, needed) {
      var payload :| |Backers(FiledAll(replies, inbox, k, n, cid, rid), rid, payload)| >= needed;
      assert |Voices(inbox, k, n, cid, rid, payload)| >= needed;
    }
    if SomeVoice(inbox, k, n, cid, rid, needed) {
      var payload :| |Voices(inbox, k, n, cid, rid, payload)| >= needed;
      assert |Backers(FiledAll(replies, inbox, k, n, cid, rid), rid, payload)| >= needed;
    }
  }

  /** The answer to a request: the payload of the first messages after which f+1 replicas'
      first replies agree, if there are such. */
  ghost predicate IsAnswer(inbox: seq<Signed>, n: nat, cid: int, rid: int, needed: int, result: Option<Bytes>, used: nat) {
    && used <= |inbox|
    && (forall k: nat | k < used :: !SomeVoice(inbox, k, n, cid, rid, needed))
    && (result.Some? ==> |Voices(inbox, used, n, cid, rid, result.value)| >= needed)
    && (result.None? ==> used == |inbox| && !SomeVoice(inbox, used, n, cid, rid, needed))
  }

  lemma AnswerIs(replies: map<int, Reply>, inbox: seq<Signed>, n: nat, cid: int, rid: int, needed: int,
                 result: Option<Bytes>, used: nat)
    requires NoneStored(replies, rid) && used <= |inbox|
    requires UndecidedBefore(replies, inbox, used, n, cid, rid, needed)
    requires result.None? ==> used == |inbox| && !DecidedAfter(replies, inbox, used, n, cid, rid, needed)
    requires result.Some? ==> |Backers(FiledAll(replies, inbox, used, n, cid, rid), rid, result.value)| >= needed
    ensures IsAnswer(inbox, n, cid, rid, needed, result, used)
  {
    forall k: nat | k <= used
      ensures DecidedAfter(replies, inbox, k, n, cid, rid, needed) <==> SomeVoice(inbox, k, n, cid, rid, needed)
    {
      DecidedIsSomeVoice(replies, inbox, k, n, cid, rid, needed);
    }
    if result.Some? {
      VoicesAreBackers(replies, inbox, used, n, cid, rid, result.value);
    }
  }

  /** A class of f+1 agreeing first replies anywhere in the inbox is enough for an answer, at
      the latest with the message that completes it. */
  lemma VoicesAreHeard(inbox: seq<Signed>, n: nat, cid: int, rid: int, needed: int, result: Option<Bytes>, used: nat,
                       k: nat, payload: Bytes)
    requires IsAnswer(inbox, n, cid, rid, needed, result, used)
    requires k <= |inbox| && |Voices(inbox, k, n, cid, rid, payload)| >= needed
    ensures result.Some? && used <= k
  {
    assert SomeVoice(inbox, k, n, cid, rid, needed);
    if result.None? {
      SubsetSize(Voices(inbox, k, n, cid, rid, payload), Voices(inbox, |inbox|, n, cid, rid, payload));
    }
  }

  /** Of f+1 distinct backers of a result one is correct. */
  lemma BackedByCorrect(replies: map<int, Reply>, rid: int, payload: Bytes, f: nat, faulty: set<int>) returns (i: int)
    requires |Backers(replies, rid, payload)| >= f + 1 && |faulty| <= f
    ensures i !in faulty && i in replies && Backs(replies[i], rid, payload)
  {
    i := SomeCorrect(f, faulty, Backers(replies, rid, payload));
  }

  class Client {
    const n: nat
    const f: nat
    const cid: int
    const replies: array<Option<Reply>>
    var replyCount: int
    var rid: int

    /** The valid stored replies. */
    ghost var model: map<int, Reply>

    ghost predicate Records(i: int)
      reads this, replies
      requires 0 <= i < replies.Length
    {
      match replies[i]
      case None => i !in model
      case Some(r) => i in model && model[i] == r
    }

    /** Nothing is decided yet: as soon as something is, it is returned and all is cleared. */
    ghost predicate Valid()
      reads this, replies
    {
      && replies.Length == n
      && (forall i | i in model :: 0 <= i < n && model[i].rid <= rid)
      && (forall i | 0 <= i < n :: Records(i))
      && replyCount == |model|
      && !Decided(model, rid, f + 1)
    }

    constructor (n: nat, f: nat, cid: int)
      ensures Valid() && fresh(replies) && model == map[]
      ensures this.n == n && this.f == f && this.cid == cid
    {
      this.n, this.f, this.cid := n, f, cid;
      replies := new Option<Reply>[n](_ => None);
      replyCount, rid, model := 0, 0, map[];
      new;
      NothingDecided(rid, f);
    }

    /** A new request gets a new id; replies to earlier ones stay but no longer count. */
    method NextRequest()
      requires Valid()
      modifies `rid
      ensures Valid() && rid == old(rid) + 1 && model == old(model) && NoneStored(model, rid)
    {
      rid := rid + 1;
      assert forall i | i in model :: model[i].rid < rid;
      StaleDoNotCount(model, rid, f);
      forall i | 0 <= i < n
        ensures Records(i)
      {
        assert old(Records(i));
      }
    }

    /** The replica's stored reply to another request makes way; a second one to this request
        is ignored. */
    method File(i: int, r: Reply) returns (stored: bool)
      requires Valid() && 0 <= i < n && r.rid == rid
      modifies this, replies
      ensures rid == old(rid) && stored == !(i in old(model) && old(model)[i].rid == rid)
      ensures model == if stored then old(model)[i := r] else old(model)
      ensures replyCount == |model|
      ensures forall j | 0 <= j < n :: Records(j)
    {
      assert Records(i);
      if replies[i].Some? {
        if replies[i].value.rid != r.rid {
          replyCount := replyCount - 1;
        } else {
          return false;
        }
      }
      replies[i] := Some(r);
      replyCount := replyCount + 1;
      model := model[i := r];
      stored := true;
      forall j | 0 <= j < n
        ensures Records(j)
      {
        assert old(Records(j));
      }
    }

    /** The number of stored replies with this payload: the inner loop. */
    method CountMatching(size: int, payload: Bytes) returns (cnt: nat)
      requires replies.Length == n && (forall i | i in model :: 0 <= i < n) && forall j | 0 <= j < n :: Records(j)
      requires |payload| == size
      ensures cnt == |Backers(model, rid, payload)|
    {
      cnt := 0;
      assert BackersBelow(payload, 0) == {};
      for j := 0 to n
        invariant cnt == |BackersBelow(payload, j)|
      {
        assert Records(j);
        OneMoreBacker(payload, j);
        if replies[j].None? {
          continue;
        }
        var r := replies[j].value;
        if r.rid != rid || r.size != size || !r.WellSized() {
          continue;
        }
        if r.Payload() == payload {
          cnt := cnt + 1;
        }
      }
      assert BackersBelow(payload, n) == Backers(model, rid, payload);
    }

    ghost function BackersBelow(payload: Bytes, j: int): set<int>
      reads this
    {
      set i | i in Backers(model, rid, payload) && i < j
    }

    lemma OneMoreBacker(payload: Bytes, j: int)
      ensures |BackersBelow(payload, j + 1)| ==
              |BackersBelow(payload, j)| + if j in model && Backs(model[j], rid, payload) then 1 else 0
    {
      if j in model && Backs(model[j], rid, payload) {
        assert BackersBelow(payload, j + 1) == BackersBelow(payload, j) + {j};
      } else {
        assert BackersBelow(payload, j + 1) == BackersBelow(payload, j);
      }
    }

    /** The outer loop: the best supported payload among the replies of the newest one's size. */
    method Tally(size: int) returns (best: nat, winning: Option<Bytes>)
      requires replies.Length == n && (forall i | i in model :: 0 <= i < n) && forall j | 0 <= j < n :: Records(j)
      ensures winning.Some? ==> best == |Backers(model, rid, winning.value)| && best >= 1
      ensures winning.None? ==> best == 0
      ensures forall payload | |payload| == size :: |Backers(model, rid, payload)| <= best
    {
      best, winning := 0, None;
      for i := 0 to n
        invariant winning.Some? ==> best == |Backers(model, rid, winning.value)| && best >= 1
        invariant winning.None? ==> best == 0
        invariant forall j | 0 <= j < i && j in model && Counts(model[j], size) ::
                    |Backers(model, rid, model[j].Payload())| <= best
      {
        assert Records(i);
        if replies[i].None? {
          continue;
        }
        var r := replies[i].value;
        if r.rid != rid || r.size != size || !r.WellSized() {
          continue;
        }
        var cnt := CountMatching(size, r.Payload());
        if cnt > best {
          best, winning := cnt, Some(r.Payload());
        }
      }
      forall payload | |payload| == size
        ensures |Backers(model, rid, payload)| <= best
      {
        if |Backers(model, rid, payload)| > 0 {
          var j := Pick(Backers(model, rid, payload));
          assert Counts(model[j], size);
        }
      }
    }

    predicate Counts(r: Reply, size: int)
      reads this
    {
      r.rid == rid && r.size == size && r.WellSized()
    }

    method Forget()
      requires replies.Length == n
      modifies this, replies
      ensures Valid() && model == map[] && rid == old(rid)
    {
      forall i | 0 <= i < n {
        replies[i] := None;
      }
      replyCount, model := 0, map[];
      NothingDecided(rid, f);
    }

    /** One received message: a payload is returned exactly when this reply completes f+1
        matching ones, and then it is this reply's payload. */
    method Handle(m: Signed) returns (result: Option<Bytes>)
      requires Valid()
      modifies this, replies
      ensures Valid() && rid == old(rid)
      ensures var after := Filed(old(model), m, n, cid, rid);
              && (result.Some? <==> Decided(after, rid, f + 1))
              && (result.Some? ==> |Backers(after, rid, result.value)| >= f + 1 && Backs(m.reply, rid, result.value))
              && model == if result.Some? then map[] else after
    {
      result := None;
      if m.sender.None? || m.sender.value < 0 || m.sender.value >= n || m.reply.cid != cid || m.reply.rid != rid {
        return;
      }
      ghost var before := model;
      var stored := File(m.sender.value, m.reply);
      if !stored {
        return;
      }
      var best, winning := Tally(m.reply.size);
      forall payload | |Backers(model, rid, payload)| >= f + 1
        ensures Backs(m.reply, rid, payload) && best >= f + 1
      {
        OnlyNewestDecides(before, m.sender.value, m.reply, rid, payload);
        assert |Backers(before, rid, payload)| < f + 1;
      }
      if best >= f + 1 {
        result := winning;
        Forget();
      }
    }

    /** Byz_recv_reply: it returns at the first reply that completes any f+1 matching ones,
        and gives up, forgetting all, when the messages that arrive in time are used up. */
    method RecvReply(inbox: seq<Signed>) returns (result: Option<Bytes>, used: nat)
      requires Valid()
      modifies this, replies
      ensures Valid() && rid == old(rid) && model == map[] && used <= |inbox|
      ensures UndecidedBefore(old(model), inbox, used, n, cid, rid, f + 1)
      ensures result.None? ==> used == |inbox| && !DecidedAfter(old(model), inbox, used, n, cid, rid, f + 1)
      ensures result.Some? ==>
                |Backers(FiledAll(old(model), inbox, used, n, cid, rid), rid, result.value)| >= f + 1
      ensures NoneStored(old(model), rid) ==> IsAnswer(inbox, n, cid, rid, f + 1, result, used)
    {
      result, used := Receive(inbox);
      if NoneStored(old(model), rid) {
        AnswerIs(old(model), inbox, n, cid, rid, f + 1, result, used);
      }
    }

    /** Its loop. */
    method Receive(inbox: seq<Signed>) returns (result: Option<Bytes>, used: nat)
      requires Valid()
      modifies this, replies
      ensures Valid() && rid == old(rid) && model == map[] && used <= |inbox|
      ensures UndecidedBefore(old(model), inbox, used, n, cid, rid, f + 1)
      ensures result.None? ==> used == |inbox| && !DecidedAfter(old(model), inbox, used, n, cid, rid, f + 1)
      ensures result.Some? ==>
                |Backers(FiledAll(old(model), inbox, used, n, cid, rid), rid, result.value)| >= f + 1
    {
      result, used := None, 0;
      while used < |inbox|
        invariant Valid() && rid == old(rid) && used <= |inbox|
        invariant model == FiledAll(old(model), inbox, used, n, cid, rid)
        invariant UndecidedBefore(old(model), inbox, used + 1, n, cid, rid, f + 1)
        invariant result.None?
      {
        result := Handle(inbox[used]);
        used := used + 1;
        if result.Some? {
          return;
        }
      }
      Forget();
    }
  }

  lemma NothingDecided(rid: int, f: nat)
    ensures !Decided(map[], rid, f + 1)
  {
    forall payload
      ensures Backers(map[], rid, payload) == {}
    {
    }
  }
}
