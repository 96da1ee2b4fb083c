/** When and how the stable point moves: exactly. */
module StableMoves {
  import opened Types
  import opened Quorums
  import opened ViewChangeSpec
  import opened ReplicaSpec
  import opened Invariants
  import opened Protocol
  import opened Handlers
  import opened Safety
  import opened Tallies
  import opened StableQuorums
  import opened Executions
  import opened Reactions

  // --------------------------------------------------------------- mark_stable

  /** The slot that is looked up for seqno `n`. */
  function SlotFor(c: Config, r: Replica, n: int): CkptSlot
    requires c.Valid() && |r.ckpts| == c.CheckpointSlots()
  {
    r.ckpts[(n / c.interval) % (c.window / c.interval + 2)]
  }

  /** The stable point is now `n`: execution and prepared points are not behind it, what lay at
      or below it is gone from both regions, and nothing else. */
  ghost predicate IsStableAt(c: Config, r: Replica, e: Replica, n: int, confirmed: bool) {
    && e == r.(stateLastStable := Max(r.stateLastStable, n), lastStable := n,
               quorumLastStable := if confirmed then n else r.quorumLastStable,
               lastPrepared := Max(r.lastPrepared, n), lastExecuted := Max(r.lastExecuted, n),
               log := e.log, pendingFill := e.pendingFill, ar := e.ar, ckpts := e.ckpts)
    && e.log == (if n > r.lastExecuted then r.log + [Jumped(n)] else r.log)
    && e.pendingFill == (if r.pendingFill == 0 || r.pendingFill > n || r.pendingFill < 0 then r.pendingFill else 0)
    && SameAbove(r.ar, e.ar, n) && e.ar.head == Max(r.ar.head, n + 1)
    && IsCut(r.ckpts, e.ckpts, n)
  }

  /** A quorum in the slot is for the replica's own root, for another one, or there is none. */
  ghost predicate Agrees(c: Config, r: Replica, n: int)
    requires c.Valid() && |r.ckpts| == c.CheckpointSlots()
  {
    Support(SlotFor(c, r, n).votes, r.root) >= 2 * c.f + 1
  }

  ghost predicate HasVerdict(c: Config, r: Replica, n: int)
    requires c.Valid() && |r.ckpts| == c.CheckpointSlots()
  {
    exists d :: Support(SlotFor(c, r, n).votes, d) >= 2 * c.f + 1
  }

  /** What asking to move the stable point to `n` comes to. */
  ghost predicate Marks(c: Config, r: Replica, n: int, mayFetch: bool, e: Replica)
    requires c.Valid() && |r.ckpts| == c.CheckpointSlots()
  {
    if n <= r.lastStable then e == r
    else if HasVerdict(c, r, n) && !Agrees(c, r, n) then
      e == if mayFetch && (r.inFetch ==> n > r.fetchSeqno) then r.(inFetch := true, fetchSeqno := n) else r
    else IsStableAt(c, r, e, n, HasVerdict(c, r, n))
  }

  lemma VerdictIsWinner(c: Config, votes: map<int, Digest>)
    requires c.Valid()
    ensures HasWinner(votes, c.CommitThreshold()) <==> exists d :: Support(votes, d) >= 2 * c.f + 1
    ensures forall d :: Wins(votes, c.CommitThreshold(), d) <==> Support(votes, d) >= 2 * c.f + 1
  {
    forall d
      ensures Wins(votes, c.CommitThreshold(), d) <==> Support(votes, d) >= 2 * c.f + 1
    {
      SupportIsWin(votes, 2 * c.f + 1, d);
    }
    if HasWinner(votes, c.CommitThreshold()) {
      var d :| Wins(votes, c.CommitThreshold(), d);
      assert Support(votes, d) >= 2 * c.f + 1;
    }
    if d :| Support(votes, d) >= 2 * c.f + 1 {
      assert Wins(votes, c.CommitThreshold(), d);
    }
  }

  lemma BecomesStable(c: Config, r: Replica, n: int, confirmed: bool)
    requires c.Valid() && Shaped(c, r) && n > r.lastStable
    ensures IsStableAt(c, r, BecomeStable(r, n, confirmed), n, confirmed)
  {
    CutIsSameAbove(r.ar, n);
  }

  /** The verdict on the own root, and that there is one. */
  lemma WinningSays(c: Config, r: Replica, n: int)
    requires c.Valid() && Shaped(c, r) && SlotFor(c, r, n).votes.Keys <= Upto(c.n)
    ensures Winning(c, r.ckpts, n).Some? <==> HasVerdict(c, r, n)
    ensures Winning(c, r.ckpts, n) == Some(r.root) <==> Agrees(c, r, n)
  {
    var votes := r.ckpts[SlotIndex(c, n)].votes;
    assert votes == SlotFor(c, r, n).votes;
    VerdictIsWinner(c, votes);
    if Agrees(c, r, n) {
      WinningIs(c, r.ckpts, n, r.root);
    }
  }

  /** The stable point moves exactly when it is behind and no quorum of votes in the slot
      speaks for another root; otherwise, if it is behind, a fetch begins when it may. */
  lemma MarkStableMarks(c: Config, r: Replica, n: int, mayFetch: bool)
    requires c.Valid() && Shaped(c, r) && SlotFor(c, r, n).votes.Keys <= Upto(c.n)
    ensures Marks(c, r, n, mayFetch, MarkStable(c, r, n, mayFetch))
  {
    WinningSays(c, r, n);
    if n > r.lastStable {
      BecomesStable(c, r, n, Winning(c, r.ckpts, n).Some?);
    }
  }

  // ------------------------------------------------------------- checkpoints

  /** A Checkpoint vote is looked at when it is another replica's, for a multiple of the interval. */
  predicate IsVote(c: Config, r: Replica, n: int, q: int)
    requires c.interval >= 1
  {
    n > 0 && n % c.interval == 0 && 0 <= q < c.n && q != r.id
  }

  /** The slot after a vote: of its seqno, with the sender present and its vote counted if it
      is the sender's first for the seqno and there is a value slot. */
  function Voted(slot: CkptSlot, maxVals: int, n: int, q: int, d: Digest): CkptSlot {
    var was := if slot.seqno == n then slot else CkptSlot(n, {}, map[]);
    if q in was.present then was
    else CkptSlot(n, was.present + {q},
                  if d in was.votes.Values || |was.votes.Values| < maxVals then was.votes[q := d] else was.votes)
  }

  /** The replica with a vote in its slot. */
  function WithVote(c: Config, r: Replica, n: int, q: int, d: Digest): Replica
    requires c.Valid() && |r.ckpts| == c.CheckpointSlots()
  {
    r.(ckpts := r.ckpts[(n / c.interval) % (c.window / c.interval + 2) := Voted(SlotFor(c, r, n), c.maxVals, n, q, d)])
  }

  /** The vote was counted, and some digest has a quorum. */
  ghost predicate Completes(c: Config, r: Replica, n: int, q: int, d: Digest)
    requires c.Valid() && |r.ckpts| == c.CheckpointSlots()
  {
    var slot, after := SlotFor(c, r, n), Voted(SlotFor(c, r, n), c.maxVals, n, q, d);
    && (slot.seqno == n ==> q !in slot.present) && q in after.votes
    && exists e :: Support(after.votes, e) >= 2 * c.f + 1
  }

  /** What storing a vote comes to. */
  ghost predicate Votes(c: Config, r: Replica, n: int, q: int, d: Digest, mayFetch: bool, e: Replica)
    requires c.Valid() && Shaped(c, r)
  {
    if Completes(c, r, n, q, d) then Marks(c, WithVote(c, r, n, q, d), n, mayFetch, e)
    else e == WithVote(c, r, n, q, d)
  }

  lemma VoteIsStored(c: Config, net: set<Msg>, r: Replica, n: int, q: int, d: Digest, mayFetch: bool)
    requires c.Valid() && Shaped(c, r) && CkptsOk(c, net, r.ckpts) && 0 <= q < c.n && CheckpointMsg(n, d, q) in net
    ensures var k := SlotIndex(c, n);
            var r1 := r.(ckpts := r.ckpts[k := StoreInSlot(r.ckpts[k], c.maxVals, n, q, d)]);
            Votes(c, r, n, q, d, mayFetch, if StoreMakesStable(c, r.ckpts[k], n, q, d) then MarkStable(c, r1, n, mayFetch) else r1)
  {
    var k := SlotIndex(c, n);
    var r1 := r.(ckpts := r.ckpts[k := StoreInSlot(r.ckpts[k], c.maxVals, n, q, d)]);
    assert r1 == WithVote(c, r, n, q, d);
    StoreCkptKeeps(c, net, r.ckpts, n, q, d);
    assert CkptSlotOk(c, net, r1.ckpts[k]);
    VerdictIsWinner(c, r1.ckpts[k].votes);
    MarkStableMarks(c, r1, n, mayFetch);
  }

  /** A Checkpoint of another replica is stored, and the vote that completes a quorum asks to
      move the stable point. */
  lemma CheckpointIsCounted(c: Config, net: set<Msg>, r: Replica, n: int, d: Digest, q: int, env: Env)
    requires Sound(c, net, r) && Shaped(c, r) && CheckpointMsg(n, d, q) in net
    ensures var e := HandleCheckpoint(c, r, n, d, q, env);
            if IsVote(c, r, n, q) then Votes(c, r, n, q, d, env.mayFetch(n), e) else e == r
  {
    if IsVote(c, r, n, q) {
      VoteIsStored(c, net, r, n, q, d, env.mayFetch(n));
    }
  }

  /** The own checkpoint: its root is recorded under its seqno, voted for and broadcast. */
  lemma OwnCheckpointIsTaken(c: Config, net: set<Msg>, r: Replica, n: int, env: Env)
    requires Sound(c, net, r) && Shaped(c, r)
    ensures var d, o := env.root(n), TakeCheckpoint(c, r, n, env);
            var k := (n / c.interval) % (c.window / c.interval + 2);
            && o.out == {CheckpointMsg(n, d, r.id)}
            && Votes(c, r.(root := d, records := r.records[k := Some(Record(n, d))]), n, r.id, d, env.mayFetch(n), o.r)
  {
    var d, k := env.root(n), SlotIndex(c, n);
    var net' := net + {CheckpointMsg(n, d, r.id)};
    CkptsGrow(c, net, net', r.ckpts);
    VoteIsStored(c, net', r.(root := d, records := r.records[k := Some(Record(n, d))]), n, r.id, d, env.mayFetch(n));
  }

  // -------------------------------------------------------------- fetch ends

  /** The end of a fetch takes over its root, asks to move the stable point to its seqno, and
      leaves the next seqno beyond it. */
  lemma FetchFinishes(c: Config, net: set<Msg>, r: Replica, root: Digest, env: Env)
    requires Sound(c, net, r) && Shaped(c, r)
    ensures var e, n := FinishFetch(c, r, root, env), r.fetchSeqno;
            if r.inFetch then
              && e.seqno == Max(r.seqno, n + 1)
              && Marks(c, r.(inFetch := false, root := root), n, env.mayFetch(n), e.(seqno := r.seqno))
            else e == r
  {
    var n := r.fetchSeqno;
    assert CkptSlotOk(c, net, r.ckpts[SlotIndex(c, n)]);
    var r1 := r.(inFetch := false, root := root);
    MarkStableMarks(c, r1, n, env.mayFetch(n));
    MarksKeepSeqno(c, r1, n, env.mayFetch(n), MarkStable(c, r1, n, env.mayFetch(n)));
  }

  lemma MarksKeepSeqno(c: Config, r: Replica, n: int, mayFetch: bool, e: Replica)
    requires c.Valid() && |r.ckpts| == c.CheckpointSlots() && Marks(c, r, n, mayFetch, e)
    ensures e.seqno == r.seqno
  {
  }

  /** A fetch begins for any seqno beyond the stable point, replacing one under way; what is
      fetched is the root only while one is under way; and nothing else changes. */
  lemma FetchBeginsAndGoesOn(c: Config, r: Replica, n: int, root: Digest, env: Env)
    requires c.Valid() && Shaped(c, r)
    ensures React(c, r, BeginFetch(n), env) ==
            if n > r.lastStable then Outcome(r.(inFetch := true, fetchSeqno := n), {}) else Outcome(r, {})
    ensures React(c, r, FetchData(root), env) == if r.inFetch then Outcome(r.(root := root), {}) else Outcome(r, {})
  {
  }

  /** A recorded checkpoint is repeated exactly when the record is still that of the seqno, and
      with the root that was voted for. */
  lemma RecordIsRepeated(c: Config, net: set<Msg>, r: Replica, n: int, env: Env)
    requires Sound(c, net, r) && Shaped(c, r)
    ensures var o, rec := React(c, r, RepeatCheckpoint(n), env), r.records[(n / c.interval) % (c.window / c.interval + 2)];
            && o.r == r
            && o.out == (if rec.Some? && rec.value.seqno == n then {CheckpointMsg(n, rec.value.root, r.id)} else {})
            && o.out <= net
  {
  }
}
