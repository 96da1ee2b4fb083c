/** What the execution loop does: it executes, in order and one after the other, what is
    stored, committed and accepted, takes the checkpoints, and stops only where it must. */
module Executions {
  import opened Types
  import opened Quorums
  import opened ViewChangeSpec
  import opened ReplicaSpec
  import opened Invariants
  import opened Protocol
  import opened Handlers
  import opened Safety
  import opened Tallies

  // --------------------------------------------------------------- statements

  /** A Pre_prepare is stored for seqno `n`, and 2f+1 senders have committed to its digest. */
  predicate IsCommitted(c: Config, ar: Region, n: int) {
    && ar.head <= n < ar.head + |ar.slots|
    && var sl := ar.slots[n - ar.head];
       sl.pp.Some? && Support(sl.commits, sl.pp.value.digest) >= 2 * c.f + 1
  }

  /** The request stored for seqno `n`. */
  function RequestAt(ar: Region, n: int): RequestSet
    requires ar.head <= n < ar.head + |ar.slots| && ar.slots[n - ar.head].pp.Some?
  {
    ar.slots[n - ar.head].pp.value.rset
  }

  /** Above `m` the two windows hold the same. */
  ghost predicate SameAbove(ar: Region, ar': Region, m: int) {
    && |ar'.slots| == |ar.slots| && ar.head <= ar'.head <= Max(ar.head, m + 1)
    && forall n | n > m :: SameAt(ar, ar', n)
  }

  ghost predicate SameAt(ar: Region, ar': Region, n: int) {
    && (ar.InRange(n) ==> ar'.InRange(n) && ar'.At(n) == ar.At(n))
    && (ar'.InRange(n) && !ar.InRange(n) ==> ar'.At(n) == EMPTY_SLICE)
  }

  /** The log of `e` is that of `r` and then, in order, the requests stored in `ar` for the
      seqnos that were executed, each of them committed and accepted. */
  ghost predicate Ran(c: Config, ar: Region, r: Replica, e: Replica, env: Env) {
    && r.lastExecuted <= e.lastExecuted
    && |e.log| == |r.log| + (e.lastExecuted - r.lastExecuted)
    && e.log[..|r.log|] == r.log
    && forall n | r.lastExecuted < n <= e.lastExecuted :: RanAt(c, ar, r, e, env, n)
  }

  ghost predicate RanAt(c: Config, ar: Region, r: Replica, e: Replica, env: Env, n: int)
    requires r.lastExecuted < n <= e.lastExecuted && |e.log| == |r.log| + (e.lastExecuted - r.lastExecuted)
  {
    && IsCommitted(c, ar, n) && env.accepts(n)
    && e.log[|r.log| + (n - r.lastExecuted - 1)] == Executed(n, RequestAt(ar, n))
  }

  /** The next seqno is beyond the prepared point, or not committed for what is stored, or
      the application refuses it. */
  ghost predicate Drained(c: Config, ar: Region, e: Replica, env: Env) {
    var n := e.lastExecuted + 1;
    n > e.lastPrepared || !IsCommitted(c, ar, n) || !env.accepts(n)
  }

  /** A checkpoint vote is sent for every multiple of the interval executed, with the root
      after it, and nothing else is. */
  ghost predicate Checkpoints(c: Config, r: Replica, e: Replica, out: set<Msg>, env: Env)
    requires c.interval >= 1
  {
    && (forall m | m in out :: m.CheckpointMsg? && IsCheckpoint(c, r, e, env, m.seqno, m))
    && (forall n | r.lastExecuted < n <= e.lastExecuted && n % c.interval == 0 :: CheckpointMsg(n, env.root(n), r.id) in out)
  }

  ghost predicate IsCheckpoint(c: Config, r: Replica, e: Replica, env: Env, n: int, m: Msg)
    requires c.interval >= 1
  {
    r.lastExecuted < n <= e.lastExecuted && n % c.interval == 0 && m == CheckpointMsg(n, env.root(n), r.id)
  }

  /** The request to fill a gap is as it was, or done with at or below `m`. */
  predicate SameFill(r: Replica, e: Replica, m: int) {
    e.pendingFill == r.pendingFill || (e.pendingFill == 0 && 0 < r.pendingFill <= m)
  }

  /** Stopping at a prepared seqno that is not committed asks to fill it, outside view changes. */
  predicate AsksToFill(c: Config, ar: Region, r: Replica, e: Replica) {
    var n := e.lastExecuted + 1;
    if n <= e.lastPrepared && !IsCommitted(c, ar, n) && !r.vi.inProgress then e.pendingFill == n
    else SameFill(r, e, e.lastExecuted)
  }

  /** The whole loop. */
  ghost predicate Executes(c: Config, r: Replica, o: Outcome, env: Env)
    requires c.interval >= 1
  {
    && Ran(c, r.ar, r, o.r, env) && Drained(c, r.ar, o.r, env) && Checkpoints(c, r, o.r, o.out, env)
    && SameAbove(r.ar, o.r.ar, o.r.lastExecuted)
    && SameCourse(r, o.r) && AsksToFill(c, r.ar, r, o.r)
  }

  // ------------------------------------------------------------ the window

  lemma CommittedIsReady(c: Config, ar: Region, n: int)
    requires c.Valid()
    ensures IsCommitted(c, ar, n) <==> ar.ReadyAt(c, n)
  {
    if IsCommitted(c, ar, n) {
      var sl := ar.slots[n - ar.head];
      var q := Pick(Supporters(sl.commits, sl.pp.value.digest));
    }
  }

  lemma CommittedStays(c: Config, ar: Region, ar': Region, m: int, n: int)
    requires SameAbove(ar, ar', m) && n > m
    ensures IsCommitted(c, ar', n) <==> IsCommitted(c, ar, n)
    ensures IsCommitted(c, ar, n) ==> RequestAt(ar', n) == RequestAt(ar, n)
  {
    assert SameAt(ar, ar', n);
  }

  lemma SameAboveMore(a: Region, b: Region, d: Region, m: int, k: int)
    requires SameAbove(a, b, m) && SameAbove(b, d, k) && m <= k
    ensures SameAbove(a, d, k)
  {
    forall n | n > k
      ensures SameAt(a, d, n)
    {
      assert SameAt(a, b, n) && SameAt(b, d, n);
    }
  }

  lemma CutIsSameAbove(ar: Region, m: int)
    ensures SameAbove(ar, Truncate(ar, m + 1), m)
  {
    var ar' := Truncate(ar, m + 1);
    if m + 1 > ar.head {
      forall n | n > m
        ensures SameAt(ar, ar', n)
      {
        CutAt(ar, m + 1, n);
      }
    }
  }

  // -------------------------------------------------------------- one turn

  /** Executing one request: it is appended to the log, and the window is at most cut behind it. */
  lemma OneTurn(c: Config, r: Replica, env: Env)
    requires c.Valid() && Shaped(c, r) && IsCommitted(c, r.ar, r.lastExecuted + 1) && r.lastExecuted < r.lastPrepared
    requires r.ar.HasPp(r.lastExecuted + 1)
    ensures var n, one := r.lastExecuted + 1, ExecuteOne(c, r, env);
            && one.r.lastExecuted == n && one.r.log == r.log + [Executed(n, RequestAt(r.ar, n))]
            && SameAbove(r.ar, one.r.ar, n)
            && one.out == (if n % c.interval == 0 then {CheckpointMsg(n, env.root(n), r.id)} else {})
            && SameCourse(r, one.r) && SameFill(r, one.r, n)
  {
    var n := r.lastExecuted + 1;
    var logged := Logged(r, n);
    assert SameAbove(r.ar, logged.ar, n);
    var one := ExecuteOne(c, r, env);
    if n % c.interval == 0 {
      StableAfterExecuting(c, logged, n, env);
      assert one == TakeCheckpoint(c, logged, n, env);
    } else {
      assert one == Outcome(logged, {});
    }
  }

  /** What a replica is besides its stores, checkpoint records, stable point and log. */
  ghost predicate SameCourse(r: Replica, e: Replica) {
    && e.id == r.id && e.view == r.view && e.lastPrepared == r.lastPrepared
    && e.accepted == r.accepted && e.seqno == r.seqno && e.vi == r.vi
  }

  lemma SameAsItself(ar: Region, m: int)
    ensures SameAbove(ar, ar, m)
  {
  }

  /** Moving the stable point to the seqno just executed skips nothing. */
  lemma StableBehind(c: Config, r: Replica, n: int, mayFetch: bool)
    requires c.Valid() && Shaped(c, r) && r.lastExecuted == n && n <= r.lastPrepared
    ensures var e := MarkStable(c, r, n, mayFetch);
            && e.lastExecuted == n && e.log == r.log && SameAbove(r.ar, e.ar, n) && SameCourse(r, e)
            && SameFill(r, e, n)
  {
    SameAsItself(r.ar, n);
    BecomingStableBehind(r, n, Winning(c, r.ckpts, n).Some?);
    var e := MarkStable(c, r, n, mayFetch);
    assert e == BecomeStable(r, n, Winning(c, r.ckpts, n).Some?) || e == r || e == r.(inFetch := true, fetchSeqno := n);
  }

  lemma BecomingStableBehind(r: Replica, n: int, confirmed: bool)
    requires r.lastExecuted == n && n <= r.lastPrepared
    ensures var e := BecomeStable(r, n, confirmed);
            && e.lastExecuted == n && e.log == r.log && SameAbove(r.ar, e.ar, n) && SameCourse(r, e)
            && SameFill(r, e, n)
  {
    CutIsSameAbove(r.ar, n);
  }

  lemma StableAfterExecuting(c: Config, r: Replica, n: int, env: Env)
    requires c.Valid() && Shaped(c, r) && r.lastExecuted == n && n <= r.lastPrepared
    ensures var o := TakeCheckpoint(c, r, n, env);
            && o.r.lastExecuted == n && o.r.log == r.log && SameAbove(r.ar, o.r.ar, n) && SameCourse(r, o.r)
            && SameFill(r, o.r, n)
            && o.out == {CheckpointMsg(n, env.root(n), r.id)}
  {
    var d, k := env.root(n), SlotIndex(c, n);
    var r1 := r.(root := d, records := r.records[k := Some(Record(n, d))],
                 ckpts := r.ckpts[k := StoreInSlot(r.ckpts[k], c.maxVals, n, r.id, d)]);
    StableBehind(c, r1, n, env.mayFetch(n));
    SameAsItself(r.ar, n);
  }

  // ------------------------------------------------------------- the loop

  /** Where the loop stops at once. */
  lemma StopsHere(c: Config, r: Replica, env: Env)
    requires c.Valid() && Shaped(c, r) && Drained(c, r.ar, r, env)
    ensures Executes(c, r, ExecuteCommitted(c, r, env), env)
  {
    CommittedIsReady(c, r.ar, r.lastExecuted + 1);
    assert SameAbove(r.ar, r.ar, r.lastExecuted);
  }

  /** One turn and the rest of the loop are the loop. */
  lemma TurnAndRest(c: Config, r: Replica, one: Outcome, rest: Outcome, env: Env)
    requires c.Valid() && IsCommitted(c, r.ar, r.lastExecuted + 1) && env.accepts(r.lastExecuted + 1)
    requires var n := r.lastExecuted + 1;
             && one.r.lastExecuted == n && one.r.log == r.log + [Executed(n, RequestAt(r.ar, n))]
             && SameAbove(r.ar, one.r.ar, n) && SameCourse(r, one.r) && SameFill(r, one.r, n)
             && one.out == (if n % c.interval == 0 then {CheckpointMsg(n, env.root(n), r.id)} else {})
    requires Executes(c, one.r, rest, env)
    ensures Executes(c, r, Outcome(rest.r, one.out + rest.out), env)
  {
    var e := rest.r;
    RestOfLog(c, r, one.r, e, env);
    CommittedStays(c, r.ar, one.r.ar, one.r.lastExecuted, e.lastExecuted + 1);
    SameAboveMore(r.ar, one.r.ar, e.ar, one.r.lastExecuted, e.lastExecuted);
    RestOfCheckpoints(c, r, one, rest, env);
  }

  lemma RestOfLog(c: Config, r: Replica, one: Replica, e: Replica, env: Env)
    requires IsCommitted(c, r.ar, r.lastExecuted + 1) && env.accepts(r.lastExecuted + 1)
    requires var n := r.lastExecuted + 1;
             one.lastExecuted == n && one.log == r.log + [Executed(n, RequestAt(r.ar, n))] && SameAbove(r.ar, one.ar, n)
    requires Ran(c, one.ar, one, e, env)
    ensures Ran(c, r.ar, r, e, env)
  {
    forall n | r.lastExecuted < n <= e.lastExecuted
      ensures RanAt(c, r.ar, r, e, env, n)
    {
      if n > one.lastExecuted {
        assert RanAt(c, one.ar, one, e, env, n);
        CommittedStays(c, r.ar, one.ar, one.lastExecuted, n);
      } else {
        assert e.log[|r.log|] == one.log[|r.log|];
      }
    }
    assert e.log[..|r.log|] == one.log[..|r.log|] by {
      assert one.log == e.log[..|one.log|];
    }
  }

  lemma RestOfCheckpoints(c: Config, r: Replica, one: Outcome, rest: Outcome, env: Env)
    requires c.Valid() && one.r.lastExecuted == r.lastExecuted + 1 && one.r.id == r.id
    requires var n := r.lastExecuted + 1;
             one.out == (if n % c.interval == 0 then {CheckpointMsg(n, env.root(n), r.id)} else {})
    requires Checkpoints(c, one.r, rest.r, rest.out, env) && one.r.lastExecuted <= rest.r.lastExecuted
    ensures Checkpoints(c, r, rest.r, one.out + rest.out, env)
  {
    forall m | m in rest.out
      ensures m.CheckpointMsg? && IsCheckpoint(c, r, rest.r, env, m.seqno, m)
    {
      assert IsCheckpoint(c, one.r, rest.r, env, m.seqno, m);
    }
  }

  /** The execution loop executes what is stored, committed and accepted, in order, and stops
      only where it must. */
  lemma {:induction false} LoopExecutes(c: Config, r: Replica, env: Env)
    requires c.Valid() && Shaped(c, r)
    ensures Executes(c, r, ExecuteCommitted(c, r, env), env)
    decreases r.lastPrepared - r.lastExecuted
  {
    var n := r.lastExecuted + 1;
    CommittedIsReady(c, r.ar, n);
    if n > r.lastPrepared || !r.ar.ReadyAt(c, n) || !env.accepts(n) {
      StopsHere(c, r, env);
    } else {
      var one := ExecuteOne(c, r, env);
      OneTurn(c, r, env);
      LoopExecutes(c, one.r, env);
      TurnAndRest(c, r, one, ExecuteCommitted(c, one.r, env), env);
    }
  }

  // ---------------------------------------------------------------- votes

  /** A vote of another replica, of the current view and for a seqno in the window. */
  predicate IsTimely(c: Config, r: Replica, v: int, n: int, q: int) {
    v == r.view && r.lastStable < n <= r.lastStable + c.window && 0 <= q < c.n && q != r.id
  }

  /** The digest of the Pre_prepare stored for seqno `n` is `d`. */
  predicate Stores(ar: Region, n: int, d: Digest) {
    ar.head <= n < ar.head + |ar.slots| && ar.slots[n - ar.head].pp.Some? && ar.slots[n - ar.head].pp.value.digest == d
  }

  /** The sender has not voted, and its digest has a value slot or can get one. */
  predicate HasRoomFor(votes: map<int, Digest>, q: int, d: Digest, maxVals: int) {
    q !in votes && (d in votes.Values || |votes.Values| < maxVals)
  }

  /** The replica with another slice for seqno `n`. */
  function WithSlice(r: Replica, n: int, sl: Slice): Replica
    requires r.ar.head <= n < r.ar.head + |r.ar.slots|
  {
    r.(ar := Region(r.ar.head, r.ar.slots[n - r.ar.head := sl]))
  }

  function SliceFor(r: Replica, n: int): Slice
    requires r.ar.head <= n < r.ar.head + |r.ar.slots|
  {
    r.ar.slots[n - r.ar.head]
  }

  ghost predicate HasCommitQuorum(c: Config, votes: map<int, Digest>) {
    exists d :: Support(votes, d) >= 2 * c.f + 1
  }

  /** `o` is `r` having sent `sent`, and having executed what can be if some digest at seqno
      `n` has a commit quorum. */
  ghost predicate RunsIfCommitted(c: Config, r: Replica, n: int, sent: set<Msg>, o: Outcome, env: Env)
    requires c.interval >= 1 && r.ar.head <= n < r.ar.head + |r.ar.slots|
  {
    if HasCommitQuorum(c, SliceFor(r, n).commits)
    then exists run: Outcome :: Executes(c, r, run, env) && o == Outcome(run.r, sent + run.out)
    else o == Outcome(r, sent)
  }

  lemma QuorumIsWinner(c: Config, votes: map<int, Digest>)
    requires c.Valid()
    ensures HasCommitQuorum(c, votes) <==> HasWinner(votes, c.CommitThreshold())
  {
    if HasCommitQuorum(c, votes) {
      var d :| Support(votes, d) >= 2 * c.f + 1;
      var q := Pick(Supporters(votes, d));
      assert Wins(votes, c.CommitThreshold(), d);
    }
    if HasWinner(votes, c.CommitThreshold()) {
      var d :| Wins(votes, c.CommitThreshold(), d);
      assert Support(votes, d) >= 2 * c.f + 1;
    }
  }

  lemma ExecuteIfRuns(c: Config, o: Outcome, n: int, env: Env)
    requires c.Valid() && Shaped(c, o.r) && o.r.ar.InRange(n)
    ensures RunsIfCommitted(c, o.r, n, o.out, ExecuteIfCommitted(c, o, n, env), env)
  {
    QuorumIsWinner(c, o.r.ar.At(n).commits);
    LoopExecutes(c, o.r, env);
    assert Executes(c, o.r, ExecuteCommitted(c, o.r, env), env);
  }

  /** The replica with its own Commit recorded, if there is room. */
  function WithOwnCommit(c: Config, r: Replica, n: int, d: Digest): Replica
    requires r.ar.head <= n < r.ar.head + |r.ar.slots|
  {
    var sl := SliceFor(r, n);
    if HasRoomFor(sl.commits, r.id, d, c.maxVals) then WithSlice(r, n, sl.(commits := sl.commits[r.id := d])) else r
  }

  lemma OwnCommitIs(c: Config, r: Replica, n: int, d: Digest)
    requires c.Valid() && 0 <= r.id < c.n && Stores(r.ar, n, d)
    ensures SendCommit(c, r, n) == Outcome(WithOwnCommit(c, r, n, d), {CommitMsg(r.view, n, d, r.id)})
  {
    var sl := r.ar.At(n);
    assert r.ar.slots[n - r.ar.head := sl] == r.ar.slots;
  }

  /** What a Prepare for digest `d` at seqno `n` does once it makes the slice `sl` prepared:
      the prepared point moves, the own Commit is sent unless it was, and what is committed
      is executed. */
  ghost predicate PreparesNow(c: Config, r: Replica, n: int, d: Digest, sl: Slice, o: Outcome, env: Env)
    requires c.interval >= 1 && r.ar.head <= n < r.ar.head + |r.ar.slots|
  {
    var r2 := WithSlice(r, n, sl).(lastPrepared := Max(r.lastPrepared, n));
    if r.id in sl.commits then RunsIfCommitted(c, r2, n, {}, o, env)
    else RunsIfCommitted(c, WithOwnCommit(c, r2, n, d), n, {CommitMsg(r.view, n, d, r.id)}, o, env)
  }

  lemma OnPreparedDoes(c: Config, r: Replica, n: int, d: Digest, sl: Slice, env: Env)
    requires c.Valid() && Shaped(c, r) && 0 <= r.id < c.n && r.ar.InRange(n) && sl.pp.Some? && sl.pp.value.digest == d
    ensures PreparesNow(c, r, n, d, sl, OnPrepared(c, WithSlice(r, n, sl), n, env), env)
  {
    var r2 := WithSlice(r, n, sl).(lastPrepared := Max(r.lastPrepared, n));
    OwnCommitIs(c, r2, n, d);
    if r.id in sl.commits {
      ExecuteIfRuns(c, Outcome(r2, {}), n, env);
    } else {
      ExecuteIfRuns(c, SendCommit(c, r2, n), n, env);
    }
  }

  ghost predicate PrepareAnswer(c: Config, r: Replica, v: int, n: int, d: Digest, q: int, o: Outcome, env: Env)
    requires c.interval >= 1
  {
    if IsTimely(c, r, v, n, q) && Stores(r.ar, n, d) && q !in SliceFor(r, n).prepares then
      var sl := SliceFor(r, n).(prepares := SliceFor(r, n).prepares[q := d]);
      if |sl.prepares| >= 2 * c.f then PreparesNow(c, r, n, d, sl, o, env)
      else o == Outcome(WithSlice(r, n, sl), {})
    else o == Outcome(r, {})
  }

  /** A Prepare is counted exactly when it is timely, for what is stored, and the first of its
      sender; with 2f of them the seqno is prepared, and otherwise nothing else happens. */
  lemma PrepareIsCounted(c: Config, net: set<Msg>, r: Replica, v: int, n: int, d: Digest, q: int, env: Env)
    requires Sound(c, net, r) && Shaped(c, r)
    ensures PrepareAnswer(c, r, v, n, d, q, HandlePrepare(c, r, v, n, d, q, env), env)
  {
    if IsTimely(c, r, v, n, q) && Stores(r.ar, n, d) {
      SlotOk(c, net, r, n);
      var was := SliceFor(r, n);
      AllForStored(c, was.prepares, q, d);
      if q !in was.prepares {
        var sl := was.(prepares := was.prepares[q := d]);
        assert AddPrepare(c, r.ar, n, q, d) == WithSlice(r, n, sl).ar;
        OnPreparedDoes(c, r, n, d, sl, env);
      }
    }
  }

  /** Where all votes are for one digest every new one is counted for it. */
  lemma AllForStored(c: Config, votes: map<int, Digest>, q: int, d: Digest)
    requires c.Valid() && 0 <= q < c.n && forall k | k in votes :: votes[k] == d
    ensures CanVote(votes, q, d, c.maxVals) <==> q !in votes
    ensures var votes' := votes[q := d]; Wins(votes', c.PrepareThreshold(), d) <==> |votes'| >= 2 * c.f
  {
    forall e | e in votes.Values
      ensures e == d
    {
      var k := Voter(votes, e);
    }
    if d !in votes.Values {
      assert votes.Values == {};
    }
    EverybodyFor(votes[q := d], d);
    assert q in votes[q := d];
  }

  lemma EverybodyFor(votes: map<int, Digest>, d: Digest)
    requires forall k | k in votes :: votes[k] == d
    ensures Support(votes, d) == |votes|
  {
    forall k
      ensures k in Supporters(votes, d) <==> k in votes.Keys
    {
    }
    assert Supporters(votes, d) == votes.Keys;
  }

  /** What a Commit for digest `d` does that turns the slice into `sl`: a prepared seqno that is
      not committed yet has the own Commit repeated, and what is committed is executed. */
  ghost predicate CommitsNow(c: Config, r: Replica, n: int, d: Digest, sl: Slice, o: Outcome, env: Env)
    requires c.interval >= 1 && r.ar.head <= n < r.ar.head + |r.ar.slots|
  {
    var r1 := WithSlice(r, n, sl);
    if sl.pp.Some? && |sl.prepares| >= 2 * c.f && |sl.prepares| >= 1 && !HasCommitQuorum(c, sl.commits) && env.mayResend
    then RunsIfCommitted(c, WithOwnCommit(c, r1, n, d), n, {CommitMsg(r.view, n, d, r.id)}, o, env)
    else RunsIfCommitted(c, r1, n, {}, o, env)
  }

  lemma CommitDoes(c: Config, r: Replica, n: int, d: Digest, sl: Slice, env: Env)
    requires c.Valid() && Shaped(c, r) && 0 <= r.id < c.n && r.ar.InRange(n) && (sl.pp.Some? ==> sl.pp.value.digest == d)
    requires forall q | q in sl.prepares :: sl.pp.Some? && sl.prepares[q] == d
    ensures var r1 := WithSlice(r, n, sl);
            CommitsNow(c, r, n, d, sl, ExecuteIfCommitted(c, ResendCommit(c, r1, n, env.mayResend), n, env), env)
  {
    var r1 := WithSlice(r, n, sl);
    PreparedByCount(c, sl);
    QuorumIsWinner(c, sl.commits);
    if sl.pp.Some? {
      OwnCommitIs(c, r1, n, d);
    }
    ExecuteIfRuns(c, ResendCommit(c, r1, n, env.mayResend), n, env);
  }

  /** A Commit of this sender can be counted for seqno `n`: it is in the window, not against
      what is stored, the first of its sender, and has a value slot. */
  predicate TakesCommit(c: Config, ar: Region, n: int, d: Digest, q: int) {
    && ar.head <= n < ar.head + |ar.slots|
    && var sl := ar.slots[n - ar.head];
       (sl.pp.Some? ==> sl.pp.value.digest == d) && HasRoomFor(sl.commits, q, d, c.maxVals)
  }

  ghost predicate CommitAnswer(c: Config, r: Replica, v: int, n: int, d: Digest, q: int, o: Outcome, env: Env)
    requires c.interval >= 1
  {
    if IsTimely(c, r, v, n, q) && TakesCommit(c, r.ar, n, d, q)
    then CommitsNow(c, r, n, d, SliceFor(r, n).(commits := SliceFor(r, n).commits[q := d]), o, env)
    else o == Outcome(r, {})
  }

  /** A Commit is counted exactly when it is timely and can be counted. */
  lemma CommitIsCounted(c: Config, net: set<Msg>, r: Replica, v: int, n: int, d: Digest, q: int, env: Env)
    requires Sound(c, net, r) && Shaped(c, r)
    ensures CommitAnswer(c, r, v, n, d, q, HandleCommit(c, r, v, n, d, q, env), env)
  {
    if IsTimely(c, r, v, n, q) && TakesCommit(c, r.ar, n, d, q) {
      SlotOk(c, net, r, n);
      var sl := SliceFor(r, n).(commits := SliceFor(r, n).commits[q := d]);
      assert AddCommit(c, r.ar, n, q, d) == WithSlice(r, n, sl).ar;
      CommitDoes(c, r, n, d, sl, env);
    }
  }

  /** A slice whose Prepares are all for the stored digest is prepared when there are 2f. */
  lemma PreparedByCount(c: Config, sl: Slice)
    requires c.Valid() && forall q | q in sl.prepares :: sl.pp.Some? && sl.prepares[q] == sl.pp.value.digest
    ensures sl.pp.Some? ==>
              (Wins(sl.prepares, c.PrepareThreshold(), sl.pp.value.digest) <==> |sl.prepares| >= 2 * c.f && |sl.prepares| >= 1)
  {
    if sl.pp.Some? {
      EverybodyFor(sl.prepares, sl.pp.value.digest);
      if |sl.prepares| >= 1 {
        var q := Pick(sl.prepares.Keys);
      }
    }
  }

  // ------------------------------------------------------- nothing is left over

  /** A loop run from a state in which the next seqno is prepared, committed and accepted
      executes it. */
  lemma RunExecutesNext(c: Config, r: Replica, o: Outcome, env: Env)
    requires c.interval >= 1 && Executes(c, r, o, env)
    requires var n := r.lastExecuted + 1; n <= r.lastPrepared && IsCommitted(c, r.ar, n) && env.accepts(n)
    ensures o.r.lastExecuted >= r.lastExecuted + 1
  {
  }

  /** The next request has been executed, and is the one that was stored. */
  ghost predicate ExecutedNext(r: Replica, e: Replica) {
    var n := r.lastExecuted + 1;
    && r.ar.head <= n < r.ar.head + |r.ar.slots| && SliceFor(r, n).pp.Some?
    && e.lastExecuted >= n && |e.log| > |r.log| && e.log[|r.log|] == Executed(n, RequestAt(r.ar, n))
  }

  lemma IfCommittedThenRuns(c: Config, r: Replica, sent: set<Msg>, o: Outcome, env: Env)
    requires var n := r.lastExecuted + 1;
             && c.interval >= 1 && n <= r.lastPrepared && IsCommitted(c, r.ar, n) && env.accepts(n)
             && RunsIfCommitted(c, r, n, sent, o, env)
    ensures ExecutedNext(r, o.r)
  {
    var n := r.lastExecuted + 1;
    assert HasCommitQuorum(c, SliceFor(r, n).commits);
    var run: Outcome :| Executes(c, r, run, env) && o == Outcome(run.r, sent + run.out);
    RunExecutesNext(c, r, run, env);
    assert RanAt(c, r.ar, r, run.r, env, n);
  }

  /** A vote does not change what is stored or executed. */
  lemma SameNext(r: Replica, r': Replica, e: Replica)
    requires ExecutedNext(r', e) && r'.lastExecuted == r.lastExecuted && r'.log == r.log
    requires var n := r.lastExecuted + 1;
             && r.ar.head == r'.ar.head && |r.ar.slots| == |r'.ar.slots|
             && r.ar.head <= n < r.ar.head + |r.ar.slots| && SliceFor(r', n).pp == SliceFor(r, n).pp
    ensures ExecutedNext(r, e)
  {
  }

  lemma CommitsNowExecutes(c: Config, r: Replica, d: Digest, sl: Slice, o: Outcome, env: Env)
    requires c.Valid() && var n := r.lastExecuted + 1;
             && r.ar.head <= n < r.ar.head + |r.ar.slots| && CommitsNow(c, r, n, d, sl, o, env)
             && n <= r.lastPrepared && env.accepts(n) && sl.pp == SliceFor(r, n).pp
             && sl.pp.Some? && sl.pp.value.digest == d && Support(sl.commits, d) >= 2 * c.f + 1
    ensures ExecutedNext(r, o.r)
  {
    var n := r.lastExecuted + 1;
    assert HasCommitQuorum(c, sl.commits);
    IfCommittedThenRuns(c, WithSlice(r, n, sl), {}, o, env);
    SameNext(r, WithSlice(r, n, sl), o.r);
  }

  lemma PreparesNowExecutes(c: Config, r: Replica, d: Digest, sl: Slice, o: Outcome, env: Env)
    requires c.Valid() && var n := r.lastExecuted + 1;
             && r.ar.head <= n < r.ar.head + |r.ar.slots| && PreparesNow(c, r, n, d, sl, o, env)
             && env.accepts(n) && sl.pp == SliceFor(r, n).pp
             && sl.pp.Some? && sl.pp.value.digest == d && Support(sl.commits, d) >= 2 * c.f + 1
    ensures ExecutedNext(r, o.r)
  {
    var n := r.lastExecuted + 1;
    var r2 := WithSlice(r, n, sl).(lastPrepared := Max(r.lastPrepared, n));
    if r.id in sl.commits {
      IfCommittedThenRuns(c, r2, {}, o, env);
      SameNext(r, r2, o.r);
    } else {
      MoreSupport(sl.commits, r.id, d);
      IfCommittedThenRuns(c, WithOwnCommit(c, r2, n, d), {CommitMsg(r.view, n, d, r.id)}, o, env);
      SameNext(r, WithOwnCommit(c, r2, n, d), o.r);
    }
  }

  /** Whichever vote is the last one needed: a counted Commit that leaves the next seqno
      prepared, committed for what is stored and accepted executes its request. */
  lemma LastCommitExecutes(c: Config, net: set<Msg>, r: Replica, v: int, n: int, d: Digest, q: int, env: Env)
    requires Sound(c, net, r) && Shaped(c, r) && n == r.lastExecuted + 1
    requires IsTimely(c, r, v, n, q) && TakesCommit(c, r.ar, n, d, q) && n <= r.lastPrepared && env.accepts(n)
    requires Stores(r.ar, n, d) && Support(SliceFor(r, n).commits[q := d], d) >= 2 * c.f + 1
    ensures ExecutedNext(r, HandleCommit(c, r, v, n, d, q, env).r)
  {
    CommitIsCounted(c, net, r, v, n, d, q, env);
    CommitAnswerExecutes(c, r, v, n, d, q, HandleCommit(c, r, v, n, d, q, env), env);
  }

  lemma CommitAnswerExecutes(c: Config, r: Replica, v: int, n: int, d: Digest, q: int, o: Outcome, env: Env)
    requires c.Valid() && n == r.lastExecuted + 1 && CommitAnswer(c, r, v, n, d, q, o, env)
    requires IsTimely(c, r, v, n, q) && TakesCommit(c, r.ar, n, d, q) && n <= r.lastPrepared && env.accepts(n)
    requires Stores(r.ar, n, d) && Support(SliceFor(r, n).commits[q := d], d) >= 2 * c.f + 1
    ensures ExecutedNext(r, o.r)
  {
    CommitsNowExecutes(c, r, d, SliceFor(r, n).(commits := SliceFor(r, n).commits[q := d]), o, env);
  }

  /** The same for a Prepare that comes after all Commits. */
  lemma LastPrepareExecutes(c: Config, net: set<Msg>, r: Replica, v: int, n: int, d: Digest, q: int, env: Env)
    requires Sound(c, net, r) && Shaped(c, r) && n == r.lastExecuted + 1
    requires IsTimely(c, r, v, n, q) && Stores(r.ar, n, d) && q !in SliceFor(r, n).prepares && env.accepts(n)
    requires |SliceFor(r, n).prepares[q := d]| >= 2 * c.f && Support(SliceFor(r, n).commits, d) >= 2 * c.f + 1
    ensures ExecutedNext(r, HandlePrepare(c, r, v, n, d, q, env).r)
  {
    PrepareIsCounted(c, net, r, v, n, d, q, env);
    PrepareAnswerExecutes(c, r, v, n, d, q, HandlePrepare(c, r, v, n, d, q, env), env);
  }

  lemma PrepareAnswerExecutes(c: Config, r: Replica, v: int, n: int, d: Digest, q: int, o: Outcome, env: Env)
    requires c.Valid() && n == r.lastExecuted + 1 && PrepareAnswer(c, r, v, n, d, q, o, env)
    requires IsTimely(c, r, v, n, q) && Stores(r.ar, n, d) && q !in SliceFor(r, n).prepares && env.accepts(n)
    requires |SliceFor(r, n).prepares[q := d]| >= 2 * c.f && Support(SliceFor(r, n).commits, d) >= 2 * c.f + 1
    ensures ExecutedNext(r, o.r)
  {
    PreparesNowExecutes(c, r, d, SliceFor(r, n).(prepares := SliceFor(r, n).prepares[q := d]), o, env);
  }

  lemma MoreSupport(votes: map<int, Digest>, q: int, d: Digest)
    requires q !in votes
    ensures Support(votes[q := d], d) >= Support(votes, d)
  {
    SubsetSize(Supporters(votes, d), Supporters(votes[q := d], d));
  }

  // -------------------------------------------------------------- the log

  /** Requests stored before have been executed one after the other. */
  ghost predicate Extended(r: Replica, e: Replica) {
    && r.lastExecuted <= e.lastExecuted
    && |e.log| == |r.log| + (e.lastExecuted - r.lastExecuted)
    && e.log[..|r.log|] == r.log
    && forall n | r.lastExecuted < n <= e.lastExecuted :: ExtendedAt(r, e, n)
  }

  ghost predicate ExtendedAt(r: Replica, e: Replica, n: int)
    requires r.lastExecuted < n <= e.lastExecuted && |e.log| == |r.log| + (e.lastExecuted - r.lastExecuted)
  {
    && r.ar.head <= n < r.ar.head + |r.ar.slots| && SliceFor(r, n).pp.Some?
    && e.log[|r.log| + (n - r.lastExecuted - 1)] == Executed(n, RequestAt(r.ar, n))
  }

  /** The stable point has moved past the execution point, which jumps to it. */
  ghost predicate Skipped(r: Replica, e: Replica) {
    && r.lastStable < e.lastStable && r.lastExecuted < e.lastStable
    && e.lastExecuted == e.lastStable && e.log == r.log + [Jumped(e.lastStable)]
  }

  /** The same Pre_prepares are stored, whatever votes there are. */
  ghost predicate SamePps(ar: Region, ar': Region) {
    && ar'.head == ar.head && |ar'.slots| == |ar.slots|
    && forall k | 0 <= k < |ar.slots| :: ar'.slots[k].pp == ar.slots[k].pp
  }

  lemma OwnCommitSamePps(c: Config, r: Replica, r1: Replica, n: int, d: Digest)
    requires r1.ar.head <= n < r1.ar.head + |r1.ar.slots| && SamePps(r.ar, r1.ar)
    ensures SamePps(r.ar, WithOwnCommit(c, r1, n, d).ar)
  {
  }

  lemma RunExtends(c: Config, r: Replica, r1: Replica, e: Replica, env: Env)
    requires r1.lastExecuted == r.lastExecuted && r1.log == r.log && Ran(c, r1.ar, r1, e, env)
    requires SamePps(r.ar, r1.ar)
    ensures Extended(r, e)
  {
    forall n | r.lastExecuted < n <= e.lastExecuted
      ensures ExtendedAt(r, e, n)
    {
      assert RanAt(c, r1.ar, r1, e, env, n);
    }
  }

  lemma IfRunsExtends(c: Config, r: Replica, r1: Replica, n: int, sent: set<Msg>, o: Outcome, env: Env)
    requires c.interval >= 1 && r1.ar.head <= n < r1.ar.head + |r1.ar.slots| && RunsIfCommitted(c, r1, n, sent, o, env)
    requires r1.lastExecuted == r.lastExecuted && r1.log == r.log
    requires SamePps(r.ar, r1.ar)
    ensures Extended(r, o.r)
  {
    if HasCommitQuorum(c, SliceFor(r1, n).commits) {
      var run: Outcome :| Executes(c, r1, run, env) && o == Outcome(run.r, sent + run.out);
      RunExtends(c, r, r1, run.r, env);
    }
  }

  lemma PrepareAnswerExtends(c: Config, r: Replica, v: int, n: int, d: Digest, q: int, o: Outcome, env: Env)
    requires c.Valid() && PrepareAnswer(c, r, v, n, d, q, o, env)
    ensures Extended(r, o.r)
  {
    if IsTimely(c, r, v, n, q) && Stores(r.ar, n, d) && q !in SliceFor(r, n).prepares {
      var sl := SliceFor(r, n).(prepares := SliceFor(r, n).prepares[q := d]);
      if |sl.prepares| >= 2 * c.f {
        PreparesNowExtends(c, r, n, d, sl, o, env);
      }
    }
  }

  lemma PreparesNowExtends(c: Config, r: Replica, n: int, d: Digest, sl: Slice, o: Outcome, env: Env)
    requires c.interval >= 1 && r.ar.head <= n < r.ar.head + |r.ar.slots| && sl.pp == SliceFor(r, n).pp
    requires PreparesNow(c, r, n, d, sl, o, env)
    ensures Extended(r, o.r)
  {
    var r2 := WithSlice(r, n, sl).(lastPrepared := Max(r.lastPrepared, n));
    if r.id in sl.commits {
      IfRunsExtends(c, r, r2, n, {}, o, env);
    } else {
      OwnCommitSamePps(c, r, r2, n, d);
      IfRunsExtends(c, r, WithOwnCommit(c, r2, n, d), n, {CommitMsg(r.view, n, d, r.id)}, o, env);
    }
  }

  lemma CommitAnswerExtends(c: Config, r: Replica, v: int, n: int, d: Digest, q: int, o: Outcome, env: Env)
    requires c.Valid() && CommitAnswer(c, r, v, n, d, q, o, env)
    ensures Extended(r, o.r)
  {
    if IsTimely(c, r, v, n, q) && TakesCommit(c, r.ar, n, d, q) {
      var r1 := WithSlice(r, n, SliceFor(r, n).(commits := SliceFor(r, n).commits[q := d]));
      var sl := SliceFor(r1, n);
      if sl.pp.Some? && |sl.prepares| >= 2 * c.f && |sl.prepares| >= 1 && !HasCommitQuorum(c, sl.commits) && env.mayResend {
        OwnCommitSamePps(c, r, r1, n, d);
        IfRunsExtends(c, r, WithOwnCommit(c, r1, n, d), n, {CommitMsg(r.view, n, d, r.id)}, o, env);
      } else {
        IfRunsExtends(c, r, r1, n, {}, o, env);
      }
    }
  }

  lemma StableExtendsOrSkips(c: Config, r: Replica, n: int, mayFetch: bool)
    requires c.Valid() && Shaped(c, r)
    ensures var e := MarkStable(c, r, n, mayFetch); Extended(r, e) || Skipped(r, e)
  {
  }

  lemma InstallExtendsOrSkips(c: Config, r: Replica, nv: NewView)
    requires r.lastStable <= r.lastExecuted
    ensures var e := InstallNewView(c, r, nv); Extended(r, e) || Skipped(r, e)
  {
  }

  lemma PrepareExtends(c: Config, net: set<Msg>, r: Replica, v: int, n: int, d: Digest, q: int, env: Env)
    requires Sound(c, net, r) && Shaped(c, r)
    ensures Extended(r, HandlePrepare(c, r, v, n, d, q, env).r)
  {
    PrepareIsCounted(c, net, r, v, n, d, q, env);
    PrepareAnswerExtends(c, r, v, n, d, q, HandlePrepare(c, r, v, n, d, q, env), env);
  }

  lemma CommitExtends(c: Config, net: set<Msg>, r: Replica, v: int, n: int, d: Digest, q: int, env: Env)
    requires Sound(c, net, r) && Shaped(c, r)
    ensures Extended(r, HandleCommit(c, r, v, n, d, q, env).r)
  {
    CommitIsCounted(c, net, r, v, n, d, q, env);
    CommitAnswerExtends(c, r, v, n, d, q, HandleCommit(c, r, v, n, d, q, env), env);
  }

  lemma PrePrepareExtends(c: Config, net: set<Msg>, r: Replica, pp: PrePrepare, p: int)
    requires Sound(c, net, r)
    ensures Extended(r, HandlePrePrepare(c, r, pp, p).r)
  {
  }

  lemma CheckpointExtendsOrSkips(c: Config, r: Replica, n: int, d: Digest, q: int, env: Env)
    requires c.Valid() && Shaped(c, r)
    ensures var e := HandleCheckpoint(c, r, n, d, q, env); Extended(r, e) || Skipped(r, e)
  {
    var k := SlotIndex(c, n);
    StableExtendsOrSkips(c, r.(ckpts := r.ckpts[k := StoreInSlot(r.ckpts[k], c.maxVals, n, q, d)]), n, env.mayFetch(n));
  }

  lemma ViewChangeExtendsOrSkips(c: Config, net: set<Msg>, r: Replica, vc: ViewChange)
    requires Sound(c, net, r)
    ensures var e := HandleViewChange(c, r, vc).r; Extended(r, e) || Skipped(r, e)
  {
    var vi := Collect(r.vi, vc.id, vc).0;
    InstallExtendsOrSkips(c, r.(vi := vi), Build(c, vi, r.view));
  }

  lemma MessageExtendsOrSkips(c: Config, net: set<Msg>, r: Replica, m: Msg, env: Env)
    requires Sound(c, net, r) && Shaped(c, r)
    ensures var e := Receive(c, r, m, env).r; Extended(r, e) || Skipped(r, e)
  {
    match m {
      case PrePrepareMsg(pp, p) => PrePrepareExtends(c, net, r, pp, p);
      case PrepareMsg(v, n, d, q) => PrepareExtends(c, net, r, v, n, d, q, env);
      case CommitMsg(v, n, d, q) => CommitExtends(c, net, r, v, n, d, q, env);
      case CheckpointMsg(n, d, q) => CheckpointExtendsOrSkips(c, r, n, d, q, env);
      case ViewChangeMsg(vc) => ViewChangeExtendsOrSkips(c, net, r, vc);
      case NewViewMsg(nv, _) => InstallExtendsOrSkips(c, r, nv);
    }
  }

  /** Whatever happens to a replica, its log grows by requests that it had stored, executed in
      order, or by one jump to the stable point to which it moves. */
  lemma ReactExtendsOrSkips(c: Config, net: set<Msg>, r: Replica, ev: Event, env: Env)
    requires Sound(c, net, r) && Shaped(c, r)
    ensures var e := React(c, r, ev, env).r; Extended(r, e) || Skipped(r, e)
  {
    match ev {
      case Deliver(m) => MessageExtendsOrSkips(c, net, r, m, env);
      case EndFetch(root) =>
        StableExtendsOrSkips(c, r.(inFetch := false, root := root), r.fetchSeqno, env.mayFetch(r.fetchSeqno));
      case DeliverStatus(_) =>
      case Request(_, _) =>
      case ViewTimeout =>
      case RepeatCommit(_) =>
      case RepeatCheckpoint(_) =>
      case BeginFetch(_) =>
      case FetchData(_) =>
    }
  }

  /** A jump in a log was a step that moved the stable point to its seqno; every other entry
      is a request that the replica had stored for its seqno just before. */
  lemma EntriesHaveCauses(c: Config, faulty: set<int>, run: seq<Sys>, labels: seq<Label>, a: nat, i: int)
    requires IsRun(c, faulty, run, labels) && a < |labels| && i in run[a].replicas
    ensures i in run[a + 1].replicas
    ensures var r, e := run[a].replicas[i], run[a + 1].replicas[i];
            Extended(r, e) || Skipped(r, e)
  {
    RunStep(c, faulty, run, labels, a);
    match labels[a] {
      case Forge(_) =>
      case Act(j, ev, env) =>
        if j == i {
          ReactExtendsOrSkips(c, run[a].net, run[a].replicas[i], ev, env);
        }
    }
  }
}
