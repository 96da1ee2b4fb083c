/** The replicated system: correct replicas reacting to a growing set of authenticated
    messages, and faulty ones adding whatever they can authenticate. */
module Protocol {
  import opened Types
  import opened Quorums
  import opened ViewChangeSpec
  import opened ReplicaSpec

  /** Correct replicas by id, and every message ever sent. */
  datatype Sys = Sys(replicas: map<int, Replica>, net: set<Msg>)

  datatype Event =
    | Deliver(m: Msg)
    | DeliverStatus(st: Status)
    | Request(rset: RequestSet, ndet: Bytes)
    | ViewTimeout
    | RepeatCommit(n: int)
    | RepeatCheckpoint(n: int)
    | BeginFetch(n: int)
    | FetchData(root: Digest)
    | EndFetch(root: Digest)

  datatype Label = Act(i: int, ev: Event, env: Env) | Forge(m: Msg)

  ghost function Receive(c: Config, r: Replica, m: Msg, env: Env): Outcome
    requires c.Valid() && Shaped(c, r)
  {
    match m
    case PrePrepareMsg(pp, p) => HandlePrePrepare(c, r, pp, p)
    case PrepareMsg(v, n, d, q) => HandlePrepare(c, r, v, n, d, q, env)
    case CommitMsg(v, n, d, q) => HandleCommit(c, r, v, n, d, q, env)
    case CheckpointMsg(n, d, q) => Outcome(HandleCheckpoint(c, r, n, d, q, env), {})
    case ViewChangeMsg(vc) => HandleViewChange(c, r, vc)
    case NewViewMsg(nv, p) => Outcome(HandleNewView(c, r, nv, p), {})
  }

  ghost function React(c: Config, r: Replica, ev: Event, env: Env): Outcome
    requires c.Valid() && Shaped(c, r)
  {
    match ev
    case Deliver(m) => Receive(c, r, m, env)
    case DeliverStatus(st) => Outcome(HandleStatusView(c, r, st), {})
    case Request(rset, ndet) => Propose(c, r, rset, ndet)
    case ViewTimeout => SendViewChange(c, r)
    case RepeatCommit(n) => SendCommit(c, r, n)
    case RepeatCheckpoint(n) => Outcome(r, ResendCheckpoint(c, r, n))
    case BeginFetch(n) => Outcome(if n > r.lastStable then r.(inFetch := true, fetchSeqno := n) else r, {})
    case FetchData(root) => Outcome(if r.inFetch then r.(root := root) else r, {})
    case EndFetch(root) => Outcome(FinishFetch(c, r, root, env), {})
  }

  /** The value an event directly assigns to the window head, if it does. */
  function HeadTarget(c: Config, r: Replica, ev: Event): Option<int>
    requires c.Valid()
  {
    match ev
    case Deliver(PrePrepareMsg(pp, p)) =>
      if PassesWindow(c, r, pp, p) && pp.view > r.view then Some(r.lastStable + 1) else None
    case Deliver(ViewChangeMsg(vc)) =>
      if !(0 <= vc.id < c.n) then None
      else if CompletesViewChange(c, r, vc) then Some(MinBound(c, Collect(r.vi, vc.id, vc).0.received) + 1)
      else if !Collect(r.vi, vc.id, vc).1 && vc.view > r.view then Some(r.lastStable + 1)
      else None
    case Deliver(NewViewMsg(nv, p)) => if AcceptsNewView(c, r, nv, p) then Some(nv.min + 1) else None
    case DeliverStatus(st) => if AcceptsStatusView(c, r, st) then Some(r.lastStable + 1) else None
    case _ => None
  }

  /** The direct assignments to the window head move it forward or not at all.  A caller
      can evaluate this before the call. */
  predicate KeepsHead(c: Config, r: Replica, ev: Event)
    requires c.Valid()
  {
    var target := HeadTarget(c, r, ev);
    target.Some? ==> r.ar.head <= target.value
  }

  ghost predicate Init(c: Config, faulty: set<int>, s: Sys)
    requires c.Valid()
  {
    && s.net == {}
    && s.replicas.Keys == Upto(c.n) - faulty
    && forall i | i in s.replicas :: s.replicas[i] == Boot(c, i)
  }

  ghost predicate Next(c: Config, faulty: set<int>, s: Sys, l: Label, s': Sys)
    requires c.Valid()
  {
    match l
    case Forge(m) => m.Sender() in faulty && s' == Sys(s.replicas, s.net + {m})
    case Act(i, ev, env) =>
      && i in s.replicas
      && Shaped(c, s.replicas[i])
      && (ev.Deliver? ==> ev.m in s.net)
      && KeepsHead(c, s.replicas[i], ev)
      && var o := React(c, s.replicas[i], ev, env);
         s' == Sys(s.replicas[i := o.r], s.net + o.out)
  }

  /** At most f of the n replicas are faulty. */
  ghost predicate Setting(c: Config, faulty: set<int>) {
    c.Valid() && faulty <= Upto(c.n) && |faulty| <= c.f
  }

  /** A run: the states a system goes through under the given labels. */
  ghost predicate IsRun(c: Config, faulty: set<int>, run: seq<Sys>, labels: seq<Label>) {
    && Setting(c, faulty)
    && |run| == |labels| + 1
    && Init(c, faulty, run[0])
    && forall k | 0 <= k < |labels| :: Next(c, faulty, run[k], labels[k], run[k + 1])
  }

  ghost predicate EndsIn(c: Config, faulty: set<int>, run: seq<Sys>, labels: seq<Label>, s: Sys) {
    IsRun(c, faulty, run, labels) && run[|run| - 1] == s
  }

  /** Some run ends in this state. */
  ghost predicate Reachable(c: Config, faulty: set<int>, s: Sys) {
    exists run, labels :: EndsIn(c, faulty, run, labels, s)
  }

  /** The system before anything has happened. */
  ghost function Start(c: Config, faulty: set<int>): Sys
    requires c.Valid()
  {
    Sys(map i | i in Upto(c.n) - faulty :: Boot(c, i), {})
  }

  lemma StartIsReachable(c: Config, faulty: set<int>)
    requires Setting(c, faulty)
    ensures Reachable(c, faulty, Start(c, faulty))
  {
    assert EndsIn(c, faulty, [Start(c, faulty)], [], Start(c, faulty));
  }

  /** One more step at the end of a run. */
  lemma OneMoreStep(c: Config, faulty: set<int>, s: Sys, l: Label, s': Sys)
    requires Reachable(c, faulty, s) && c.Valid() && Next(c, faulty, s, l, s')
    ensures Reachable(c, faulty, s')
  {
    var run, labels :| EndsIn(c, faulty, run, labels, s);
    var run', labels' := run + [s'], labels + [l];
    forall k | 0 <= k < |labels'|
      ensures Next(c, faulty, run'[k], labels'[k], run'[k + 1])
    {
      if k < |labels| {
        SameStep(c, faulty, run[k], labels[k], run[k + 1], run'[k], labels'[k], run'[k + 1]);
      } else {
        SameStep(c, faulty, s, l, s', run'[k], labels'[k], run'[k + 1]);
      }
    }
    assert EndsIn(c, faulty, run', labels', s');
  }

  lemma SameStep(c: Config, faulty: set<int>, s: Sys, l: Label, s': Sys, t: Sys, m: Label, t': Sys)
    requires c.Valid() && Next(c, faulty, s, l, s') && s == t && l == m && s' == t'
    ensures Next(c, faulty, t, m, t')
  {
  }

  /** Only the replicas of `group` have moved. */
  ghost predicate Moved(s: Sys, s': Sys, group: set<int>) {
    && s.net <= s'.net
    && s'.replicas.Keys == s.replicas.Keys
    && forall i | i in s.replicas && i !in group :: s'.replicas[i] == s.replicas[i]
  }

  /** What replica `r` makes of an event that may happen to it. */
  ghost predicate Makes(c: Config, r: Replica, ev: Event, env: Env, o: Outcome) {
    c.Valid() && Shaped(c, r) && KeepsHead(c, r, ev) && o == React(c, r, ev, env)
  }

  lemma StepOf(c: Config, faulty: set<int>, s: Sys, i: int, r: Replica, ev: Event, env: Env, o: Outcome) returns (s': Sys)
    requires i in s.replicas && s.replicas[i] == r && Makes(c, r, ev, env, o)
    requires ev.Deliver? ==> ev.m in s.net
    ensures Next(c, faulty, s, Act(i, ev, env), s') && Moved(s, s', {i})
    ensures s'.replicas[i] == o.r && o.out <= s'.net
  {
    s' := Sys(s.replicas[i := o.r], s.net + o.out);
  }

  /** The step of one replica reacting to an event. */
  lemma Reacts(c: Config, faulty: set<int>, s: Sys, i: int, r: Replica, ev: Event, env: Env, o: Outcome) returns (s': Sys)
    requires Reachable(c, faulty, s) && i in s.replicas && s.replicas[i] == r && Makes(c, r, ev, env, o)
    requires ev.Deliver? ==> ev.m in s.net
    ensures Reachable(c, faulty, s') && Moved(s, s', {i})
    ensures s'.replicas[i] == o.r && o.out <= s'.net
  {
    s' := StepOf(c, faulty, s, i, r, ev, env, o);
    OneMoreStep(c, faulty, s, Act(i, ev, env), s');
  }

  /** Faulty replicas sending any messages of theirs. */
  lemma {:induction false} ForgeAll(c: Config, faulty: set<int>, s: Sys, ms: set<Msg>) returns (s': Sys)
    requires Reachable(c, faulty, s) && c.Valid()
    requires forall m | m in ms :: m.Sender() in faulty
    ensures s' == Sys(s.replicas, s.net + ms)
    ensures Reachable(c, faulty, s')
    decreases |ms|
  {
    if |ms| == 0 {
      s' := s;
    } else {
      var m := Pick(ms);
      var s1 := Sys(s.replicas, s.net + {m});
      OneMoreStep(c, faulty, s, Forge(m), s1);
      s' := ForgeAll(c, faulty, s1, ms - {m});
      assert s1.net + (ms - {m}) == s.net + ms;
    }
  }
}
