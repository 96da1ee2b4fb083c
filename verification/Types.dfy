/** Messages, digests and protocol parameters shared by every component. */
module Types {
  datatype Option<+T> = None | Some(value: T)

  type Bytes = seq<int>

  /** A client request as it is embedded in a Pre_prepare.  `signed` says whether
      the client's signature over the request verifies. */
  datatype Request = Request(cid: int, rid: int, command: Bytes, signed: bool)

  /** The request set of a Pre_prepare: nothing, bytes that do not parse, or a request. */
  datatype RequestSet = NoRequest | Garbled(bytes: Bytes) | Holds(request: Request)

  /** SHA-256 idealised: one constructor per hashed thing, so hashing is injective
      and never yields the all-zero digest of freshly cleared memory. */
  datatype Digest =
    | Zero
    | OfRequests(rset: RequestSet)
    | OfBlock(block: Bytes)
    | OfNode(children: seq<Digest>)

  /** Compile-time and start-up parameters.  `window`, `interval`, `maxVals` are
      TBFT_WINDOW_SIZE, TBFT_CHECKPOINT_INTERVAL and TBFT_CERT_MAX_VALS. */
  datatype Config = Config(n: int, f: int, principals: int,
                           window: int, interval: int, maxVals: int, maxReqs: int, maxProofs: int)
  {
    ghost predicate Valid() {
      && 0 <= f
      && 1 <= n <= 3 * f + 1
      && n <= principals
      && n <= 64
      && 1 <= interval < window
      && 1 <= maxVals
      && 0 <= maxReqs && 0 <= maxProofs
    }

    function PrepareThreshold(): int { 2 * f }

    function CommitThreshold(): int { 2 * f + 1 }

    function CheckpointSlots(): int
      requires interval >= 1
    {
      window / interval + 2
    }

    function Primary(v: int): int
      requires n >= 1
    {
      v % n
    }
  }

  datatype PrePrepare = PrePrepare(view: int, seqno: int, digest: Digest, rset: RequestSet, ndet: Bytes)

  /** One prepared entry of a View_change, or one proof of a New_view. */
  datatype ReqInfo = ReqInfo(seqno: int, lastView: int, digest: Digest)

  datatype ViewChange = ViewChange(view: int, ls: int, reqs: seq<ReqInfo>, id: int)

  datatype NewView = NewView(view: int, min: int, max: int, proofs: seq<ReqInfo>)

  /** An authenticated message: the MAC or signature over it verifies for `Sender()`. */
  datatype Msg =
    | PrePrepareMsg(pp: PrePrepare, primary: int)
    | PrepareMsg(view: int, seqno: int, digest: Digest, id: int)
    | CommitMsg(view: int, seqno: int, digest: Digest, id: int)
    | CheckpointMsg(seqno: int, digest: Digest, id: int)
    | ViewChangeMsg(vc: ViewChange)
    | NewViewMsg(nv: NewView, primary: int)
  {
    function Sender(): int {
      match this
      case PrePrepareMsg(_, p) => p
      case PrepareMsg(_, _, _, i) => i
      case CommitMsg(_, _, _, i) => i
      case CheckpointMsg(_, _, i) => i
      case ViewChangeMsg(vc) => vc.id
      case NewViewMsg(_, p) => p
    }
  }

  /** A Status message; it carries no authenticator at all. */
  datatype Status = Status(view: int, lastStable: int, lastExecuted: int, id: int)

  function Max(a: int, b: int): int { if a < b then b else a }
}

/** Counting votes, and the intersection of two quorums. */
module Quorums {
  import opened Types

  /** The senders whose vote in `votes` is `d`. */
  function Supporters<V(==)>(votes: map<int, V>, d: V): set<int> {
    set s | s in votes && votes[s] == d
  }

  function Support<V(==)>(votes: map<int, V>, d: V): nat {
    |Supporters(votes, d)|
  }

  /** `d` has been voted for and has reached the threshold. */
  predicate Wins<V(==)>(votes: map<int, V>, threshold: int, d: V) {
    (exists q :: q in votes && votes[q] == d) && Support(votes, d) >= threshold
  }

  ghost predicate HasWinner<V(!new)>(votes: map<int, V>, threshold: int) {
    exists d :: Wins(votes, threshold, d)
  }

  /** The identifiers 0..n-1. */
  function Upto(n: nat): (ids: set<int>)
    ensures forall i :: i in ids <==> 0 <= i < n
    ensures |ids| == n
  {
    if n == 0 then {} else Upto(n - 1) + {n - 1}
  }

  lemma SubsetSize<T>(a: set<T>, b: set<T>)
    requires a <= b
    ensures |a| <= |b|
  {
    assert b == a + (b - a);
  }

  lemma SameSize<T>(a: set<T>, b: set<T>)
    requires a <= b
    ensures |a| == |b| <==> a == b
  {
    assert b == a + (b - a);
    assert |b| == |a| + |b - a|;
  }

  lemma UnionSize<T>(a: set<T>, b: set<T>)
    ensures |a + b| + |a * b| == |a| + |b|
  {
    assert a + b == a + (b - a);
    assert b == (b - a) + a * b;
  }

  /** Two sets of 2f+1 among at most 3f+1 replicas share one that is not faulty. */
  lemma QuorumsMeet(n: nat, f: nat, faulty: set<int>, a: set<int>, b: set<int>) returns (x: int)
    requires n <= 3 * f + 1 && |faulty| <= f
    requires a <= Upto(n) && b <= Upto(n)
    requires |a| >= 2 * f + 1 && |b| >= 2 * f + 1
    ensures x in a && x in b && x !in faulty
  {
    UnionSize(a, b);
    SubsetSize(a + b, Upto(n));
    if a * b <= faulty {
      SubsetSize(a * b, faulty);
      assert false;
    }
    x :| x in a * b && x !in faulty;
  }

  /** A set of more than f replicas contains one that is not faulty. */
  lemma SomeCorrect(f: nat, faulty: set<int>, a: set<int>) returns (x: int)
    requires |faulty| <= f < |a|
    ensures x in a && x !in faulty
  {
    if forall y :: y in a ==> y in faulty {
      SubsetSize(a, faulty);
      assert false;
    }
    x :| x in a && x !in faulty;
  }

  /** Among at most 3f+1 voters no two values can both reach 2f+1. */
  lemma WinnerIsUnique<V>(votes: map<int, V>, n: nat, f: nat, d: V, e: V)
    requires votes.Keys <= Upto(n) && n <= 3 * f + 1
    requires Wins(votes, 2 * f + 1, d) && Wins(votes, 2 * f + 1, e)
    ensures d == e
  {
    var x := QuorumsMeet(n, f, {}, Supporters(votes, d), Supporters(votes, e));
  }

  lemma Pick<T>(s: set<T>) returns (x: T)
    requires |s| >= 1
    ensures x in s
  {
    x :| x in s;
  }

  function Elements<T>(s: seq<T>): set<T> { set x | x in s }

  lemma {:induction false} DistinctCount<T>(s: seq<T>)
    requires forall i, j | 0 <= i < j < |s| :: s[i] != s[j]
    ensures |Elements(s)| == |s|
  {
    if s != [] {
      var rest := s[..|s| - 1];
      DistinctCount(rest);
      assert Elements(s) == Elements(rest) + {s[|s| - 1]};
    }
  }
}
