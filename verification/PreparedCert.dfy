/** A Pre_prepare together with the Prepares collected for it. */
module PreparedCerts {
  import opened Types
  import opened Quorums
  import opened ReplicaSpec
  import opened Certificates

  /** No Prepare is held for anything but the digest of the Pre_prepare. */
  predicate PreparesMatch(pp: Option<PrePrepare>, prepares: map<int, Digest>) {
    match pp
    case None => prepares == map[]
    case Some(p) => forall q | q in prepares :: prepares[q] == p.digest
  }

  /** A value other than the Pre_prepare's digest has a quorum. */
  ghost predicate HasOtherWinner(pp: Option<PrePrepare>, prepares: map<int, Digest>, threshold: int) {
    exists e :: Wins(prepares, threshold, e) && (pp.Some? ==> e != pp.value.digest)
  }

  lemma MatchingHasOneWinner(pp: Option<PrePrepare>, prepares: map<int, Digest>, threshold: int)
    requires PreparesMatch(pp, prepares)
    ensures !HasOtherWinner(pp, prepares, threshold)
  {
    forall e | Wins(prepares, threshold, e)
      ensures pp.Some? && e == pp.value.digest
    {
      var q :| q in prepares.Keys && prepares[q] == e;
    }
  }

  /** From f = 2 on two values cannot both reach 2f among 3f+1 voters. */
  lemma LargerGroupsHaveOneWinner(c: Config, pp: Option<PrePrepare>, prepares: map<int, Digest>)
    requires c.Valid() && c.f >= 2 && prepares.Keys <= Upto(c.n)
    requires pp.Some? && Wins(prepares, c.PrepareThreshold(), pp.value.digest)
    ensures !HasOtherWinner(pp, prepares, c.PrepareThreshold())
  {
    var d := pp.value.digest;
    forall e | Wins(prepares, c.PrepareThreshold(), e)
      ensures e == d
    {
      if e != d {
        var a, b := Supporters(prepares, d), Supporters(prepares, e);
        UnionSize(a, b);
        assert a * b == {};
        SubsetSize(a + b, Upto(c.n));
      }
    }
  }

  class PreparedCert {
    var pp: Option<PrePrepare>
    const pc: Certificate
    ghost const Repr: set<object>

    ghost predicate Valid()
      reads Repr
    {
      && Repr == {this} + pc.Repr
      && this !in pc.Repr
      && pc.Valid()
    }

    constructor (maxVals: int, threshold: int)
      requires maxVals >= 1
      ensures Valid() && fresh(Repr)
      ensures pp == None && pc.votes == map[] && pc.MaxVals() == maxVals && pc.threshold == threshold
    {
      var cert := new Certificate(maxVals, threshold);
      pc, pp := cert, None;
      Repr := {this} + cert.Repr;
    }

    method Clear()
      requires Valid()
      modifies Repr
      ensures Valid() && pp == None && pc.votes == map[]
    {
      pp := None;
      pc.Clear();
    }

    /** tbft_prepared_cert_add_pp, its three branches in order. */
    method AddPp(p: PrePrepare) returns (ok: bool)
      requires Valid()
      modifies this
      ensures Valid() && pc.votes == old(pc.votes)
      ensures ok == CanStorePp(old(pp), p)
      ensures pp == if ok then Some(p) else old(pp)
    {
      if pp.Some? {
        if pp.value.seqno != p.seqno {
          pp := Some(p);
          return true;
        }
        if pp.value.digest == p.digest && p.view > pp.value.view {
          pp := Some(p);
          return true;
        }
        return false;
      }
      pp := Some(p);
      ok := true;
    }

    /** tbft_prepared_cert_is_complete: the first value with a quorum has to be the digest
        of the Pre_prepare, in the order of their first votes.  Without a quorum for another
        value this is the same as a quorum for that digest. */
    method IsComplete() returns (r: bool)
      requires Valid()
      ensures r <==> pp.Some? && FirstWinner(pc.Values(), pc.votes, pc.threshold) == Some(pp.value.digest)
      ensures r ==> pp.Some? && Wins(pc.votes, pc.threshold, pp.value.digest)
      ensures !HasOtherWinner(pp, pc.votes, pc.threshold) ==>
                (r <==> pp.Some? && Wins(pc.votes, pc.threshold, pp.value.digest))
    {
      if pp.None? {
        return false;
      }
      var v := pc.CValue();
      r := v.Some? && v.value == pp.value.digest;
    }
  }
}
