/** Ranges of queue positions claimed by threads: each position between a tail and a
    head belongs to exactly one claim. */
module Claims {

  datatype Claim = NoClaim | Claim(lo: nat, hi: nat)

  ghost predicate Within(claims: seq<Claim>, lo: nat, hi: nat) {
    forall i :: 0 <= i < |claims| && claims[i].Claim? ==> lo <= claims[i].lo < claims[i].hi <= hi
  }

  ghost predicate Apart(a: Claim, b: Claim) {
    a.Claim? && b.Claim? ==> a.hi <= b.lo || b.hi <= a.lo
  }

  ghost predicate Disjoint(claims: seq<Claim>) {
    forall i, j :: 0 <= i < |claims| && 0 <= j < |claims| && i != j ==> Apart(claims[i], claims[j])
  }

  predicate Owns(c: Claim, p: nat) {
    c.Claim? && c.lo <= p < c.hi
  }

  ghost predicate Covered(claims: seq<Claim>, p: nat) {
    exists i :: 0 <= i < |claims| && Owns(claims[i], p)
  }

  /** The claims partition [lo, hi). */
  ghost predicate Partition(claims: seq<Claim>, lo: nat, hi: nat) {
    && lo <= hi
    && Within(claims, lo, hi)
    && Disjoint(claims)
    && forall p: nat :: lo <= p < hi ==> Covered(claims, p)
  }

  lemma Reserve(claims: seq<Claim>, lo: nat, hi: nat, t: nat, n: nat)
    requires Partition(claims, lo, hi) && t < |claims| && claims[t].NoClaim? && n >= 1
    ensures Partition(claims[t := Claim(hi, hi + n)], lo, hi + n)
  {
    var cs := claims[t := Claim(hi, hi + n)];
    forall p: nat | lo <= p < hi + n
      ensures Covered(cs, p)
    {
      if p < hi {
        assert Covered(claims, p);
        var i :| 0 <= i < |claims| && Owns(claims[i], p);
        assert Owns(cs[i], p);
      } else {
        assert Owns(cs[t], p);
      }
    }
  }

  lemma Publish(claims: seq<Claim>, lo: nat, hi: nat, t: nat)
    requires Partition(claims, lo, hi) && t < |claims| && claims[t].Claim? && claims[t].lo == lo
    ensures Partition(claims[t := NoClaim], claims[t].hi, hi)
  {
    var cs := claims[t := NoClaim];
    forall i | 0 <= i < |cs| && cs[i].Claim?
      ensures claims[t].hi <= cs[i].lo
    {
      assert Apart(claims[t], claims[i]);
    }
    forall p: nat | claims[t].hi <= p < hi
      ensures Covered(cs, p)
    {
      assert Covered(claims, p);
      var i :| 0 <= i < |claims| && Owns(claims[i], p);
      assert Owns(cs[i], p);
    }
  }

  /** Whoever claims the first position of the range may publish next. */
  lemma FirstOwner(claims: seq<Claim>, lo: nat, hi: nat) returns (t: nat)
    requires Partition(claims, lo, hi) && lo < hi
    ensures t < |claims| && claims[t].Claim? && claims[t].lo == lo
  {
    assert Covered(claims, lo);
    t :| 0 <= t < |claims| && Owns(claims[t], lo);
  }

  /** A position has at most one owner. */
  lemma OneOwner(claims: seq<Claim>, lo: nat, hi: nat, i: nat, j: nat, p: nat)
    requires Partition(claims, lo, hi) && i < |claims| && j < |claims|
    requires Owns(claims[i], p) && Owns(claims[j], p)
    ensures i == j
  {
  }
}
