/** Sequences without repetition, ranges of numbers, and counting them. */
module Distinctness {

  ghost predicate Distinct(s: seq<nat>) {
    forall k, m :: 0 <= k < m < |s| ==> s[k] != s[m]
  }

  ghost function Below(n: nat): (r: set<nat>)
    ensures |r| == n && forall j: nat :: j in r <==> j < n
  {
    if n == 0 then {} else Below(n - 1) + {n - 1}
  }

  lemma FillsRange(done: set<nat>, r: nat)
    requires forall j :: j in done ==> j < r
    ensures |done| <= r
    ensures |done| == r <==> forall j: nat :: j < r ==> j in done
  {
    var all := Below(r);
    assert done <= all;
    assert |all - done| == |all| - |done|;
    if |done| == r {
      assert all - done == {};
      forall j: nat | j < r
        ensures j in done
      {
        assert j in all;
      }
    }
    assert (forall j: nat :: j < r ==> j in done) ==> all - done == {};
  }

  /** The `n` numbers from `start` on. */
  function Range(start: nat, n: nat): (r: set<nat>)
    ensures forall i :: i in r <==> start <= i < start + n
  {
    if n == 0 then {} else Range(start, n - 1) + {start + n - 1}
  }

  lemma SubsetSize(a: set<nat>, b: set<nat>)
    requires a <= b
    ensures |a| <= |b|
  {
    assert b == a + (b - a);
  }

  ghost function Elems(s: seq<nat>): (r: set<nat>)
    ensures forall c :: c in r <==> c in s
  {
    set c | c in s
  }

  /** Distinct numbers below `cap` are at most `cap`, and if they are that many they are all of them. */
  lemma DistinctFit(s: seq<nat>, cap: nat)
    requires Distinct(s) && forall c :: c in s ==> c < cap
    ensures |s| <= cap
    ensures |s| == cap ==> forall c: nat :: c < cap ==> c in s
  {
    DistinctSize(s);
    FillsRange(Elems(s), cap);
  }

  lemma {:induction false} DistinctSize(s: seq<nat>)
    requires Distinct(s)
    ensures |Elems(s)| == |s|
  {
    if s != [] {
      var init, last := s[..|s| - 1], s[|s| - 1];
      DistinctSize(init);
      assert s == init + [last];
      assert last !in init;
      assert Elems(s) == Elems(init) + {last};
    } else {
      assert Elems(s) == {};
    }
  }

  lemma PopBag(pool: seq<nat>)
    requires pool != []
    ensures multiset(pool) == multiset(pool[..|pool| - 1]) + multiset{pool[|pool| - 1]}
  {
    assert pool == pool[..|pool| - 1] + [pool[|pool| - 1]];
  }

  lemma {:induction false} OnceInDistinct(s: seq<nat>, c: nat)
    requires Distinct(s)
    ensures multiset(s)[c] == if c in s then 1 else 0
  {
    if s != [] {
      var init, last := s[..|s| - 1], s[|s| - 1];
      OnceInDistinct(init, c);
      PopBag(s);
      assert s == init + [last];
      assert last !in init;
    }
  }
}
