/** The presence bitmap: 32-bit words that stand for a set of page numbers. */
module Bitmap {
  import opened SendPath
  import opened Words
  import opened Distinctness

  const BITMAP_INT_SIZE: nat := 8192

  function BitOr(x: nat, m: nat): (r: nat) {
    if x == 0 then m
    else if m == 0 then x
    else 2 * BitOr(x / 2, m / 2) + (if x % 2 == 1 || m % 2 == 1 then 1 else 0)
  }

  /** `x & ~m`. */
  function BitAndNot(x: nat, m: nat): (r: nat)
    ensures r <= x
  {
    if x == 0 || m == 0 then x
    else 2 * BitAndNot(x / 2, m / 2) + (if x % 2 == 1 && m % 2 == 0 then 1 else 0)
  }

  /** The test of `valet_bitmap_test` within one word. */
  predicate IsSet(w: nat, k: nat) {
    BitAnd(w, Pow2(k)) != 0
  }

  /** ANDing with one shifted one reads one binary digit. */
  lemma {:induction false} IsSetDigit(w: nat, k: nat)
    ensures IsSet(w, k) <==> if k == 0 then w % 2 == 1 else IsSet(w / 2, k - 1)
  {
    assert k == 0 ==> BitAnd(w / 2, 0) == 0;
    assert k > 0 ==> Pow2(k) / 2 == Pow2(k - 1) && Pow2(k) % 2 == 0;
  }

  lemma {:induction false} OrBit(w: nat, j: nat, k: nat)
    ensures IsSet(BitOr(w, Pow2(k)), j) <==> IsSet(w, j) || j == k
    decreases k, j
  {
    var r := BitOr(w, Pow2(k));
    IsSetDigit(r, j);
    IsSetDigit(w, j);
    assert k > 0 ==> Pow2(k) / 2 == Pow2(k - 1) && Pow2(k) % 2 == 0;
    if k > 0 && j > 0 {
      OrBit(w / 2, j - 1, k - 1);
    }
    OrHalves(w, k);
  }

  lemma OrHalves(w: nat, k: nat)
    ensures BitOr(w, Pow2(k)) % 2 == if k == 0 then 1 else w % 2
    ensures BitOr(w, Pow2(k)) / 2 == if k == 0 then w / 2 else BitOr(w / 2, Pow2(k - 1))
  {
    assert k > 0 ==> Pow2(k) / 2 == Pow2(k - 1) && Pow2(k) % 2 == 0;
    assert BitOr(w / 2, 0) == w / 2;
  }

  lemma ClearHalves(w: nat, k: nat)
    ensures BitAndNot(w, Pow2(k)) % 2 == if k == 0 then 0 else w % 2
    ensures BitAndNot(w, Pow2(k)) / 2 == if k == 0 then w / 2 else BitAndNot(w / 2, Pow2(k - 1))
  {
    assert k > 0 ==> Pow2(k) / 2 == Pow2(k - 1) && Pow2(k) % 2 == 0;
    assert BitAndNot(w / 2, 0) == w / 2;
  }

  lemma {:induction false} ClearBit(w: nat, j: nat, k: nat)
    ensures IsSet(BitAndNot(w, Pow2(k)), j) <==> IsSet(w, j) && j != k
    decreases k, j
  {
    var r := BitAndNot(w, Pow2(k));
    IsSetDigit(r, j);
    IsSetDigit(w, j);
    ClearHalves(w, k);
    if k > 0 && j > 0 {
      ClearBit(w / 2, j - 1, k - 1);
    }
  }

  /** Setting one of the low `n` digits stays within `n` digits. */
  lemma {:induction false} OrStaysSmall(w: nat, k: nat, n: nat)
    requires w < Pow2(n) && k < n
    ensures BitOr(w, Pow2(k)) < Pow2(n)
  {
    OrHalves(w, k);
    if k > 0 {
      OrStaysSmall(w / 2, k - 1, n - 1);
    }
  }

  class PageBitmap {
    const words: array<nat>

    ghost predicate Valid()
      reads this, words
    {
      words.Length == BITMAP_INT_SIZE && forall m :: 0 <= m < words.Length ==> words[m] < TWO32
    }

    predicate Has(i: nat)
      requires i < 32 * words.Length
      reads this, words
    {
      IsSet(words[i / 32], i % 32)
    }

    /** The pages the words stand for. */
    ghost function Members(): (r: set<nat>)
      reads this, words
    {
      set i | 0 <= i < 32 * words.Length && Has(i)
    }

    constructor ()
      ensures Valid() && fresh(words) && Members() == {}
    {
      words := new nat[BITMAP_INT_SIZE](_ => 0);
      new;
      assert forall i: nat :: i < 32 * words.Length ==> !Has(i);
    }

    method Set(i: nat)
      requires Valid() && i < PAGES_PER_GB
      modifies words
      ensures Valid() && Members() == old(Members()) + {i}
    {
      Pow2At32();
      OrStaysSmall(words[i / 32], i % 32, 32);
      words[i / 32] := BitOr(words[i / 32], Pow2(i % 32));
      forall j: nat | j < PAGES_PER_GB
        ensures Has(j) <==> old(Has(j)) || j == i
      {
        OrBit(old(words[i / 32]), j % 32, i % 32);
      }
    }

    method Clear(i: nat)
      requires Valid() && i < PAGES_PER_GB
      modifies words
      ensures Valid() && Members() == old(Members()) - {i}
    {
      words[i / 32] := BitAndNot(words[i / 32], Pow2(i % 32));
      forall j: nat | j < PAGES_PER_GB
        ensures Has(j) <==> old(Has(j)) && j != i
      {
        ClearBit(old(words[i / 32]), j % 32, i % 32);
      }
    }

    method Test(i: nat) returns (b: bool)
      requires Valid() && i < PAGES_PER_GB
      ensures b <==> i in Members()
    {
      b := IsSet(words[i / 32], i % 32);
    }

    /** Byte offset and length, as a completed write reports them. */
    method GroupSet(offset: nat, len: nat)
      requires Valid() && offset / VALET_PAGE_SIZE + len / VALET_PAGE_SIZE <= PAGES_PER_GB
      modifies words
      ensures Valid() && Members() == old(Members()) + Range(offset / VALET_PAGE_SIZE, len / VALET_PAGE_SIZE)
    {
      var startPage, lenPage := offset / VALET_PAGE_SIZE, len / VALET_PAGE_SIZE;
      for i := 0 to lenPage
        invariant Valid() && Members() == old(Members()) + Range(startPage, i)
      {
        Set(startPage + i);
      }
    }

    method GroupClear(offset: nat, len: nat)
      requires Valid() && offset / VALET_PAGE_SIZE + len / VALET_PAGE_SIZE <= PAGES_PER_GB
      modifies words
      ensures Valid() && Members() == old(Members()) - Range(offset / VALET_PAGE_SIZE, len / VALET_PAGE_SIZE)
    {
      var startPage, lenPage := offset / VALET_PAGE_SIZE, len / VALET_PAGE_SIZE;
      for i := 0 to lenPage
        invariant Valid() && Members() == old(Members()) - Range(startPage, i)
      {
        Clear(startPage + i);
      }
    }

    method Init()
      requires Valid()
      modifies words
      ensures Valid() && Members() == {}
    {
      for k := 0 to words.Length
        invariant forall m :: 0 <= m < k ==> words[m] == 0
      {
        words[k] := 0;
      }
      assert forall i: nat :: i < 32 * words.Length ==> !Has(i);
    }

    /** The completions of a run of writes to this block, in any order and with repeats. */
    method RecordCompletions<E>(parts: seq<Part<E>>)
      requires Valid() && forall i :: 0 <= i < |parts| ==> Placed(parts[i])
      modifies words
      ensures Valid() && Members() == old(Members()) + BitsOf(parts)
    {
      for k := 0 to |parts|
        invariant Valid() && Members() == old(Members()) + BitsOf(parts[..k])
      {
        var p := parts[k];
        GroupSet(p.offset, |p.item.batch| * VALET_PAGE_SIZE);
        assert parts[..k + 1][..k] == parts[..k];
      }
      assert parts[..|parts|] == parts;
    }
  }

  ghost function BitsOf<E>(parts: seq<Part<E>>): (r: set<nat>) {
    if parts == [] then {}
    else
      var p := parts[|parts| - 1];
      BitsOf(parts[..|parts| - 1]) + Range(p.offset / VALET_PAGE_SIZE, |p.item.batch|)
  }

  ghost predicate Contains<E>(p: Part<E>, page: nat) {
    p.item.start <= page < p.item.start + |p.item.batch|
  }

  lemma BitInPart<E>(p: Part<E>, page: nat)
    requires Placed(p) && SwapspaceOf(page) == p.swapspace
    ensures ReadBit(page * SECTORS_PER_PAGE) in Range(p.offset / VALET_PAGE_SIZE, |p.item.batch|) <==> Contains(p, page)
  {
  }

  /** The bit `request_read` tests for a page of a block is set exactly when some completed
      write to that block contained the page. */
  lemma {:induction false} ReadBitSetIff<E>(parts: seq<Part<E>>, page: nat)
    requires forall i :: 0 <= i < |parts| ==> Placed(parts[i]) && parts[i].swapspace == SwapspaceOf(page)
    ensures ReadBit(page * SECTORS_PER_PAGE) in BitsOf(parts)
            <==> exists i :: 0 <= i < |parts| && Contains(parts[i], page)
  {
    if parts != [] {
      var n := |parts| - 1;
      var init := parts[..n];
      ReadBitSetIff(init, page);
      BitInPart(parts[n], page);
      if i :| 0 <= i < |parts| && Contains(parts[i], page) {
        assert i < n ==> Contains(init[i], page);
      }
      if i :| 0 <= i < |init| && Contains(init[i], page) {
        assert Contains(parts[i], page);
      }
    }
  }
}
