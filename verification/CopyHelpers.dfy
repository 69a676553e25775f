/** The helpers that copy a bulk of elements into and out of the ring. All of them refine
    one masked store or load per position. */
module CopyHelpers {
  import opened Words

  // ----- What a bulk store and a bulk load mean -----

  /** `ring[(head + i) & mask] = ptr[i]` for each i in turn. */
  function Stored<T>(ring: seq<T>, head: nat, ptr: seq<T>): (r: seq<T>)
    requires |ring| >= 1
    ensures |r| == |ring|
  {
    if ptr == [] then ring
    else
      var n := |ptr| - 1;
      Stored(ring, head, ptr[..n])[Slot(head + n, |ring|) := ptr[n]]
  }

  function Loaded<T>(ring: seq<T>, head: nat, n: nat): (r: seq<T>)
    requires |ring| >= 1
    ensures |r| == n
  {
    seq(n, i requires 0 <= i < n => ring[Slot(head + i, |ring|)])
  }

  /** The ring of 1 to 2^30 slots; more than one element only on a power of two. */
  predicate Supported(size: nat, n: nat) {
    1 <= size <= 0x4000_0000 && n <= size && (n <= 1 || IsPow2(size))
  }

  function SlotAt(head: nat, i: nat, size: nat): (s: nat)
    requires size >= 1
    ensures s < size
  {
    Slot(head + i, size)
  }

  /** Slots outside the bulk keep their element. */
  lemma {:induction false} StoredElsewhere<T>(ring: seq<T>, head: nat, ptr: seq<T>, s: nat)
    requires 1 <= |ring| && s < |ring|
    requires forall i: nat :: i < |ptr| ==> SlotAt(head, i, |ring|) != s
    ensures Stored(ring, head, ptr)[s] == ring[s]
  {
    if ptr != [] {
      var n := |ptr| - 1;
      StoredElsewhere(ring, head, ptr[..n], s);
      assert SlotAt(head, n, |ring|) != s;
    }
  }

  /** The running index of a masked loop selects the slot of its position. */
  lemma IndexSlot(start: nat, head: nat, i: nat, index: nat, size: nat, n: nat)
    requires size >= 1 && i < n && index == (start + i) % TWO32 && SameSlots(start, head, size, n)
    ensures Slot(index, size) == Slot(head + i, size)
  {
    SlotWraps(start + i, size);
    assert SlotAt(start, i, size) == SlotAt(head, i, size);
  }

  /** One step of a 32-bit index. */
  method NextIndex(index: nat, ghost start: nat, ghost i: nat) returns (next: nat)
    requires index == (start + i) % TWO32
    ensures next == (start + (i + 1)) % TWO32
  {
    next := (index + 1) % TWO32;
  }

  lemma StoredSnoc<T>(ring: seq<T>, head: nat, ptr: seq<T>, i: nat)
    requires |ring| >= 1 && i < |ptr|
    ensures Stored(ring, head, ptr[..i + 1]) == Stored(ring, head, ptr[..i])[Slot(head + i, |ring|) := ptr[i]]
  {
    assert ptr[..i + 1][..i] == ptr[..i];
  }

  lemma {:induction false} StoredAt<T>(ring: seq<T>, head: nat, ptr: seq<T>, i: nat)
    requires 1 <= |ring| <= TWO32 && |ptr| <= Window(|ring|) && i < |ptr|
    ensures Stored(ring, head, ptr)[Slot(head + i, |ring|)] == ptr[i]
  {
    var n := |ptr| - 1;
    if i < n {
      SlotsDistinct(head + i, head + n, |ring|);
      StoredAt(ring, head, ptr[..n], i);
    }
  }

  /** Store then load is the identity for any bulk no larger than the window. */
  lemma StoreThenLoad<T>(ring: seq<T>, head: nat, ptr: seq<T>)
    requires 1 <= |ring| <= TWO32 && |ptr| <= Window(|ring|)
    ensures Loaded(Stored(ring, head, ptr), head, |ptr|) == ptr
  {
    forall i | 0 <= i < |ptr|
      ensures Loaded(Stored(ring, head, ptr), head, |ptr|)[i] == ptr[i]
    {
      StoredAt(ring, head, ptr, i);
    }
  }

  // ----- Slots are consecutive up to the end of the ring -----

  lemma {:induction false} MaskTwice(x: nat, m: nat)
    ensures BitAnd(BitAnd(x, m), m) == BitAnd(x, m)
    decreases x
  {
    if x != 0 && m != 0 {
      MaskTwice(x / 2, m / 2);
      var b := BitAnd(x / 2, m / 2);
      var low := if x % 2 == 1 && m % 2 == 1 then 1 else 0;
      assert BitAnd(x, m) == 2 * b + low;
      assert (2 * b + low) / 2 == b && (2 * b + low) % 2 == low;
    }
  }

  /** Slot of `head + i`, counted from the masked index: it wraps once at the end. */
  lemma SlotAhead(head: nat, i: nat, size: nat, n: nat)
    requires Supported(size, n) && i < n
    ensures Slot(head + i, size)
            == (if Slot(head, size) + i < size then Slot(head, size) + i else Slot(head, size) + i - size)
  {
    if i > 0 {
      SlotPow2(head, size);
      SlotPow2(head + i, size);
      RemainderAhead(head, i, size);
    }
  }

  lemma RemainderAhead(p: nat, i: nat, w: nat)
    requires w >= 1 && i <= w
    ensures (p + i) % w == (if p % w + i < w then p % w + i else p % w + i - w)
  {
    assert p == w * (p / w) + p % w;
    if p % w + i < w {
      ModUnique(p + i, w, p / w, p % w + i);
    } else {
      assert w * (p / w + 1) == w * (p / w) + w;
      ModUnique(p + i, w, p / w + 1, p % w + i - w);
    }
  }

  /** Masking the already masked index again, as the fall-back loops do. */
  lemma MaskedIndex(head: nat, i: nat, size: nat, n: nat)
    requires Supported(size, n) && i < n
    ensures SlotAt(Slot(head, size), i, size) == SlotAt(head, i, size)
  {
    var masked := Slot(head, size);
    SlotOfSlot(head, size);
    SlotAhead(head, i, size, n);
    SlotAhead(masked, i, size, n);
    assert Slot(masked, size) == masked;
  }

  lemma SlotOfSlot(head: nat, size: nat)
    requires 1 <= size <= TWO32
    ensures Slot(Slot(head, size), size) == Slot(head, size)
  {
    var masked := Slot(head, size);
    assert masked < TWO32;
    assert masked % TWO32 == masked;
    MaskTwice(head % TWO32, size - 1);
  }

  ghost predicate SameSlots(start: nat, head: nat, size: nat, n: nat)
    requires size >= 1
  {
    forall i: nat :: i < n ==> SlotAt(start, i, size) == SlotAt(head, i, size)
  }

  lemma MaskedSlots(head: nat, size: nat, n: nat)
    requires Supported(size, n)
    ensures SameSlots(Slot(head, size), head, size, n)
  {
    forall i: nat | i < n
      ensures SlotAt(Slot(head, size), i, size) == SlotAt(head, i, size)
    {
      MaskedIndex(head, i, size, n);
    }
  }

  /** After a whole round of four from a place that is short of the end by a multiple of four. */
  lemma RoundFits(i: nat, n: nat)
    requires i < n && i % 4 == n % 4
    ensures i + 4 <= n && (i + 4) % 4 == n % 4
    ensures i + 4 < n - n % 4 <==> i + 4 < n
  {
  }

  lemma SlotWraps(p: nat, size: nat)
    requires size >= 1
    ensures Slot(p % TWO32, size) == Slot(p, size)
  {
  }

  function Spliced<T>(ring: seq<T>, index: nat, xs: seq<T>): (r: seq<T>)
    requires index + |xs| <= |ring|
    ensures |r| == |ring|
  {
    ring[..index] + xs + ring[index + |xs|..]
  }

  lemma SplicedSnoc<T>(ring: seq<T>, xs: seq<T>, x: T)
    requires |xs| < |ring|
    ensures Spliced(ring, 0, xs)[|xs| := x] == Spliced(ring, 0, xs + [x])
  {
  }

  lemma SplicedGrows<T>(ring: seq<T>, index: nat, ptr: seq<T>)
    requires ptr != [] && index + |ptr| <= |ring|
    ensures var n := |ptr| - 1; Spliced(ring, index, ptr[..n])[index + n := ptr[n]] == Spliced(ring, index, ptr)
  {
  }

  /** A bulk that does not reach past the end is one contiguous copy. */
  lemma {:induction false} StoredContiguous<T>(ring: seq<T>, head: nat, ptr: seq<T>)
    requires Supported(|ring|, |ptr|) && Slot(head, |ring|) + |ptr| <= |ring|
    ensures Stored(ring, head, ptr) == Spliced(ring, Slot(head, |ring|), ptr)
  {
    if ptr != [] {
      var n := |ptr| - 1;
      StoredContiguous(ring, head, ptr[..n]);
      SlotAhead(head, n, |ring|, |ptr|);
      SplicedGrows(ring, Slot(head, |ring|), ptr);
    }
  }

  lemma WrappedSnoc<T>(ring: seq<T>, index: nat, ptr: seq<T>, k: nat)
    requires index + k == |ring| && k < |ptr| <= |ring|
    ensures var n := |ptr| - 1;
            Spliced(Spliced(ring, index, ptr[..n][..k]), 0, ptr[..n][k..])[n - k := ptr[n]]
            == Spliced(Spliced(ring, index, ptr[..k]), 0, ptr[k..])
  {
    var n := |ptr| - 1;
    assert ptr[..n][..k] == ptr[..k] && ptr[..n][k..] + [ptr[n]] == ptr[k..];
    SplicedSnoc(Spliced(ring, index, ptr[..k]), ptr[..n][k..], ptr[n]);
  }

  /** One that does is two: to the end, then from slot zero. */
  lemma {:induction false} StoredWrapped<T>(ring: seq<T>, head: nat, ptr: seq<T>)
    requires Supported(|ring|, |ptr|) && Slot(head, |ring|) + |ptr| >= |ring|
    ensures var index := Slot(head, |ring|); var k := |ring| - index;
            Stored(ring, head, ptr) == Spliced(Spliced(ring, index, ptr[..k]), 0, ptr[k..])
  {
    var index := Slot(head, |ring|);
    var k, n := |ring| - index, |ptr| - 1;
    if |ptr| == k {
      StoredContiguous(ring, head, ptr);
      assert ptr[..k] == ptr && ptr[k..] == [];
    } else {
      StoredWrapped(ring, head, ptr[..n]);
      SlotAhead(head, n, |ring|, |ptr|);
      assert Slot(head + n, |ring|) == n - k;
      WrappedSnoc(ring, index, ptr, k);
    }
  }

  lemma LoadedContiguous<T>(ring: seq<T>, head: nat, n: nat)
    requires Supported(|ring|, n) && Slot(head, |ring|) + n <= |ring|
    ensures Loaded(ring, head, n) == ring[Slot(head, |ring|)..Slot(head, |ring|) + n]
  {
    forall i | 0 <= i < n
      ensures Loaded(ring, head, n)[i] == ring[Slot(head, |ring|) + i]
    {
      SlotAhead(head, i, |ring|, n);
    }
  }

  lemma LoadedWrapped<T>(ring: seq<T>, head: nat, n: nat)
    requires Supported(|ring|, n) && Slot(head, |ring|) + n >= |ring|
    ensures Loaded(ring, head, n) == ring[Slot(head, |ring|)..] + ring[..Slot(head, |ring|) + n - |ring|]
  {
    forall i | 0 <= i < n
      ensures Loaded(ring, head, n)[i]
              == (ring[Slot(head, |ring|)..] + ring[..Slot(head, |ring|) + n - |ring|])[i]
    {
      SlotAhead(head, i, |ring|, n);
    }
  }

  // ----- Store helpers -----

  /** `_mask`, and the fall-back of the unrolled forms, which start from a masked index. */
  method StoreMask<T>(ring: array<T>, start: nat, ghost head: nat, ptr: seq<T>)
    requires ring.Length >= 1 && start < TWO32 && SameSlots(start, head, ring.Length, |ptr|)
    modifies ring
    ensures ring[..] == Stored(old(ring[..]), head, ptr)
  {
    var index := start;
    for i := 0 to |ptr|
      invariant index == (start + i) % TWO32
      invariant ring[..] == Stored(old(ring[..]), head, ptr[..i])
    {
      IndexSlot(start, head, i, index, ring.Length, |ptr|);
      StoredSnoc(old(ring[..]), head, ptr, i);
      ring[Slot(index, ring.Length)] := ptr[i];
      index := NextIndex(index, start, i);
    }
    assert ptr[..|ptr|] == ptr;
  }

  ghost predicate CopiedIn<T>(before: seq<T>, after: seq<T>, index: nat, xs: seq<T>, n: nat)
    requires n <= |xs| && index + n <= |before| == |after|
  {
    forall k :: 0 <= k < |before| ==> after[k] == if index <= k < index + n then xs[k - index] else before[k]
  }

  lemma CopiedInAll<T>(before: seq<T>, after: seq<T>, index: nat, xs: seq<T>)
    requires index + |xs| <= |before| == |after| && CopiedIn(before, after, index, xs, |xs|)
    ensures after == Spliced(before, index, xs)
  {
  }

  /** `_nomask`: up to the end of the ring, then from slot zero. */
  method StoreNoMask<T>(ring: array<T>, head: nat, ptr: seq<T>)
    requires Supported(ring.Length, |ptr|) && head < TWO32
    modifies ring
    ensures ring[..] == Stored(old(ring[..]), head, ptr)
  {
    ghost var before := ring[..];
    var n, i, first := |ptr|, 0, Slot(head, ring.Length);
    var index := first;
    while i < n && index < ring.Length
      invariant 0 <= i <= n && index == first + i <= ring.Length
      invariant CopiedIn(before, ring[..], first, ptr, i)
    {
      ring[index] := ptr[i];
      i, index := i + 1, index + 1;
    }
    ghost var k, middle := i, ring[..];
    CopiedInAll(before, middle, first, ptr[..k]);
    index := 0;
    while i < n
      invariant k <= i <= n && index == i - k <= first
      invariant k < n ==> first + k == ring.Length
      invariant CopiedIn(middle, ring[..], 0, ptr[k..], i - k)
    {
      ring[index] := ptr[i];
      i, index := i + 1, index + 1;
    }
    CopiedInAll(middle, ring[..], 0, ptr[k..]);
    if first + n >= ring.Length {
      StoredWrapped(before, head, ptr);
    } else {
      assert ptr[..k] == ptr && ptr[k..] == [];
      StoredContiguous(before, head, ptr);
    }
  }

  /** `_mask_less`: masks the index only when the bulk reaches the last slot. */
  method StoreMaskLess<T>(ring: array<T>, head: nat, ptr: seq<T>)
    requires Supported(ring.Length, |ptr|) && head < TWO32
    modifies ring
    ensures ring[..] == Stored(old(ring[..]), head, ptr)
  {
    var index := Slot(head, ring.Length);
    if index + |ptr| <= ring.Length - 1 {
      StoredContiguous(ring[..], head, ptr);
      CopyIn(ring, index, ptr);
    } else {
      MaskedSlots(head, ring.Length, |ptr|);
      StoreMask(ring, index, head, ptr);
    }
  }

  /** `_mask_less2`: when the bulk reaches the last slot, fill up to it without looking at the
      count, and store the rest from slot zero. */
  method StoreMaskLess2<T>(ring: array<T>, head: nat, ptr: seq<T>)
    requires Supported(ring.Length, |ptr|) && head < TWO32
    modifies ring
    ensures ring[..] == Stored(old(ring[..]), head, ptr)
  {
    ghost var before := ring[..];
    var first := Slot(head, ring.Length);
    if first + |ptr| <= ring.Length - 1 {
      StoredContiguous(before, head, ptr);
      CopyIn(ring, first, ptr);
    } else {
      StoredWrapped(before, head, ptr);
      var i, index := 0, first;
      while index <= ring.Length - 1
        invariant index == first + i <= ring.Length
        invariant CopiedIn(before, ring[..], first, ptr, i)
      {
        ring[index] := ptr[i];
        i, index := i + 1, index + 1;
      }
      CopiedInAll(before, ring[..], first, ptr[..i]);
      CopyIn(ring, 0, ptr[i..]);
    }
  }

  /** Four stores per round, then the remainder. */
  method UnrolledIn<T>(ring: array<T>, first: nat, ptr: seq<T>)
    requires first + |ptr| <= ring.Length
    modifies ring
    ensures ring[..] == Spliced(old(ring[..]), first, ptr)
  {
    ghost var before := ring[..];
    var n := |ptr|;
    var index, i, iterations := first, 0, n - n % 4;
    while i < iterations
      invariant 0 <= i <= iterations && i % 4 == 0 && index == first + i
      invariant CopiedIn(before, ring[..], first, ptr, i)
    {
      ring[index] := ptr[i];
      ring[index + 1] := ptr[i + 1];
      ring[index + 2] := ptr[i + 2];
      ring[index + 3] := ptr[i + 3];
      i, index := i + 4, index + 4;
    }
    match n % 4 {
      case 3 =>
        ring[index] := ptr[i];
        ring[index + 1] := ptr[i + 1];
        ring[index + 2] := ptr[i + 2];
      case 2 =>
        ring[index] := ptr[i];
        ring[index + 1] := ptr[i + 1];
      case 1 =>
        ring[index] := ptr[i];
      case _ =>
    }
    assert CopiedIn(before, ring[..], first, ptr, n);
    CopiedInAll(before, ring[..], first, ptr);
  }

  /** `_unroll`, the pair the queue selects: unrolled when the bulk cannot wrap, one masked
      store at a time when it can. */
  method StoreUnroll<T>(ring: array<T>, head: nat, ptr: seq<T>)
    requires Supported(ring.Length, |ptr|) && head < TWO32
    modifies ring
    ensures ring[..] == Stored(old(ring[..]), head, ptr)
  {
    ghost var before := ring[..];
    var index := Slot(head, ring.Length);
    if index + |ptr| <= ring.Length - 1 {
      StoredContiguous(before, head, ptr);
      UnrolledIn(ring, index, ptr);
    } else {
      MaskedSlots(head, ring.Length, |ptr|);
      StoreMask(ring, index, head, ptr);
    }
  }

  /** Duff's device: jumps into the middle of the first round to copy `n % 4` elements, each
      round from its last slot down, then whole rounds of four. */
  method DuffIn<T>(ring: array<T>, first: nat, ptr: seq<T>)
    requires first + |ptr| <= ring.Length && |ptr| >= 1
    modifies ring
    ensures ring[..] == Spliced(old(ring[..]), first, ptr)
  {
    ghost var before := ring[..];
    var n := |ptr|;
    var index, i, r, iterations := first, 0, n % 4, n - n % 4;
    var more := true;
    while more
      invariant 0 <= i <= n && index == first + i && 0 <= r < 4
      invariant r > 0 ==> i == 0 && more && r == n % 4
      invariant r == 0 ==> i % 4 == n % 4
      invariant more <==> i < n
      invariant CopiedIn(before, ring[..], first, ptr, i)
      decreases n - i
    {
      if r == 0 { RoundFits(i, n); ring[index + 3] := ptr[i + 3]; }
      if r == 0 || r == 3 { ring[index + 2] := ptr[i + 2]; }
      if r != 1 { ring[index + 1] := ptr[i + 1]; }
      ring[index] := ptr[i];
      if r > 0 {
        i, index, r := i + r, index + r, 0;
        more := iterations != 0;
      } else {
        i, index := i + 4, index + 4;
        more := i < iterations;
      }
    }
    CopiedInAll(before, ring[..], first, ptr);
  }

  method StoreDuff<T>(ring: array<T>, head: nat, ptr: seq<T>)
    requires Supported(ring.Length, |ptr|) && head < TWO32 && |ptr| >= 1
    modifies ring
    ensures ring[..] == Stored(old(ring[..]), head, ptr)
  {
    ghost var before := ring[..];
    var index := Slot(head, ring.Length);
    if index + |ptr| <= ring.Length - 1 {
      StoredContiguous(before, head, ptr);
      DuffIn(ring, index, ptr);
    } else {
      MaskedSlots(head, ring.Length, |ptr|);
      StoreMask(ring, index, head, ptr);
    }
  }

  /** `memcpy` of `xs` to `ring[index..]`. */
  method CopyIn<T>(ring: array<T>, index: nat, xs: seq<T>)
    requires index + |xs| <= ring.Length
    modifies ring
    ensures ring[..] == Spliced(old(ring[..]), index, xs)
  {
    ghost var before := ring[..];
    for i := 0 to |xs|
      invariant CopiedIn(before, ring[..], index, xs, i)
    {
      ring[index + i] := xs[i];
    }
    CopiedInAll(before, ring[..], index, xs);
  }

  /** Masked start and end of a bulk of at most the ring size. */
  lemma MaskedEnd(head: nat, n: nat, size: nat)
    requires IsPow2(size) && size <= 0x4000_0000 && n <= size
    ensures var first := Slot(head, size);
            Slot(head + n, size) == (if first + n < size then first + n else first + n - size)
  {
    SlotPow2(head, size);
    SlotPow2(head + n, size);
    RemainderAhead(head, n, size);
  }

  /** The two copies `_memcpy` makes: it compares the masked end with the masked start. */
  function MemcpyStored<T>(ring: seq<T>, head: nat, ptr: seq<T>): (r: seq<T>)
    requires IsPow2(|ring|) && |ring| <= 0x4000_0000 && |ptr| <= |ring|
  {
    var next, first := Slot(head + |ptr|, |ring|), Slot(head, |ring|);
    MaskedEnd(head, |ptr|, |ring|);
    if next >= first then Spliced(ring, first, ptr[..next - first])
    else Spliced(Spliced(ring, first, ptr[..|ring| - first]), 0, ptr[|ring| - first..])
  }

  method StoreMemcpy<T>(ring: array<T>, head: nat, ptr: seq<T>)
    requires IsPow2(ring.Length) && ring.Length <= 0x4000_0000 && |ptr| <= ring.Length && head < TWO32
    modifies ring
    ensures ring[..] == MemcpyStored(old(ring[..]), head, ptr)
  {
    var n, size := |ptr|, ring.Length;
    var next, first := Slot(head + n, size), Slot(head, size);
    MaskedEnd(head, n, size);
    if next >= first {
      CopyIn(ring, first, ptr[..next - first]);
    } else {
      CopyIn(ring, first, ptr[..size - first]);
      CopyIn(ring, 0, ptr[size - first..]);
    }
  }

  lemma MemcpyInOne<T>(ring: seq<T>, head: nat, ptr: seq<T>)
    requires IsPow2(|ring|) && |ring| <= 0x4000_0000 && Slot(head, |ring|) + |ptr| < |ring|
    ensures MemcpyStored(ring, head, ptr) == Spliced(ring, Slot(head, |ring|), ptr)
  {
    var first := Slot(head, |ring|);
    MaskedEnd(head, |ptr|, |ring|);
    assert Slot(head + |ptr|, |ring|) == first + |ptr|;
    assert (first + |ptr|) - first == |ptr|;
    assert ptr[..|ptr|] == ptr;
  }

  lemma MemcpyInTwo<T>(ring: seq<T>, head: nat, ptr: seq<T>)
    requires IsPow2(|ring|) && |ring| <= 0x4000_0000 && |ptr| < |ring| <= Slot(head, |ring|) + |ptr|
    ensures var k := |ring| - Slot(head, |ring|);
            MemcpyStored(ring, head, ptr) == Spliced(Spliced(ring, Slot(head, |ring|), ptr[..k]), 0, ptr[k..])
  {
    var first := Slot(head, |ring|);
    MaskedEnd(head, |ptr|, |ring|);
    assert Slot(head + |ptr|, |ring|) == first + |ptr| - |ring| < first;
  }

  lemma MemcpyStores<T>(ring: seq<T>, head: nat, ptr: seq<T>)
    requires IsPow2(|ring|) && |ring| <= 0x4000_0000 && |ptr| < |ring|
    ensures MemcpyStored(ring, head, ptr) == Stored(ring, head, ptr)
  {
    if Slot(head, |ring|) + |ptr| < |ring| {
      MemcpyInOne(ring, head, ptr);
      StoredContiguous(ring, head, ptr);
    } else {
      MemcpyInTwo(ring, head, ptr);
      StoredWrapped(ring, head, ptr);
    }
  }

  /** A bulk that fills the whole ring looks like an empty one to `_memcpy` and is dropped. */
  lemma MemcpyDropsFull<T>(ring: seq<T>, head: nat, ptr: seq<T>)
    requires IsPow2(|ring|) && |ring| <= 0x4000_0000 && |ptr| == |ring|
    ensures MemcpyStored(ring, head, ptr) == ring
  {
    var first := Slot(head, |ring|);
    MaskedEnd(head, |ptr|, |ring|);
    assert Slot(head + |ptr|, |ring|) == first;
    SplicedNothing(ring, first, ptr);
  }

  lemma SplicedNothing<T>(ring: seq<T>, index: nat, ptr: seq<T>)
    requires index <= |ring|
    ensures Spliced(ring, index, ptr[..0]) == ring
  {
  }

  /** So it is a correct store of `n` elements exactly when `n` is less than the ring size. */
  lemma MemcpyStoresIff(size: nat, n: nat, head: nat)
    requires IsPow2(size) && size <= 0x4000_0000 && n <= size
    ensures n < size <==> forall ring: seq<int>, ptr: seq<int> | |ring| == size && |ptr| == n ::
                            MemcpyStored(ring, head, ptr) == Stored(ring, head, ptr)
  {
    if n == size {
      var ring, ptr := seq(size, i => 0), seq(size, i => 1);
      MemcpyDropsFull(ring, head, ptr);
      StoredAt(ring, head, ptr, 0);
      assert MemcpyStored(ring, head, ptr) != Stored(ring, head, ptr);
    } else {
      forall ring: seq<int>, ptr: seq<int> | |ring| == size && |ptr| == n
        ensures MemcpyStored(ring, head, ptr) == Stored(ring, head, ptr)
      {
        MemcpyStores(ring, head, ptr);
      }
    }
  }

  // ----- Load helpers -----

  ghost predicate CopiedOut<T>(before: seq<T>, after: seq<T>, xs: seq<T>, n: nat)
    requires n <= |xs| && n <= |before| == |after|
  {
    forall k :: 0 <= k < |before| ==> after[k] == if k < n then xs[k] else before[k]
  }

  method LoadMask<T>(ring: array<T>, start: nat, ghost head: nat, ptr: array<T>, elems: nat)
    requires ring.Length >= 1 && start < TWO32 && elems <= ptr.Length && ptr != ring
    requires SameSlots(start, head, ring.Length, elems)
    modifies ptr
    ensures ptr[..elems] == Loaded(ring[..], head, elems)
    ensures ptr[elems..] == old(ptr[elems..])
  {
    var index := start;
    ghost var want := Loaded(ring[..], head, elems);
    for i := 0 to elems
      invariant index == (start + i) % TWO32
      invariant CopiedOut(old(ptr[..]), ptr[..], want, i)
    {
      IndexSlot(start, head, i, index, ring.Length, elems);
      ptr[i] := ring[Slot(index, ring.Length)];
      index := NextIndex(index, start, i);
    }
  }

  method LoadNoMask<T>(ring: array<T>, head: nat, ptr: array<T>, elems: nat)
    requires Supported(ring.Length, elems) && head < TWO32 && elems <= ptr.Length && ptr != ring
    modifies ptr
    ensures ptr[..elems] == Loaded(ring[..], head, elems)
    ensures ptr[elems..] == old(ptr[elems..])
  {
    ghost var before, want := ptr[..], Loaded(ring[..], head, elems);
    var i, first := 0, Slot(head, ring.Length);
    var index := first;
    if first + elems >= ring.Length {
      LoadedWrapped(ring[..], head, elems);
    } else {
      LoadedContiguous(ring[..], head, elems);
    }
    while i < elems && index < ring.Length
      invariant 0 <= i <= elems && index == first + i <= ring.Length
      invariant CopiedOut(before, ptr[..], want, i)
    {
      ptr[i] := ring[index];
      i, index := i + 1, index + 1;
    }
    index := 0;
    ghost var k := i;
    while i < elems
      invariant k <= i <= elems && index == i - k
      invariant k < elems ==> first + k == ring.Length
      invariant CopiedOut(before, ptr[..], want, i)
    {
      ptr[i] := ring[index];
      i, index := i + 1, index + 1;
    }
  }

  /** The remainder of an unrolled load: one, two or three elements. */
  method RemainderOut<T>(ring: array<T>, index: nat, ptr: array<T>, i: nat, r: nat,
                         ghost first: nat, ghost before: seq<T>)
    requires r < 4 && index == first + i && index + r <= ring.Length && i + r <= ptr.Length == |before| && ptr != ring
    requires CopiedOut(before, ptr[..], ring[first..index + r], i)
    modifies ptr
    ensures CopiedOut(before, ptr[..], ring[first..index + r], i + r)
  {
    match r {
      case 3 =>
        ptr[i] := ring[index];
        ptr[i + 1] := ring[index + 1];
        ptr[i + 2] := ring[index + 2];
      case 2 =>
        ptr[i] := ring[index];
        ptr[i + 1] := ring[index + 1];
      case 1 =>
        ptr[i] := ring[index];
      case _ =>
    }
  }

  method UnrolledOut<T>(ring: array<T>, first: nat, ptr: array<T>, elems: nat)
    requires first + elems <= ring.Length && elems <= ptr.Length && ptr != ring
    modifies ptr
    ensures ptr[..elems] == ring[first..first + elems]
    ensures ptr[elems..] == old(ptr[elems..])
  {
    ghost var before, want := ptr[..], ring[first..first + elems];
    var index, i, iterations := first, 0, elems - elems % 4;
    while i < iterations
      invariant 0 <= i <= iterations && i % 4 == 0 && index == first + i
      invariant CopiedOut(before, ptr[..], want, i)
    {
      ptr[i] := ring[index];
      ptr[i + 1] := ring[index + 1];
      ptr[i + 2] := ring[index + 2];
      ptr[i + 3] := ring[index + 3];
      i, index := i + 4, index + 4;
    }
    RemainderOut(ring, index, ptr, i, elems % 4, first, before);
    CopiedOutAll(before, ptr[..], want);
  }

  method LoadUnroll<T>(ring: array<T>, head: nat, ptr: array<T>, elems: nat)
    requires Supported(ring.Length, elems) && head < TWO32 && elems <= ptr.Length && ptr != ring
    modifies ptr
    ensures ptr[..elems] == Loaded(ring[..], head, elems)
    ensures ptr[elems..] == old(ptr[elems..])
  {
    var index := Slot(head, ring.Length);
    if index + elems <= ring.Length - 1 {
      LoadedContiguous(ring[..], head, elems);
      UnrolledOut(ring, index, ptr, elems);
    } else {
      MaskedSlots(head, ring.Length, elems);
      LoadMask(ring, index, head, ptr, elems);
    }
  }

  /** `memcpy` of `n` slots from `ring[index..]` to `ptr[at..]`. */
  method CopyOut<T>(ring: array<T>, index: nat, ptr: array<T>, at: nat, n: nat,
                    ghost want: seq<T>, ghost before: seq<T>)
    requires index + n <= ring.Length && at + n <= |want| <= ptr.Length == |before| && ptr != ring
    requires CopiedOut(before, ptr[..], want, at) && want[at..at + n] == ring[index..index + n]
    modifies ptr
    ensures CopiedOut(before, ptr[..], want, at + n)
  {
    for i := 0 to n
      invariant CopiedOut(before, ptr[..], want, at + i)
    {
      assert want[at..at + n][i] == ring[index..index + n][i];
      ptr[at + i] := ring[index + i];
    }
  }

  lemma CopiedOutAll<T>(before: seq<T>, after: seq<T>, want: seq<T>)
    requires |want| <= |before| == |after| && CopiedOut(before, after, want, |want|)
    ensures after[..|want|] == want && after[|want|..] == before[|want|..]
  {
  }

  method LoadMaskLess<T>(ring: array<T>, head: nat, ptr: array<T>, elems: nat)
    requires Supported(ring.Length, elems) && head < TWO32 && elems <= ptr.Length && ptr != ring
    modifies ptr
    ensures ptr[..elems] == Loaded(ring[..], head, elems)
    ensures ptr[elems..] == old(ptr[elems..])
  {
    var index := Slot(head, ring.Length);
    if index + elems <= ring.Length - 1 {
      LoadedContiguous(ring[..], head, elems);
      ghost var before, want := ptr[..], Loaded(ring[..], head, elems);
      CopyOut(ring, index, ptr, 0, elems, want, before);
      CopiedOutAll(before, ptr[..], want);
    } else {
      MaskedSlots(head, ring.Length, elems);
      LoadMask(ring, index, head, ptr, elems);
    }
  }

  method LoadMaskLess2<T>(ring: array<T>, head: nat, ptr: array<T>, elems: nat)
    requires Supported(ring.Length, elems) && head < TWO32 && elems <= ptr.Length && ptr != ring
    modifies ptr
    ensures ptr[..elems] == Loaded(ring[..], head, elems)
    ensures ptr[elems..] == old(ptr[elems..])
  {
    ghost var before, want := ptr[..], Loaded(ring[..], head, elems);
    var first := Slot(head, ring.Length);
    if first + elems <= ring.Length - 1 {
      LoadedContiguous(ring[..], head, elems);
      CopyOut(ring, first, ptr, 0, elems, want, before);
    } else {
      LoadedWrapped(ring[..], head, elems);
      var i, index := 0, first;
      while index <= ring.Length - 1
        invariant index == first + i <= ring.Length
        invariant CopiedOut(before, ptr[..], want, i)
      {
        ptr[i] := ring[index];
        i, index := i + 1, index + 1;
      }
      CopyOut(ring, 0, ptr, i, elems - i, want, before);
    }
    CopiedOutAll(before, ptr[..], want);
  }

  method DuffOut<T>(ring: array<T>, first: nat, ptr: array<T>, elems: nat)
    requires first + elems <= ring.Length && 1 <= elems <= ptr.Length && ptr != ring
    modifies ptr
    ensures ptr[..elems] == ring[first..first + elems]
    ensures ptr[elems..] == old(ptr[elems..])
  {
    ghost var before, want := ptr[..], ring[first..first + elems];
    var n := elems;
    var index, i, r, iterations := first, 0, n % 4, n - n % 4;
    var more := true;
    while more
      invariant 0 <= i <= n && index == first + i && 0 <= r < 4
      invariant r > 0 ==> i == 0 && more && r == n % 4
      invariant r == 0 ==> i % 4 == n % 4
      invariant more <==> i < n
      invariant CopiedOut(before, ptr[..], want, i)
      decreases n - i
    {
      if r == 0 { RoundFits(i, n); ptr[i + 3] := ring[index + 3]; }
      if r == 0 || r == 3 { ptr[i + 2] := ring[index + 2]; }
      if r != 1 { ptr[i + 1] := ring[index + 1]; }
      ptr[i] := ring[index];
      if r > 0 {
        i, index, r := i + r, index + r, 0;
        more := iterations != 0;
      } else {
        i, index := i + 4, index + 4;
        more := i < iterations;
      }
    }
    CopiedOutAll(before, ptr[..], want);
  }

  method LoadDuff<T>(ring: array<T>, head: nat, ptr: array<T>, elems: nat)
    requires Supported(ring.Length, elems) && head < TWO32 && 1 <= elems <= ptr.Length && ptr != ring
    modifies ptr
    ensures ptr[..elems] == Loaded(ring[..], head, elems)
    ensures ptr[elems..] == old(ptr[elems..])
  {
    var index := Slot(head, ring.Length);
    if index + elems <= ring.Length - 1 {
      LoadedContiguous(ring[..], head, elems);
      DuffOut(ring, index, ptr, elems);
    } else {
      MaskedSlots(head, ring.Length, elems);
      LoadMask(ring, index, head, ptr, elems);
    }
  }

  /** `_memcpy`: like the store it takes a bulk of the whole ring for an empty one, and then
      loads nothing. */
  method LoadMemcpy<T>(ring: array<T>, head: nat, ptr: array<T>, elems: nat)
    requires IsPow2(ring.Length) && ring.Length <= 0x4000_0000 && head < TWO32
    requires elems <= ring.Length && elems <= ptr.Length && ptr != ring
    modifies ptr
    ensures elems < ring.Length ==> ptr[..elems] == Loaded(ring[..], head, elems) && ptr[elems..] == old(ptr[elems..])
    ensures elems == ring.Length ==> ptr[..] == old(ptr[..])
  {
    var size := ring.Length;
    var next, first := Slot(head + elems, size), Slot(head, size);
    MaskedEnd(head, elems, size);
    ghost var before, want := ptr[..], Loaded(ring[..], head, elems);
    if next >= first {
      if elems < size {
        LoadedContiguous(ring[..], head, elems);
      }
      CopyOut(ring, first, ptr, 0, next - first, want, before);
    } else {
      LoadedWrapped(ring[..], head, elems);
      CopyOut(ring, first, ptr, 0, size - first, want, before);
      CopyOut(ring, 0, ptr, size - first, next, want, before);
    }
    if elems < size {
      CopiedOutAll(before, ptr[..], want);
    }
  }
}
