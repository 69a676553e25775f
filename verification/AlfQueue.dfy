/** The queue object, with the single-producer and single-consumer calls. */
module AlfQueue {
  import opened Words
  import opened CopyHelpers

  lemma SlotOfResidue(word: nat, total: nat, i: nat, size: nat)
    requires word == total % TWO32 && size >= 1
    ensures Slot(word + i, size) == Slot(total + i, size)
  {
    assert (word + i) % TWO32 == (total + i) % TWO32;
  }

  lemma {:induction false} StoredByWord<T>(ring: seq<T>, word: nat, total: nat, ptr: seq<T>)
    requires |ring| >= 1 && word == total % TWO32
    ensures Stored(ring, word, ptr) == Stored(ring, total, ptr)
  {
    if ptr != [] {
      StoredByWord(ring, word, total, ptr[..|ptr| - 1]);
      SlotOfResidue(word, total, |ptr| - 1, |ring|);
    }
  }

  lemma LoadedByWord<T>(ring: seq<T>, word: nat, total: nat, n: nat)
    requires |ring| >= 1 && word == total % TWO32
    ensures Loaded(ring, word, n) == Loaded(ring, total, n)
  {
    forall i: nat | i < n
      ensures Loaded(ring, word, n)[i] == Loaded(ring, total, n)[i]
    {
      SlotOfResidue(word, total, i, |ring|);
    }
  }

  lemma StoreKeepsSlot<T>(ring: seq<T>, head: nat, ptr: seq<T>, p: nat)
    requires 1 <= |ring| <= TWO32 && p < head && head + |ptr| <= p + Window(|ring|)
    ensures Stored(ring, head, ptr)[Slot(p, |ring|)] == ring[Slot(p, |ring|)]
  {
    var s := Slot(p, |ring|);
    forall j: nat | j < |ptr|
      ensures SlotAt(head, j, |ring|) != s
    {
      SlotsDistinct(p, head + j, |ring|);
    }
    StoredElsewhere(ring, head, ptr, s);
  }

  lemma LoadedSplit<T>(ring: seq<T>, base: nat, k: nat, m: nat)
    requires |ring| >= 1
    ensures Loaded(ring, base, k + m) == Loaded(ring, base, k) + Loaded(ring, base + k, m)
  {
    var all, parts := Loaded(ring, base, k + m), Loaded(ring, base, k) + Loaded(ring, base + k, m);
    forall i: nat | i < k + m
      ensures all[i] == parts[i]
    {
      assert base + i == base + k + (i - k);
    }
  }

  lemma StoreKeepsContents<T>(ring: seq<T>, base: nat, c: nat, ptr: seq<T>)
    requires 1 <= |ring| <= TWO32 && c + |ptr| <= Window(|ring|)
    ensures Loaded(Stored(ring, base + c, ptr), base, c) == Loaded(ring, base, c)
  {
    var after := Stored(ring, base + c, ptr);
    forall i: nat | i < c
      ensures Loaded(after, base, c)[i] == Loaded(ring, base, c)[i]
    {
      StoreKeepsSlot(ring, base + c, ptr, base + i);
    }
  }

  /** Storing behind the contents appends, as long as all of it fits the window. */
  lemma StoreAppends<T>(ring: seq<T>, base: nat, contents: seq<T>, ptr: seq<T>)
    requires 1 <= |ring| <= TWO32 && |contents| + |ptr| <= Window(|ring|)
    requires Loaded(ring, base, |contents|) == contents
    ensures Loaded(Stored(ring, base + |contents|, ptr), base, |contents| + |ptr|) == contents + ptr
  {
    StoredParts(ring, base, contents, ptr);
    JoinLoaded(Stored(ring, base + |contents|, ptr), base, contents, ptr);
  }

  lemma StoredParts<T>(ring: seq<T>, base: nat, contents: seq<T>, ptr: seq<T>)
    requires 1 <= |ring| <= TWO32 && |contents| + |ptr| <= Window(|ring|)
    requires Loaded(ring, base, |contents|) == contents
    ensures Loaded(Stored(ring, base + |contents|, ptr), base, |contents|) == contents
    ensures Loaded(Stored(ring, base + |contents|, ptr), base + |contents|, |ptr|) == ptr
  {
    StoreKeepsContents(ring, base, |contents|, ptr);
    StoreThenLoad(ring, base + |contents|, ptr);
  }

  lemma JoinLoaded<T>(ring: seq<T>, base: nat, xs: seq<T>, ys: seq<T>)
    requires |ring| >= 1 && Loaded(ring, base, |xs|) == xs && Loaded(ring, base + |xs|, |ys|) == ys
    ensures Loaded(ring, base, |xs| + |ys|) == xs + ys
  {
    LoadedSplit(ring, base, |xs|, |ys|);
  }

  lemma WordsOf(base: nat, c: nat, size: nat)
    requires c <= size < TWO32
    ensures (size + base % TWO32 - (base + c) % TWO32) % TWO32 == size - c
    ensures ((base + c) % TWO32 - base % TWO32) % TWO32 == c
  {
  }

  lemma WordPlus(x: nat, n: nat)
    ensures (x % TWO32 + n) % TWO32 == (x + n) % TWO32
  {
  }

  /** A 32-bit counter moved on by `n`. */
  method AddWord(word: nat, n: nat, ghost total: nat) returns (next: nat)
    requires word == total % TWO32
    ensures next == (total + n) % TWO32 && next < TWO32
  {
    WordPlus(total, n);
    next := (word + n) % TWO32;
  }

  class ArrayQueue<T(0)> {
    const ring: array<T>
    var prodHead: nat
    var prodTail: nat
    var consHead: nat
    var consTail: nat
    /** Number of elements ever dequeued, and what is queued now. */
    ghost var base: nat
    ghost var contents: seq<T>

    /** No call in progress. */
    ghost predicate Valid()
      reads this, ring
    {
      && 1 <= ring.Length <= 0x4000_0000
      && prodHead == prodTail == (base + |contents|) % TWO32
      && consHead == consTail == base % TWO32
      && |contents| <= Window(ring.Length)
      && Loaded(ring[..], base, |contents|) == contents
    }

    constructor (size: nat)
      requires 1 <= size <= 0x4000_0000
      ensures Valid() && contents == [] && fresh(ring) && ring.Length == size
    {
      ring := new T[size];
      prodHead, prodTail, consHead, consTail := 0, 0, 0, 0;
      base, contents := 0, [];
    }

    /** `prodTail - consHead`, in 32-bit arithmetic. */
    method Count() returns (n: nat)
      requires Valid()
      ensures n == |contents|
    {
      WordsOf(base, |contents|, ring.Length);
      n := (prodTail - consHead) % TWO32;
    }

    /** `size + consTail - prodHead`, in 32-bit arithmetic. */
    method AvailSpace() returns (n: nat)
      requires Valid()
      ensures n == ring.Length - |contents|
    {
      WordsOf(base, |contents|, ring.Length);
      n := (ring.Length + consTail - prodHead) % TWO32;
    }

    /** All or nothing: appends the whole bulk if it fits, else returns 0. */
    method SpEnqueue(ptr: seq<T>) returns (n: nat)
      requires Valid() && |ptr| < TWO32
      requires IsPow2(ring.Length) || (|ptr| <= 1 && |contents| + |ptr| <= Window(ring.Length))
      modifies this, ring
      ensures Valid() && base == old(base)
      ensures n == if old(|contents|) + |ptr| <= ring.Length then |ptr| else 0
      ensures contents == old(contents) + ptr[..n]
    {
      var pHead := prodHead;
      var space := AvailSpace();
      if |ptr| > space {
        n := 0;
        assert contents + ptr[..0] == contents;
        return;
      }
      var pNext := AddWord(pHead, |ptr|, base + |contents|);
      prodHead := pNext;
      ghost var before := ring[..];
      StoreAppends(before, base, contents, ptr);
      StoredByWord(before, pHead, base + |contents|, ptr);
      StoreUnroll(ring, pHead, ptr);
      prodTail := pNext;
      contents := contents + ptr;
      n := |ptr|;
      assert ptr[..n] == ptr;
    }

    /** The load of a dequeue, between reserving and publishing. */
    method LoadFront(ptr: array<T>, head: nat, elems: nat)
      requires 1 <= ring.Length <= 0x4000_0000 && head == base % TWO32
      requires Loaded(ring[..], base, |contents|) == contents
      requires elems <= |contents| <= Window(ring.Length) && elems <= ptr.Length && ptr != ring
      requires IsPow2(ring.Length) || elems <= 1
      modifies ptr
      ensures ptr[..elems] == contents[..elems] && ptr[elems..] == old(ptr[elems..])
      ensures Loaded(ring[..], base + elems, |contents| - elems) == contents[elems..]
    {
      ghost var slots := ring[..];
      LoadedByWord(slots, head, base, elems);
      SplitLoaded(slots, base, contents, elems);
      LoadUnroll(ring, head, ptr, elems);
      assert ring[..] == slots;
    }

    /** Reserve, load and release the first `elems` elements. */
    method TakeFront(ptr: array<T>, elems: nat)
      requires Valid() && elems <= |contents| && elems <= ptr.Length && ptr != ring
      requires IsPow2(ring.Length) || elems <= 1
      modifies this, ptr
      ensures Valid() && ring[..] == old(ring[..])
      ensures ptr[..elems] + contents == old(contents) && ptr[elems..] == old(ptr[elems..])
    {
      var cHead := consHead;
      var cNext := AddWord(cHead, elems, base);
      consHead := cNext;
      LoadFront(ptr, cHead, elems);
      consTail := cNext;
      base, contents := base + elems, contents[elems..];
    }

    /** Takes as many elements as there are, up to `want`, from the front. */
    method ScDequeue(ptr: array<T>, want: nat) returns (elems: nat)
      requires Valid() && want < TWO32 && want <= ptr.Length && ptr != ring
      requires IsPow2(ring.Length) || want <= 1
      modifies this, ptr
      ensures Valid() && ring[..] == old(ring[..])
      ensures elems == if old(|contents|) < want then old(|contents|) else want
      ensures ptr[..elems] + contents == old(contents)
      ensures ptr[elems..] == old(ptr[elems..])
    {
      elems := Count();
      if elems == 0 {
        assert ptr[..0] + contents == contents;
        return;
      }
      elems := if elems < want then elems else want;
      TakeFront(ptr, elems);
    }

    method IsEmpty() returns (empty: bool)
      requires Valid()
      ensures empty <==> contents == []
    {
      WordsOf(base, |contents|, ring.Length);
      empty := consTail == prodTail;
    }
  }

  lemma SplitLoaded<T>(ring: seq<T>, base: nat, contents: seq<T>, k: nat)
    requires |ring| >= 1 && Loaded(ring, base, |contents|) == contents && k <= |contents|
    ensures Loaded(ring, base, k) == contents[..k]
    ensures Loaded(ring, base + k, |contents| - k) == contents[k..]
  {
    LoadedSplit(ring, base, k, |contents| - k);
  }
}
