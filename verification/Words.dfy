/** 32-bit words, the bitwise AND that picks a ring slot, and how far apart two
    queue positions may be before the AND maps them to the same slot. */
module Words {
  import opened Config

  const TWO32: nat := 0x1_0000_0000

  /** Bitwise AND on naturals, bit by bit from the low end. */
  function BitAnd(x: nat, m: nat): (r: nat)
    ensures r <= x && r <= m
  {
    if x == 0 || m == 0 then 0
    else 2 * BitAnd(x / 2, m / 2) + (if x % 2 == 1 && m % 2 == 1 then 1 else 0)
  }

  /** The largest power of two dividing `size`. */
  function Window(size: nat): (w: nat)
    requires size >= 1
    ensures 1 <= w <= size
  {
    if size % 2 == 1 then 1 else 2 * Window(size / 2)
  }

  predicate IsPow2(size: nat) {
    size >= 1 && Window(size) == size
  }

  function Pow2(k: nat): (r: nat)
    ensures r >= 1
  {
    if k == 0 then 1 else 2 * Pow2(k - 1)
  }

  /** The slot used for the queue position `p`: the 32-bit counter ANDed with `size - 1`. */
  function Slot(p: nat, size: nat): (s: nat)
    requires size >= 1
    ensures s < size
  {
    BitAnd(p % TWO32, size - 1)
  }

  ghost predicate CollisionFree(size: nat, n: nat)
    requires size >= 1
  {
    forall p: nat, q: nat :: p < q < p + n ==> Slot(p, size) != Slot(q, size)
  }

  lemma MulMono(w: int, a: int, b: int)
    requires w >= 0 && a <= b
    ensures w * a <= w * b
  {
  }

  lemma SmallMultiple(w: int, d: int)
    requires -w < w * d < w
    ensures d == 0
  {
    if d >= 1 {
      MulMono(w, 1, d);
    } else if d <= -1 {
      MulMono(w, d, -1);
    }
  }

  lemma ModUnique(x: int, w: int, q: int, r: int)
    requires w > 0 && x == w * q + r && 0 <= r < w
    ensures x % w == r
  {
    assert x == w * (x / w) + x % w;
    assert w * (x / w - q) == w * (x / w) - w * q == r - x % w;
    SmallMultiple(w, x / w - q);
  }

  lemma ModOfSum(w: int, t: int, x: int)
    requires w > 0
    ensures (w * t + x) % w == x % w
  {
    assert x == w * (x / w) + x % w;
    assert w * (t + x / w) == w * t + w * (x / w);
    ModUnique(w * t + x, w, t + x / w, x % w);
  }

  lemma MulAssoc(a: int, b: int, c: int)
    ensures (a * b) * c == a * (b * c)
  {
  }

  lemma ModOfMod(p: int, w: int, q: int, m: int)
    requires w > 0 && m == w * q && m > 0
    ensures (p % m) % w == p % w
  {
    var t, x := p / m, p % m;
    assert p == m * t + x;
    MulAssoc(w, q, t);
    ModOfSum(w, q * t, x);
  }

  lemma ModDouble(a: nat, b: nat, w: nat)
    requires w >= 1 && b < 2
    ensures (2 * a + b) % (2 * w) == 2 * (a % w) + b
  {
    var q := a / w;
    assert a == w * q + a % w;
    assert 2 * a + b == (2 * w) * q + (2 * (a % w) + b);
    ModUnique(2 * a + b, 2 * w, q, 2 * (a % w) + b);
  }

  /** The mask keeps the position modulo the window: the low bits of `size - 1` are all ones. */
  lemma {:induction false} BitAndResidue(x: nat, size: nat)
    requires size >= 1
    ensures BitAnd(x, size - 1) % Window(size) == x % Window(size)
    decreases size
  {
    if size % 2 == 0 {
      var h := size / 2;
      assert (size - 1) / 2 == h - 1 && (size - 1) % 2 == 1;
      BitAndResidue(x / 2, h);
      if x == 0 {
      } else {
        var b := BitAnd(x / 2, h - 1);
        assert BitAnd(x, size - 1) == 2 * b + x % 2;
        ModDouble(b, x % 2, Window(h));
        ModDouble(x / 2, x % 2, Window(h));
      }
    }
  }

  lemma {:induction false} WindowDivides(size: nat, k: nat) returns (q: nat)
    requires 1 <= size <= Pow2(k)
    ensures Pow2(k) == Window(size) * q
    decreases k
  {
    if size % 2 == 1 {
      q := Pow2(k);
    } else {
      q := WindowDivides(size / 2, k - 1);
      assert 2 * (Window(size / 2) * q) == (2 * Window(size / 2)) * q;
    }
  }

  lemma Pow2At32()
    ensures Pow2(32) == TWO32
  {
    assert Pow2(8) == 256;
    assert Pow2(16) == 65536 by { assert Pow2(12) == 4096; }
    assert Pow2(24) == 16777216 by { assert Pow2(20) == 1048576; }
    assert Pow2(32) == TWO32 by { assert Pow2(28) == 268435456; }
  }

  /** Wrapping at 2^32 does not change a position modulo the window. */
  lemma WrapKeepsResidue(p: nat, size: nat)
    requires 1 <= size <= TWO32
    ensures (p % TWO32) % Window(size) == p % Window(size)
  {
    Pow2At32();
    var q := WindowDivides(size, 32);
    ModOfMod(p, Window(size), q, TWO32);
  }

  lemma SlotResidue(p: nat, size: nat)
    requires 1 <= size <= TWO32
    ensures Slot(p, size) % Window(size) == p % Window(size)
  {
    BitAndResidue(p % TWO32, size);
    WrapKeepsResidue(p, size);
  }

  /** Positions closer than the window never share a slot, also across the 2^32 wrap. */
  lemma SlotsDistinct(p: nat, q: nat, size: nat)
    requires 1 <= size <= TWO32 && p < q < p + Window(size)
    ensures Slot(p, size) != Slot(q, size)
  {
    SlotResidue(p, size);
    SlotResidue(q, size);
    var w := Window(size);
    if p % w == q % w {
      Congruent(p, q, w);
    }
  }

  lemma Congruent(p: int, q: int, w: int)
    requires w > 0 && p % w == q % w && -w < q - p < w
    ensures p == q
  {
    assert w * (q / w - p / w) == w * (q / w) - w * (p / w) == q - p;
    SmallMultiple(w, q / w - p / w);
  }

  lemma {:induction false} WindowMasksToZero(size: nat)
    requires size >= 1
    ensures BitAnd(Window(size), size - 1) == 0
  {
    if size % 2 == 1 {
      assert (size - 1) % 2 == 0;
      assert BitAnd(0, (size - 1) / 2) == 0;
    } else {
      WindowMasksToZero(size / 2);
      assert (size - 1) / 2 == size / 2 - 1;
    }
  }

  lemma SlotsCollide(size: nat)
    requires 1 <= size < TWO32
    ensures Slot(0, size) == Slot(Window(size), size)
  {
    WindowMasksToZero(size);
  }

  /** For a power of two the mask is the remainder. */
  lemma SlotPow2(p: nat, size: nat)
    requires IsPow2(size) && size <= TWO32
    ensures Slot(p, size) == p % size
  {
    SlotResidue(p, size);
    var s := Slot(p, size);
    ModUnique(s, size, 0, s);
  }

  /** A run of `n` consecutive positions is always stored without collision exactly
      when `n` does not exceed the largest power of two dividing the ring size. */
  lemma AliasBound(size: nat, n: nat)
    requires 1 <= size < TWO32
    ensures CollisionFree(size, n) <==> n <= Window(size)
  {
    var w := Window(size);
    if n <= w {
      forall p: nat, q: nat | p < q < p + n
        ensures Slot(p, size) != Slot(q, size)
      {
        SlotsDistinct(p, q, size);
      }
    } else {
      SlotsCollide(size);
    }
  }

  lemma {:induction false} WindowOfShifted(odd: nat, k: nat)
    requires odd % 2 == 1
    ensures odd * Pow2(k) >= 1 && Window(odd * Pow2(k)) == Pow2(k)
  {
    if k > 0 {
      WindowOfShifted(odd, k - 1);
      var half := odd * Pow2(k - 1);
      assert odd * Pow2(k) == 2 * half by {
        MulAssoc(2, odd, Pow2(k - 1));
        MulAssoc(odd, 2, Pow2(k - 1));
      }
    }
  }

  /** The queue size the driver asks for: 6553600 = 25 * 2^18 is not a power of two, and
      its queues are collision-free exactly up to 2^18 outstanding entries; the
      131072-page pool stays below that. */
  lemma ConfiguredQueueWindow()
    ensures Window(CONFIGURED_QUEUE_SIZE) == 262144
    ensures forall n: nat :: CollisionFree(CONFIGURED_QUEUE_SIZE, n) <==> n <= 262144
    ensures POOL_PAGES <= Window(CONFIGURED_QUEUE_SIZE) < CONFIGURED_QUEUE_SIZE
  {
    assert Pow2(18) == 262144 by {
      assert Pow2(6) == 64;
      assert Pow2(12) == 4096;
    }
    WindowOfShifted(25, 18);
    forall n: nat
      ensures CollisionFree(CONFIGURED_QUEUE_SIZE, n) <==> n <= 262144
    {
      AliasBound(CONFIGURED_QUEUE_SIZE, n);
    }
  }
}
