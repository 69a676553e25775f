/** Shrinking and growing a server's block table: unmapped blocks first, then the block the
    age scan picks; and what every run of the server keeps. */
module Eviction {
  import opened Config
  import opened Daemon

  // ------------------------------------------------------------------ the first k blocks of a kind

  /** Apply `f` to the first `k` blocks that satisfy `p`. */
  function Applied(p: Block -> bool, f: Block -> Block, bs: seq<Block>, k: nat): (r: seq<Block>)
    ensures |r| == |bs|
  {
    if bs == [] then []
    else
      var init, last := bs[..|bs| - 1], bs[|bs| - 1];
      Applied(p, f, init, k) + [if p(last) && Count(p, init) < k then f(last) else last]
  }

  function Emptied(b: Block): Block { b.(malloced := false) }

  function Allocated(b: Block): Block { b.(malloced := true, stamp := 0) }

  lemma {:induction false} AppliedAt(p: Block -> bool, f: Block -> Block, bs: seq<Block>, k: nat, i: nat)
    requires i < |bs|
    ensures Applied(p, f, bs, k)[i] == if p(bs[i]) && Count(p, bs[..i]) < k then f(bs[i]) else bs[i]
    decreases |bs|
  {
    var init := bs[..|bs| - 1];
    if i < |bs| - 1 {
      AppliedAt(p, f, init, k, i);
      assert init[..i] == bs[..i];
    }
  }

  lemma AppliedSnoc(p: Block -> bool, f: Block -> Block, bs: seq<Block>, k: nat, i: nat)
    requires i < |bs|
    ensures Count(p, bs[..i + 1]) == Count(p, bs[..i]) + One(p(bs[i]))
    ensures Applied(p, f, bs[..i + 1], k)
            == Applied(p, f, bs[..i], k) + [if p(bs[i]) && Count(p, bs[..i]) < k then f(bs[i]) else bs[i]]
  {
    assert bs[..i + 1][..i] == bs[..i];
  }

  function Signed(d: int, m: int): int { if d == 0 then 0 else if d > 0 then m else -m }

  /** `f` moves membership in `q` by `d` on every block of the kind `p`. */
  ghost predicate Moves(p: Block -> bool, f: Block -> Block, q: Block -> bool, d: int) {
    -1 <= d <= 1 && forall b: Block :: p(b) ==> One(q(f(b))) == One(q(b)) + d
  }

  /** The count of `q` moves by `d` for each block changed, and the blocks changed are `k`
      or all there are. */
  lemma {:induction false} AppliedCounts(p: Block -> bool, f: Block -> Block, q: Block -> bool, d: int,
                                         bs: seq<Block>, k: nat)
    requires Moves(p, f, q, d)
    ensures Count(q, Applied(p, f, bs, k)) == Count(q, bs) + Signed(d, Min(k, Count(p, bs)))
  {
    if bs != [] {
      var init, last := bs[..|bs| - 1], bs[|bs| - 1];
      AppliedCounts(p, f, q, d, init, k);
      var r := Applied(p, f, bs, k);
      var last' := if p(last) && Count(p, init) < k then f(last) else last;
      assert r[..|r| - 1] == Applied(p, f, init, k) && r[|r| - 1] == last';
      assert Count(q, r) == Count(q, Applied(p, f, init, k)) + One(q(last'));
    }
  }

  /** Once `k` blocks of the kind have been met, the rest is left alone. */
  lemma {:induction false} AppliedStops(p: Block -> bool, f: Block -> Block, bs: seq<Block>, k: nat, i: nat)
    requires i <= |bs| && Count(p, bs[..i]) >= k
    ensures Applied(p, f, bs, k) == Applied(p, f, bs[..i], k) + bs[i..]
    decreases |bs|
  {
    if i == |bs| {
      assert bs[..i] == bs;
    } else {
      var init := bs[..|bs| - 1];
      assert init[..i] == bs[..i];
      AppliedStops(p, f, init, k, i);
      CountGrows(p, init, i);
      assert bs[i..] == init[i..] + [bs[|bs| - 1]];
    }
  }

  lemma {:induction false} CountGrows(p: Block -> bool, bs: seq<Block>, i: nat)
    requires i <= |bs|
    ensures Count(p, bs[..i]) <= Count(p, bs)
    decreases |bs|
  {
    if i == |bs| {
      assert bs[..i] == bs;
    } else {
      CountGrows(p, bs[..|bs| - 1], i);
      assert bs[..|bs| - 1][..i] == bs[..i];
    }
  }

  // ------------------------------------------------------------------ the age scan

  datatype Scan = Scan(index: int, oldest: nat)

  /** The scan over the first `n` blocks. A stamp of 0 doubles as "nothing found yet". */
  function Pick(bs: seq<Block>, n: nat): (r: Scan)
    requires n <= |bs|
    ensures -1 <= r.index < n
    ensures r.index >= 0 ==> IsMapped(bs[r.index]) && r.oldest == bs[r.index].stamp
    ensures r.index == -1 ==> r.oldest == 0
    ensures r.index == -1 <==> forall i :: 0 <= i < n ==> !IsMapped(bs[i])
  {
    if n == 0 then Scan(-1, 0)
    else
      var s, b := Pick(bs, n - 1), bs[n - 1];
      if IsMapped(b) && (s.oldest == 0 || s.oldest > b.stamp) then Scan(n - 1, b.stamp) else s
  }

  ghost predicate NeverWritten(bs: seq<Block>, i: nat) {
    i < |bs| && IsMapped(bs[i]) && bs[i].stamp == 0
  }

  ghost predicate LastMapped(bs: seq<Block>, n: nat, i: nat) {
    i < n <= |bs| && IsMapped(bs[i]) && forall k :: i < k < n ==> !IsMapped(bs[k])
  }

  /** The scan ends at 0 exactly when the last mapped block was never written. */
  lemma {:induction false} ZeroIffLast(bs: seq<Block>, n: nat, i: nat)
    requires LastMapped(bs, n, i)
    ensures Pick(bs, n).oldest == 0 <==> bs[i].stamp == 0
    decreases n
  {
    if i < n - 1 {
      ZeroIffLast(bs, n - 1, i);
    }
  }

  lemma {:induction false} LastOf(bs: seq<Block>, n: nat, i: nat) returns (j: nat)
    requires i < n <= |bs| && IsMapped(bs[i])
    ensures i <= j && LastMapped(bs, n, j)
    decreases n
  {
    if IsMapped(bs[n - 1]) {
      j := n - 1;
    } else {
      j := LastOf(bs, n - 1, i);
    }
  }

  /** A mapped block older than the one picked, or as old and before it, is always hidden by a
      never-written block at or after it and before the pick. */
  lemma {:induction false} OlderIsHidden(bs: seq<Block>, n: nat, i: nat) returns (z: nat)
    requires i < n <= |bs| && IsMapped(bs[i])
    requires bs[i].stamp < Pick(bs, n).oldest || (bs[i].stamp == Pick(bs, n).oldest && i < Pick(bs, n).index)
    ensures i <= z < Pick(bs, n).index && NeverWritten(bs, z)
    decreases n
  {
    var s := Pick(bs, n - 1);
    assert i < n - 1;
    if s.oldest == 0 && Pick(bs, n) != s {
      z := LastOf(bs, n - 1, i);
      ZeroIffLast(bs, n - 1, z);
    } else {
      z := OlderIsHidden(bs, n - 1, i);
    }
  }

  ghost predicate IsOldest(bs: seq<Block>, i: int) {
    0 <= i < |bs| && IsMapped(bs[i]) && forall k :: 0 <= k < |bs| && IsMapped(bs[k]) ==> bs[i].stamp <= bs[k].stamp
  }

  /** The scan picks a truly oldest mapped block exactly when every mapped block has been
      written, or the last mapped one has not. */
  lemma PickIsOldestIff(bs: seq<Block>)
    requires exists i :: 0 <= i < |bs| && IsMapped(bs[i])
    ensures IsOldest(bs, Pick(bs, |bs|).index)
            <==> (forall i :: 0 <= i < |bs| ==> !NeverWritten(bs, i))
                 || exists i: nat :: LastMapped(bs, |bs|, i) && NeverWritten(bs, i)
  {
    var n := |bs|;
    var r := Pick(bs, n);
    var i0 :| 0 <= i0 < n && IsMapped(bs[i0]);
    var last := LastOf(bs, n, i0);
    ZeroIffLast(bs, n, last);
    if r.oldest == 0 {
      assert NeverWritten(bs, last);
    } else {
      forall i: nat | LastMapped(bs, n, i)
        ensures !NeverWritten(bs, i)
      {
        ZeroIffLast(bs, n, i);
      }
      forall k | 0 <= k < n && IsMapped(bs[k]) && bs[k].stamp < r.oldest
        ensures exists z :: 0 <= z < n && NeverWritten(bs, z)
      {
        var z := OlderIsHidden(bs, n, k);
      }
    }
  }

  /** Two mapped blocks, the first never written: the scan evicts the second, newer one. */
  lemma PickMissesOldest(t: nat)
    requires t > 0
    ensures var bs := [Block(true, 0, 0, 0, 0), Block(true, 0, 1, 0, t)];
            Pick(bs, 2) == Scan(1, t) && !IsOldest(bs, 1)
  {
    var bs := [Block(true, 0, 0, 0, 0), Block(true, 0, 1, 0, t)];
    assert Pick(bs, 0) == Scan(-1, 0);
    assert Pick(bs, 1) == Scan(0, 0);
    assert IsMapped(bs[0]) && bs[0].stamp < bs[1].stamp;
  }

  // ------------------------------------------------------------------ do_evict

  /** The key list of a delete message for block `i`. */
  function OnlyKey(n: nat, i: nat): (keys: seq<nat>)
    ensures |keys| == n && forall k :: 0 <= k < n ==> keys[k] == One(k == i)
  {
    if n == 0 then [] else OnlyKey(n - 1, i) + [One(n - 1 == i)]
  }

  lemma OnlyKeyFirst(n: nat, i: nat)
    requires i < n
    ensures FirstKey(OnlyKey(n, i), 0) == i
  {
    assert OnlyKey(n, i)[i] == 1;
  }

  /** One pass of the eviction loop: the picked block's client is told and answers with a
      delete message naming that block. */
  function EvictOldest(t: Table): Table {
    var i := Pick(t.blocks, |t.blocks|).index;
    if i < 0 then t
    else
      var c, keys := t.blocks[i].owner, OnlyKey(|t.blocks|, i);
      if Deletable(t, c, keys) then DeleteBlock(t, c, keys) else t
  }

  function EvictMany(t: Table, m: nat): Table
    decreases m
  {
    if m == 0 then t else EvictMany(EvictOldest(t), m - 1)
  }

  /** `do_evict(k)`. */
  function Evicted(t: Table, k: nat): Table {
    var free := Count(IsFree, t.blocks);
    var t1 := t.(blocks := Applied(IsFree, Emptied, t.blocks, k), sizeGb := t.sizeGb - Min(k, free));
    if k <= free then t1
    else
      var rest := Min(k - free, t.mappedSize);
      EvictMany(t1, if rest < 0 then 0 else rest)
  }

  /** Blocks still allocated have not been touched. */
  ghost predicate SurvivorsKept(before: seq<Block>, after: seq<Block>) {
    |before| == |after| && forall i :: 0 <= i < |after| && after[i].malloced ==> after[i] == before[i]
  }

  lemma EvictOldestRemoves(t: Table)
    requires Accounted(t) && t.mappedSize > 0
    ensures var i := Pick(t.blocks, |t.blocks|).index;
            var t' := EvictOldest(t);
            && 0 <= i < |t.blocks| && IsMapped(t.blocks[i]) && Accounted(t')
            && t'.blocks == t.blocks[i := t.blocks[i].(owner := -1, malloced := false)]
            && t'.sizeGb == t.sizeGb - 1 && t'.mappedSize == t.mappedSize - 1
  {
    CountZero(IsMapped, t.blocks);
    var i := Pick(t.blocks, |t.blocks|).index;
    var c := t.blocks[i].owner;
    assert IndexMatches(t.rbIdx[c], t.blocks, c);
    OnlyKeyFirst(|t.blocks|, i);
    DeleteNamed(t, c, OnlyKey(|t.blocks|, i));
  }

  ghost predicate NoneFree(bs: seq<Block>) {
    forall i :: 0 <= i < |bs| ==> !IsFree(bs[i])
  }

  lemma {:induction false} EvictManyRemoves(t: Table, m: nat)
    requires Accounted(t) && m <= t.mappedSize
    ensures var t' := EvictMany(t, m);
            && Accounted(t') && t'.sizeGb == t.sizeGb - m && t'.mappedSize == t.mappedSize - m
            && SurvivorsKept(t.blocks, t'.blocks) && (NoneFree(t.blocks) ==> NoneFree(t'.blocks))
    decreases m
  {
    if m > 0 {
      EvictOldestRemoves(t);
      EvictManyRemoves(EvictOldest(t), m - 1);
    }
  }

  /** Freeing unmapped blocks leaves the mapped ones and the indexes alone. */
  lemma FreeingKeepsAccounts(t: Table, k: nat)
    requires Accounted(t)
    ensures var bs' := Applied(IsFree, Emptied, t.blocks, k);
            && Accounted(t.(blocks := bs', sizeGb := t.sizeGb - Min(k, Count(IsFree, t.blocks))))
            && SurvivorsKept(t.blocks, bs')
            && (forall i :: 0 <= i < |bs'| && IsMapped(t.blocks[i]) ==> bs'[i] == t.blocks[i])
  {
    var bs' := Applied(IsFree, Emptied, t.blocks, k);
    AppliedCounts(IsFree, Emptied, IsMalloced, -1, t.blocks, k);
    AppliedCounts(IsFree, Emptied, IsMapped, 0, t.blocks, k);
    forall i | 0 <= i < |bs'|
      ensures bs'[i].owner == t.blocks[i].owner
      ensures bs'[i].malloced ==> bs'[i] == t.blocks[i]
      ensures IsMapped(t.blocks[i]) ==> bs'[i] == t.blocks[i]
    {
      AppliedAt(IsFree, Emptied, t.blocks, k, i);
    }
    SameOwners(t, bs');
  }

  lemma SameOwners(t: Table, bs': seq<Block>)
    requires IndexesMatch(t) && |bs'| == |t.blocks|
    requires forall i :: 0 <= i < |bs'| ==> bs'[i].owner == t.blocks[i].owner
    ensures forall size :: IndexesMatch(t.(blocks := bs', sizeGb := size))
  {
    forall c | c in t.rbIdx
      ensures IndexMatches(t.rbIdx[c], bs', c)
    {
      assert IndexMatches(t.rbIdx[c], t.blocks, c);
    }
  }

  lemma FreeingAll(bs: seq<Block>, k: nat)
    requires Count(IsFree, bs) <= k
    ensures NoneFree(Applied(IsFree, Emptied, bs, k))
  {
    AppliedCounts(IsFree, Emptied, IsFree, -1, bs, k);
    CountZero(IsFree, Applied(IsFree, Emptied, bs, k));
  }

  /** Enough unmapped blocks: exactly the first `k` of them go, and nothing mapped changes. */
  lemma EvictUnmapped(t: Table, k: nat)
    requires Accounted(t) && k <= Count(IsFree, t.blocks)
    ensures var t' := Evicted(t, k);
            && Accounted(t') && SurvivorsKept(t.blocks, t'.blocks) && t'.sizeGb == t.sizeGb - k
            && t'.mappedSize == t.mappedSize
            && (forall i :: 0 <= i < |t'.blocks| && IsMapped(t.blocks[i]) ==> t'.blocks[i] == t.blocks[i])
            && forall i :: 0 <= i < |t'.blocks| && IsFree(t.blocks[i]) ==>
                 (t'.blocks[i].malloced <==> Count(IsFree, t.blocks[..i]) >= k)
  {
    FreeingKeepsAccounts(t, k);
    forall i | 0 <= i < |t.blocks| && IsFree(t.blocks[i])
      ensures Evicted(t, k).blocks[i].malloced <==> Count(IsFree, t.blocks[..i]) >= k
    {
      AppliedAt(IsFree, Emptied, t.blocks, k, i);
    }
  }

  lemma SurvivorsTrans(a: seq<Block>, b: seq<Block>, c: seq<Block>)
    requires SurvivorsKept(a, b) && SurvivorsKept(b, c)
    ensures SurvivorsKept(a, c)
  {
  }

  /** Not enough: all unmapped blocks go, and as many mapped ones as are still wanted. */
  lemma EvictMapped(t: Table, k: nat)
    requires Accounted(t) && k > Count(IsFree, t.blocks)
    ensures var t', free := Evicted(t, k), Count(IsFree, t.blocks);
            && Accounted(t') && SurvivorsKept(t.blocks, t'.blocks) && NoneFree(t'.blocks)
            && t'.sizeGb == t.sizeGb - free - Min(k - free, t.mappedSize)
            && t'.mappedSize == t.mappedSize - Min(k - free, t.mappedSize)
  {
    FreePlusMapped(t.blocks);
    var m := Min(k - Count(IsFree, t.blocks), t.mappedSize);
    AllStripped(t);
    EvictedMapped(t, k);
    EvictManyRemoves(Stripped(t), m);
    SurvivorsTrans(t.blocks, Stripped(t).blocks, EvictMany(Stripped(t), m).blocks);
  }

  lemma AllStripped(t: Table)
    requires Accounted(t)
    ensures var t1 := Stripped(t);
            && Accounted(t1) && SurvivorsKept(t.blocks, t1.blocks) && NoneFree(t1.blocks)
            && t1.sizeGb == t.sizeGb - Count(IsFree, t.blocks) && t1.mappedSize == t.mappedSize
  {
    FreeingKeepsAccounts(t, Count(IsFree, t.blocks));
    FreeingAll(t.blocks, Count(IsFree, t.blocks));
  }

  /** `do_evict(k)` removes exactly `k` blocks, or all there are; it takes unmapped blocks
      first, in the table's order, and mapped ones only after no unmapped block is left; the
      others stay as they were. */
  lemma EvictRemovesExactly(t: Table, k: nat)
    requires Accounted(t)
    ensures var t' := Evicted(t, k);
            var free := Count(IsFree, t.blocks);
            && Accounted(t') && SurvivorsKept(t.blocks, t'.blocks)
            && t'.sizeGb == t.sizeGb - Min(k, t.sizeGb)
            && (k <= free ==> t'.mappedSize == t.mappedSize
                              && (forall i :: 0 <= i < |t'.blocks| && IsMapped(t.blocks[i]) ==>
                                    t'.blocks[i] == t.blocks[i])
                              && forall i :: 0 <= i < |t'.blocks| && IsFree(t.blocks[i]) ==>
                                   (t'.blocks[i].malloced <==> Count(IsFree, t.blocks[..i]) >= k))
            && (k > free ==> NoneFree(t'.blocks) && t'.mappedSize == t.mappedSize - Min(k - free, t.mappedSize))
  {
    FreePlusMapped(t.blocks);
    if k <= Count(IsFree, t.blocks) {
      EvictUnmapped(t, k);
    } else {
      EvictMapped(t, k);
    }
  }

  // ------------------------------------------------------------------ which mapped blocks go

  /** A never-written block at or after `j` and before `i` makes the scan start over, so that `j`
      is not looked at while `i` is there. */
  ghost predicate Hides(bs: seq<Block>, j: int, i: int) {
    exists z: nat :: j <= z < i && NeverWritten(bs, z)
  }

  /** When block `i` goes and the mapped block `j` stays: the scan does not get to `j` before `i`, or
      it compares the two and `i` is the older, or as old and the first in the table. */
  ghost predicate GoesBefore(bs: seq<Block>, i: int, j: int)
    requires 0 <= i < |bs| && 0 <= j < |bs|
  {
    Hides(bs, j, i)
    || (!Hides(bs, i, j) && (bs[i].stamp < bs[j].stamp || (bs[i].stamp == bs[j].stamp && i <= j)))
  }

  lemma {:induction false} PickIsBehind(bs: seq<Block>, n: nat, z: nat, j: nat)
    requires NeverWritten(bs, z) && z < j < n <= |bs| && IsMapped(bs[j])
    ensures Pick(bs, n).index > z
    decreases n
  {
    if j < n - 1 {
      PickIsBehind(bs, n - 1, z, j);
    } else if Pick(bs, n - 1).index <= z {
      PickOfZero(bs, n - 1, z);
    }
  }

  /** Up to a never-written block that nothing mapped follows, the scan ends at 0. */
  lemma PickOfZero(bs: seq<Block>, n: nat, z: nat)
    requires NeverWritten(bs, z) && z < n <= |bs| && Pick(bs, n).index <= z
    ensures Pick(bs, n).oldest == 0
  {
    if Pick(bs, n).oldest > 0 {
      var y := OlderIsHidden(bs, n, z);
    }
  }

  lemma PickGoesFirst(bs: seq<Block>, j: nat)
    requires j < |bs| && IsMapped(bs[j])
    ensures var i := Pick(bs, |bs|).index; 0 <= i < |bs| && GoesBefore(bs, i, j)
  {
    var i := Pick(bs, |bs|).index;
    if bs[j].stamp < bs[i].stamp || (bs[j].stamp == bs[i].stamp && j < i) {
      var z := OlderIsHidden(bs, |bs|, j);
      assert Hides(bs, j, i);
    } else if Hides(bs, i, j) {
      var z: nat :| i <= z < j && NeverWritten(bs, z);
      PickIsBehind(bs, |bs|, z, j);
    }
  }

  ghost predicate Gone(before: seq<Block>, after: seq<Block>, i: int) {
    0 <= i < |before| == |after| && IsMapped(before[i]) && !IsMapped(after[i])
  }

  ghost predicate Stays(before: seq<Block>, after: seq<Block>, i: int) {
    0 <= i < |before| == |after| && IsMapped(before[i]) && IsMapped(after[i])
  }

  ghost predicate GoneBefore(before: seq<Block>, after: seq<Block>, i: int, j: int) {
    Gone(before, after, i) && Stays(before, after, j) ==> GoesBefore(before, i, j)
  }

  /** Every mapped block that goes, goes before every one that stays. */
  ghost predicate GoneFirst(before: seq<Block>, after: seq<Block>) {
    forall i, j :: GoneBefore(before, after, i, j)
  }

  /** Unmapping the block the scan picked does not change who goes before whom among the others. */
  lemma OrderKept(bs: seq<Block>, mid: seq<Block>, i: int, j: int)
    requires UnmapsPick(bs, mid) && 0 <= i < |bs| && 0 <= j < |bs| && IsMapped(mid[j])
    requires i != Pick(bs, |bs|).index && GoesBefore(mid, i, j)
    ensures GoesBefore(bs, i, j)
  {
    assert forall z: nat :: NeverWritten(mid, z) ==> NeverWritten(bs, z);
    if !Hides(mid, j, i) {
      forall z: nat | i <= z < j
        ensures !NeverWritten(bs, z)
      {
        assert !NeverWritten(mid, z);
        if NeverWritten(bs, z) {
          PickIsBehind(bs, |bs|, z, j);
        }
      }
    }
  }

  /** One pass of the eviction loop on the blocks. */
  ghost predicate UnmapsPick(bs: seq<Block>, mid: seq<Block>) {
    var p := Pick(bs, |bs|).index;
    0 <= p && mid == bs[p := bs[p].(owner := -1, malloced := false)]
  }

  lemma OrderStep(bs: seq<Block>, mid: seq<Block>, after: seq<Block>)
    requires UnmapsPick(bs, mid) && GoneFirst(mid, after) && |after| == |mid|
    requires forall i :: 0 <= i < |after| && IsMapped(after[i]) ==> IsMapped(mid[i])
    ensures GoneFirst(bs, after)
  {
    forall i, j
      ensures GoneBefore(bs, after, i, j)
    {
      if Gone(bs, after, i) && Stays(bs, after, j) {
        assert IsMapped(mid[j]);
        if i == Pick(bs, |bs|).index {
          PickGoesFirst(bs, j);
        } else {
          assert GoneBefore(mid, after, i, j);
          OrderKept(bs, mid, i, j);
        }
      }
    }
  }

  /** What is mapped after some evictions was mapped before. */
  lemma MappedBefore(t: Table, m: nat)
    requires Accounted(t) && m <= t.mappedSize
    ensures Accounted(EvictMany(t, m)) && EvictMany(t, m).mappedSize == t.mappedSize - m
    ensures var after := EvictMany(t, m).blocks;
            |after| == |t.blocks| && forall i :: 0 <= i < |after| && IsMapped(after[i]) ==> after[i] == t.blocks[i]
  {
    EvictManyRemoves(t, m);
  }

  /** The blocks after `m` passes. */
  function Passes(bs: seq<Block>, m: nat): (r: seq<Block>)
    ensures |r| == |bs| && forall i :: 0 <= i < |r| && IsMapped(r[i]) ==> IsMapped(bs[i])
    decreases m
  {
    var p := Pick(bs, |bs|).index;
    if m == 0 || p < 0 then bs else Passes(bs[p := bs[p].(owner := -1, malloced := false)], m - 1)
  }

  lemma NothingGone(bs: seq<Block>)
    ensures GoneFirst(bs, bs)
  {
    assert forall i, j :: GoneBefore(bs, bs, i, j);
  }

  lemma {:induction false} PassesOrder(bs: seq<Block>, m: nat)
    ensures GoneFirst(bs, Passes(bs, m))
    decreases m
  {
    var p := Pick(bs, |bs|).index;
    if m == 0 || p < 0 {
      NothingGone(bs);
    } else {
      var mid := bs[p := bs[p].(owner := -1, malloced := false)];
      PassesOrder(mid, m - 1);
      OrderStep(bs, mid, Passes(mid, m - 1));
    }
  }

  lemma {:induction false} EvictManyPasses(t: Table, m: nat)
    requires Accounted(t) && m <= t.mappedSize
    ensures EvictMany(t, m).blocks == Passes(t.blocks, m)
    decreases m
  {
    if m > 0 {
      EvictOldestRemoves(t);
      EvictManyPasses(EvictOldest(t), m - 1);
    }
  }

  lemma EvictManyOrder(t: Table, m: nat)
    requires Accounted(t) && m <= t.mappedSize
    ensures GoneFirst(t.blocks, EvictMany(t, m).blocks)
  {
    EvictManyPasses(t, m);
    PassesOrder(t.blocks, m);
  }

  /** Whether a mapped block has been written, and when, does not change by freeing unmapped ones. */
  lemma SameOrder(before: seq<Block>, mid: seq<Block>, after: seq<Block>)
    requires |before| == |mid| && GoneFirst(mid, after)
    requires forall i :: 0 <= i < |mid| ==> (IsMapped(mid[i]) <==> IsMapped(before[i]))
    requires forall i :: 0 <= i < |mid| && IsMapped(before[i]) ==> mid[i] == before[i]
    ensures GoneFirst(before, after)
  {
    assert forall z: nat :: NeverWritten(mid, z) <==> NeverWritten(before, z);
    forall i, j
      ensures GoneBefore(before, after, i, j)
    {
      assert GoneBefore(mid, after, i, j);
      assert Hides(mid, j, i) <==> Hides(before, j, i);
      assert Hides(mid, i, j) <==> Hides(before, i, j);
    }
  }

  /** More than there are is all there are. */
  lemma AppliedAll(bs: seq<Block>, k: nat, n: nat)
    requires Count(IsFree, bs) <= k && Count(IsFree, bs) <= n
    ensures Applied(IsFree, Emptied, bs, k) == Applied(IsFree, Emptied, bs, n)
  {
    var a, b := Applied(IsFree, Emptied, bs, k), Applied(IsFree, Emptied, bs, n);
    forall i | 0 <= i < |bs|
      ensures a[i] == b[i]
    {
      AppliedAt(IsFree, Emptied, bs, k, i);
      AppliedAt(IsFree, Emptied, bs, n, i);
      CountGrows(IsFree, bs, i + 1);
      AppliedSnoc(IsFree, Emptied, bs, k, i);
    }
  }

  lemma MappedStay(t: Table, k: nat)
    requires Accounted(t)
    ensures var bs := Applied(IsFree, Emptied, t.blocks, k);
            forall i :: 0 <= i < |t.blocks| ==> (IsMapped(bs[i]) <==> IsMapped(t.blocks[i]))
  {
    forall i | 0 <= i < |t.blocks|
      ensures IsMapped(Applied(IsFree, Emptied, t.blocks, k)[i]) <==> IsMapped(t.blocks[i])
    {
      AppliedAt(IsFree, Emptied, t.blocks, k, i);
    }
  }

  /** The table once all unmapped blocks are freed. */
  function Stripped(t: Table): (t1: Table) {
    var free := Count(IsFree, t.blocks);
    t.(blocks := Applied(IsFree, Emptied, t.blocks, free), sizeGb := t.sizeGb - free)
  }

  lemma StrippedKeeps(t: Table)
    requires Accounted(t)
    ensures Accounted(Stripped(t)) && |Stripped(t).blocks| == |t.blocks|
    ensures forall i :: 0 <= i < |t.blocks| && IsMapped(t.blocks[i]) ==> Stripped(t).blocks[i] == t.blocks[i]
    ensures forall i :: 0 <= i < |t.blocks| ==> (IsMapped(Stripped(t).blocks[i]) <==> IsMapped(t.blocks[i]))
  {
    FreeingKeepsAccounts(t, Count(IsFree, t.blocks));
    MappedStay(t, Count(IsFree, t.blocks));
  }

  /** Evicting more than there are unmapped blocks. */
  lemma EvictedMapped(t: Table, k: nat)
    requires Accounted(t) && Count(IsFree, t.blocks) <= k
    ensures Evicted(t, k) == EvictMany(Stripped(t), Min(k - Count(IsFree, t.blocks), t.mappedSize))
  {
    AppliedAll(t.blocks, k, Count(IsFree, t.blocks));
  }

  /** `do_evict(k)` on any table: the mapped blocks that go are those the scan puts first. */
  lemma EvictionOrder(t: Table, k: nat)
    requires Accounted(t)
    ensures GoneFirst(t.blocks, Evicted(t, k).blocks)
  {
    FreePlusMapped(t.blocks);
    if k <= Count(IsFree, t.blocks) {
      EvictUnmapped(t, k);
      UntouchedGoNot(t.blocks, Evicted(t, k).blocks);
    } else {
      var m := Min(k - Count(IsFree, t.blocks), t.mappedSize);
      StrippedKeeps(t);
      EvictManyOrder(Stripped(t), m);
      EvictedMapped(t, k);
      SameOrder(t.blocks, Stripped(t).blocks, Evicted(t, k).blocks);
    }
  }

  lemma UntouchedGoNot(before: seq<Block>, after: seq<Block>)
    requires |before| == |after| && forall i :: 0 <= i < |after| && IsMapped(before[i]) ==> after[i] == before[i]
    ensures GoneFirst(before, after)
  {
    assert forall i, j :: GoneBefore(before, after, i, j);
  }

  /** No mapped block that goes is newer than one that stays. */
  ghost predicate OldestGo(before: seq<Block>, after: seq<Block>) {
    forall i, j :: Gone(before, after, i) && Stays(before, after, j) ==> before[i].stamp <= before[j].stamp
  }

  lemma OldestByOrder(before: seq<Block>, after: seq<Block>)
    requires GoneFirst(before, after)
    requires forall z: nat, i: nat :: NeverWritten(before, z) && z < i < |before| && IsMapped(before[i]) ==>
               before[i].stamp == 0
    ensures OldestGo(before, after)
  {
    forall i, j | Gone(before, after, i) && Stays(before, after, j)
      ensures before[i].stamp <= before[j].stamp
    {
      assert GoneBefore(before, after, i, j);
    }
  }

  /** If every mapped block has been written, exactly the oldest go. */
  lemma OldestGoIfWritten(t: Table, k: nat)
    requires Accounted(t) && forall z: nat :: !NeverWritten(t.blocks, z)
    ensures OldestGo(t.blocks, Evicted(t, k).blocks)
  {
    EvictionOrder(t, k);
    OldestByOrder(t.blocks, Evicted(t, k).blocks);
  }

  /** The block written last goes last: as long as it was written later than every other mapped
      block was, no eviction takes it while another mapped block stays. */
  lemma LastWrittenGoesLast(t: Table, i: nat, now: nat, k: nat)
    requires Accounted(t) && i < |t.blocks| && IsMapped(t.blocks[i])
    requires forall j :: 0 <= j < |t.blocks| && j != i && IsMapped(t.blocks[j]) ==> 0 < t.blocks[j].stamp < now
    ensures var before := Touch(t, i, now).blocks;
            var after := Evicted(Touch(t, i, now), k).blocks;
            Gone(before, after, i) ==> forall j :: !Stays(before, after, j)
  {
    TouchKeepsAccounts(t, i, now);
    if now > 0 {
      OldestGoIfWritten(Touch(t, i, now), k);
    } else {
      EvictionOrder(Touch(t, i, now), k);
      assert forall j :: 0 <= j < |t.blocks| && j != i ==> !IsMapped(t.blocks[j]);
    }
  }

  /** No written mapped block stands behind a never-written one. */
  ghost predicate UnwrittenLast(bs: seq<Block>) {
    forall z: nat, i: nat :: NeverWritten(bs, z) && z < i < |bs| && IsMapped(bs[i]) ==> bs[i].stamp == 0
  }

  lemma UnwrittenLastSuffices(t: Table, k: nat)
    requires Accounted(t) && UnwrittenLast(t.blocks)
    ensures OldestGo(t.blocks, Evicted(t, k).blocks)
  {
    EvictionOrder(t, k);
    OldestByOrder(t.blocks, Evicted(t, k).blocks);
  }

  lemma {:induction false} EvictManyLast(t: Table, m: nat)
    requires Accounted(t) && 1 <= m <= t.mappedSize
    ensures EvictMany(t, m) == EvictOldest(EvictMany(t, m - 1))
    decreases m
  {
    if m > 1 {
      EvictOldestRemoves(t);
      EvictManyLast(EvictOldest(t), m - 1);
    }
  }

  /** The first number of evictions at which block `i` goes. */
  lemma {:induction false} FirstGone(t: Table, i: nat, n: nat) returns (m: nat)
    requires Accounted(t) && 1 <= n <= t.mappedSize && Gone(t.blocks, EvictMany(t, n).blocks, i)
    ensures 1 <= m <= n && Gone(t.blocks, EvictMany(t, m).blocks, i) && Stays(t.blocks, EvictMany(t, m - 1).blocks, i)
    decreases n
  {
    MappedBefore(t, n - 1);
    if Gone(t.blocks, EvictMany(t, n - 1).blocks, i) {
      m := FirstGone(t, i, n - 1);
    } else {
      m := n;
    }
  }

  /** As long as the written block `i` behind it stays, so does the never-written `z`, and the pass
      that takes `i` leaves `z`. */
  lemma UnwrittenStays(bs: seq<Block>, before: seq<Block>, after: seq<Block>, z: nat, i: nat)
    requires NeverWritten(bs, z) && z < i && GoneFirst(bs, before) && Stays(bs, before, i) && Gone(bs, after, i)
    requires UnmapsPick(before, after)
    ensures Stays(bs, after, z)
  {
    assert Hides(bs, z, i);
    assert GoneBefore(bs, before, z, i);
  }

  /** Behind a never-written block `z`, a written one goes while `z` stays. */
  lemma WrittenGoesFirst(t: Table, z: nat, i: nat) returns (m: nat)
    requires Accounted(t) && NeverWritten(t.blocks, z) && z < i < |t.blocks| && IsMapped(t.blocks[i])
    ensures 1 <= m <= t.mappedSize
    ensures Gone(t.blocks, EvictMany(t, m).blocks, i) && Stays(t.blocks, EvictMany(t, m).blocks, z)
  {
    var n := AllGone(t, i);
    m := FirstGone(t, i, n);
    EvictManyOrder(t, m - 1);
    EvictManyLast(t, m);
    MappedBefore(t, m - 1);
    EvictOldestRemoves(EvictMany(t, m - 1));
    UnwrittenStays(t.blocks, EvictMany(t, m - 1).blocks, EvictMany(t, m).blocks, z, i);
  }

  lemma AllGone(t: Table, i: nat) returns (n: nat)
    requires Accounted(t) && i < |t.blocks| && IsMapped(t.blocks[i])
    ensures 1 <= n == t.mappedSize && Gone(t.blocks, EvictMany(t, n).blocks, i)
  {
    n := t.mappedSize;
    CountZero(IsMapped, t.blocks);
    MappedBefore(t, n);
    CountZero(IsMapped, EvictMany(t, n).blocks);
  }

  /** Evictions of every size take the oldest mapped blocks if and only if no written mapped block
      stands behind a never-written one in the table. */
  lemma OldestGoIff(t: Table)
    requires Accounted(t)
    ensures (forall k: nat :: OldestGo(t.blocks, Evicted(t, k).blocks)) <==> UnwrittenLast(t.blocks)
  {
    if UnwrittenLast(t.blocks) {
      forall k: nat
        ensures OldestGo(t.blocks, Evicted(t, k).blocks)
      {
        UnwrittenLastSuffices(t, k);
      }
    } else {
      var z: nat, i: nat :| NeverWritten(t.blocks, z) && z < i < |t.blocks| && IsMapped(t.blocks[i])
                            && t.blocks[i].stamp != 0;
      var k := NewerGoes(t, z, i);
      assert !OldestGo(t.blocks, Evicted(t, k).blocks);
    }
  }

  lemma NewerGoes(t: Table, z: nat, i: nat) returns (k: nat)
    requires Accounted(t) && NeverWritten(t.blocks, z) && z < i < |t.blocks| && IsMapped(t.blocks[i])
    ensures Gone(t.blocks, Evicted(t, k).blocks, i) && Stays(t.blocks, Evicted(t, k).blocks, z)
  {
    StrippedKeeps(t);
    var m := WrittenGoesFirst(Stripped(t), z, i);
    k := Count(IsFree, t.blocks) + m;
    EvictedMapped(t, k);
  }

  // ------------------------------------------------------------------ expansion and start-up

  function ExpandSize(t: Table, filtered: int): int {
    Min(filtered - FREE_MEM_EXPAND_THRESHOLD, MAX_FREE_MEM_GB - t.sizeGb)
  }

  /** The expansion branch of the memory monitor, taken when the filtered free memory is
      above the threshold. */
  function Expanded(t: Table, filtered: int): Table
    requires ExpandSize(t, filtered) >= 0
  {
    var e := ExpandSize(t, filtered);
    t.(blocks := Applied(IsEmpty, Allocated, t.blocks, e), sizeGb := t.sizeGb + e)
  }

  /** Expansion allocates exactly its clamped size, in the table's order, as free blocks that were
      never written, and touches no allocated block. */
  lemma ExpandAllocatesExactly(t: Table, filtered: int)
    requires Accounted(t) && filtered > FREE_MEM_EXPAND_THRESHOLD
    ensures ExpandSize(t, filtered) >= 0
    ensures var t' := Expanded(t, filtered);
            && Accounted(t') && t'.mappedSize == t.mappedSize
            && Count(IsMalloced, t'.blocks) == Min(t.sizeGb + filtered - FREE_MEM_EXPAND_THRESHOLD, MAX_FREE_MEM_GB)
            && (forall i :: 0 <= i < |t.blocks| && t.blocks[i].malloced ==> t'.blocks[i] == t.blocks[i])
            && forall i :: 0 <= i < |t.blocks| && IsEmpty(t.blocks[i]) ==>
                 if Count(IsEmpty, t.blocks[..i]) < ExpandSize(t, filtered)
                 then IsFree(t'.blocks[i]) && t'.blocks[i].stamp == 0
                 else t'.blocks[i] == t.blocks[i]
  {
    FreePlusMapped(t.blocks);
    var e := ExpandSize(t, filtered);
    var bs' := Applied(IsEmpty, Allocated, t.blocks, e);
    AppliedCounts(IsEmpty, Allocated, IsMalloced, 1, t.blocks, e);
    AppliedCounts(IsEmpty, Allocated, IsMapped, 0, t.blocks, e);
    forall i | 0 <= i < |bs'|
      ensures bs'[i].owner == t.blocks[i].owner
      ensures t.blocks[i].malloced ==> bs'[i] == t.blocks[i]
      ensures IsEmpty(t.blocks[i]) ==>
                bs'[i] == if Count(IsEmpty, t.blocks[..i]) < e then Allocated(t.blocks[i]) else t.blocks[i]
    {
      AppliedAt(IsEmpty, Allocated, t.blocks, e, i);
    }
    SameOwners(t, bs');
  }

  /** What start-up leaves to the machine: the lower threshold, or halfway between the two if it
      finds more than the upper one. */
  function Reserve(freeMem: int): (g: int) {
    if freeMem > FREE_MEM_EXPAND_THRESHOLD then 15 else 10
  }

  /** Gigabytes allocated at start-up, from the free memory found: the most that fits the table
      and leaves the reserve free. */
  function SessionSize(freeMem: int): (g: int)
    ensures 0 <= g <= MAX_FREE_MEM_GB
    ensures g > 0 ==> freeMem - g >= Reserve(freeMem)
  {
    var g := if freeMem > FREE_MEM_EXPAND_THRESHOLD
             then freeMem - (FREE_MEM_EVICT_THRESHOLD + FREE_MEM_EXPAND_THRESHOLD) / 2
             else if freeMem > FREE_MEM_EVICT_THRESHOLD then freeMem - FREE_MEM_EVICT_THRESHOLD
             else 0;
    Min(g, MAX_FREE_MEM_GB)
  }

  lemma SessionSizeIsLargest(freeMem: int, h: nat)
    ensures h <= SessionSize(freeMem) <==> h == 0 || (h <= MAX_FREE_MEM_GB && freeMem - h >= Reserve(freeMem))
  {
  }

  function Fresh(malloced: bool): Block { Block(malloced, -1, 0, 0, 0) }

  function InitTable(freeMem: int): (t: Table) {
    var g := SessionSize(freeMem);
    Table(seq(MAX_FREE_MEM_GB, i => Fresh(i < g)), g, 0, map[])
  }

  lemma {:induction false} FreshCounts(bs: seq<Block>, g: nat)
    requires forall i :: 0 <= i < |bs| ==> bs[i] == Fresh(i < g)
    ensures Count(IsMalloced, bs) == Min(g, |bs|) && Count(IsMapped, bs) == 0
  {
    if bs != [] {
      FreshCounts(bs[..|bs| - 1], g);
    }
  }

  lemma InitAccounted(freeMem: int)
    ensures Accounted(InitTable(freeMem))
    ensures Advertised(InitTable(freeMem)) == SessionSize(freeMem)
  {
    FreshCounts(InitTable(freeMem).blocks, SessionSize(freeMem));
  }

  // ------------------------------------------------------------------ whole runs

  datatype Event =
    | Connects(c: int)
    | Maps(c: int, clientRb: int, replica: int)
    | Deletes(c: int, keys: seq<nat>)
    | Touches(i: nat, now: nat)
    | Evicts(k: nat)
    | Expands(filtered: int)

  /** Well-formed messages: a client asks for a block only after a positive answer to its
      query, and a delete names a block mapped for the sender. */
  predicate WellFormed(t: Table, e: Event) {
    match e
    case Connects(c) => c >= 0
    case Maps(c, _, _) => c in t.rbIdx && |t.rbIdx[c]| == |t.blocks| && Advertised(t) > 0
    case Deletes(c, keys) => Deletable(t, c, keys) && FirstKey(keys, 0) < |keys|
    case Touches(i, _) => i < |t.blocks| && IsMapped(t.blocks[i])
    case Evicts(k) => k >= 1
    case Expands(filtered) => filtered > FREE_MEM_EXPAND_THRESHOLD && ExpandSize(t, filtered) >= 0
  }

  function Handle(t: Table, e: Event): Table
    requires WellFormed(t, e)
  {
    match e
    case Connects(c) => Connect(t, c)
    case Maps(c, clientRb, replica) => MapBlock(t, c, clientRb, replica)
    case Deletes(c, keys) => DeleteBlock(t, c, keys)
    case Touches(i, now) => Touch(t, i, now)
    case Evicts(k) => Evicted(t, k)
    case Expands(filtered) => Expanded(t, filtered)
  }

  lemma TouchKeepsAccounts(t: Table, i: nat, now: nat)
    requires Accounted(t) && i < |t.blocks|
    ensures Accounted(Touch(t, i, now))
  {
    var b := t.blocks[i].(stamp := now);
    CountUpdate(IsMalloced, t.blocks, i, b);
    CountUpdate(IsMapped, t.blocks, i, b);
    SameOwners(t, t.blocks[i := b]);
    assert Touch(t, i, now) == t.(blocks := t.blocks[i := b], sizeGb := t.sizeGb);
  }

  lemma ConnectKeepsAccounts(t: Table, c: int)
    requires Accounted(t) && c >= 0
    ensures Accounted(Connect(t, c))
  {
    if c !in t.rbIdx {
      forall i | 0 <= i < |t.blocks|
        ensures t.blocks[i].owner != c
      {
        assert IsMapped(t.blocks[i]) ==> t.blocks[i].owner in t.rbIdx;
      }
      assert IndexMatches(seq(|t.blocks|, _ => -1), t.blocks, c);
    }
  }

  lemma HandleKeepsAccounts(t: Table, e: Event)
    requires Accounted(t) && WellFormed(t, e)
    ensures Accounted(Handle(t, e))
  {
    match e
    case Connects(c) => ConnectKeepsAccounts(t, c);
    case Maps(c, clientRb, replica) => MapFound(t, c, clientRb, replica);
    case Deletes(c, keys) => DeleteNamed(t, c, keys);
    case Touches(i, now) => TouchKeepsAccounts(t, i, now);
    case Evicts(k) => EvictRemovesExactly(t, k);
    case Expands(filtered) => ExpandAllocatesExactly(t, filtered);
  }

  ghost predicate WellFormedRun(t: Table, run: seq<Event>)
    decreases |run|
  {
    run == [] || (WellFormed(t, run[0]) && WellFormedRun(Handle(t, run[0]), run[1..]))
  }

  ghost function HandleAll(t: Table, run: seq<Event>): Table
    requires WellFormedRun(t, run)
    decreases |run|
  {
    if run == [] then t else HandleAll(Handle(t, run[0]), run[1..])
  }

  lemma {:induction false} RunKeepsAccounts(t: Table, run: seq<Event>)
    requires Accounted(t) && WellFormedRun(t, run)
    ensures Accounted(HandleAll(t, run))
    decreases |run|
  {
    if run != [] {
      HandleKeepsAccounts(t, run[0]);
      RunKeepsAccounts(Handle(t, run[0]), run[1..]);
    }
  }

  /** From start-up on, after any run of well-formed messages: the answer to a query is the
      number of blocks the next map requests can take. */
  lemma AnswersAreTrue(freeMem: int, run: seq<Event>)
    requires WellFormedRun(InitTable(freeMem), run)
    ensures var t := HandleAll(InitTable(freeMem), run);
            && Accounted(t) && Advertised(t) == Count(IsFree, t.blocks)
            && (Advertised(t) > 0 <==> First(IsFree, t.blocks, 0) < |t.blocks|)
  {
    InitAccounted(freeMem);
    RunKeepsAccounts(InitTable(freeMem), run);
    AdvertisedIsFree(HandleAll(InitTable(freeMem), run));
  }
}
