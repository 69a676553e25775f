/** The block table a memory server keeps: which gigabyte blocks are allocated, which are
    mapped and for whom, and the two counters it answers queries from. */
module Daemon {

  const MAX_FREE_MEM_GB: nat := 32
  const FREE_MEM_EVICT_THRESHOLD: int := 10
  const FREE_MEM_EXPAND_THRESHOLD: int := 20

  /** `owner` is the connection a block is mapped for, or -1; `stamp` the time of the last
      write in the block's header, 0 for a block that was never written. */
  datatype Block = Block(malloced: bool, owner: int, clientRb: int, replica: int, stamp: nat)

  /** `rbIdx` is each connection's own index of its blocks. */
  datatype Table = Table(blocks: seq<Block>, sizeGb: int, mappedSize: int, rbIdx: map<int, seq<int>>)

  predicate IsFree(b: Block) { b.malloced && b.owner == -1 }

  predicate IsMapped(b: Block) { b.owner != -1 }

  predicate IsMalloced(b: Block) { b.malloced }

  predicate IsEmpty(b: Block) { !b.malloced }

  function One(b: bool): (r: nat) { if b then 1 else 0 }

  function Count(p: Block -> bool, bs: seq<Block>): (n: nat)
    ensures n <= |bs|
  {
    if bs == [] then 0 else Count(p, bs[..|bs| - 1]) + One(p(bs[|bs| - 1]))
  }

  /** Mapped blocks are allocated, the counters count, and each connection's index lists
      exactly the blocks mapped for it. */
  ghost predicate Accounted(t: Table) {
    && |t.blocks| == MAX_FREE_MEM_GB
    && MappedAreMalloced(t.blocks)
    && t.sizeGb == Count(IsMalloced, t.blocks)
    && t.mappedSize == Count(IsMapped, t.blocks)
    && IndexesMatch(t)
  }

  ghost predicate MappedAreMalloced(bs: seq<Block>) {
    forall i :: 0 <= i < |bs| && IsMapped(bs[i]) ==> IsMalloced(bs[i])
  }

  ghost predicate IndexesMatch(t: Table) {
    && -1 !in t.rbIdx
    && (forall i :: 0 <= i < |t.blocks| && IsMapped(t.blocks[i]) ==> t.blocks[i].owner in t.rbIdx)
    && forall c :: c in t.rbIdx ==> IndexMatches(t.rbIdx[c], t.blocks, c)
  }

  ghost predicate IndexMatches(idx: seq<int>, bs: seq<Block>, c: int) {
    |idx| == |bs| && forall i :: 0 <= i < |idx| ==> idx[i] == if bs[i].owner == c then i else -1
  }

  // ------------------------------------------------------------------ counting

  lemma {:induction false} CountUpdate(p: Block -> bool, bs: seq<Block>, i: nat, b: Block)
    requires i < |bs|
    ensures Count(p, bs[i := b]) == Count(p, bs) - One(p(bs[i])) + One(p(b))
    decreases |bs|
  {
    var n := |bs| - 1;
    var bs' := bs[i := b];
    if i == n {
      assert bs'[..n] == bs[..n];
    } else {
      CountUpdate(p, bs[..n], i, b);
      assert bs'[..n] == bs[..n][i := b];
    }
  }

  lemma {:induction false} FreePlusMapped(bs: seq<Block>)
    requires MappedAreMalloced(bs)
    ensures Count(IsFree, bs) + Count(IsMapped, bs) == Count(IsMalloced, bs)
    ensures Count(IsMalloced, bs) + Count(IsEmpty, bs) == |bs|
  {
    if bs != [] {
      FreePlusMapped(bs[..|bs| - 1]);
    }
  }

  lemma {:induction false} CountZero(p: Block -> bool, bs: seq<Block>)
    ensures Count(p, bs) == 0 <==> forall i :: 0 <= i < |bs| ==> !p(bs[i])
  {
    if bs != [] {
      var n := |bs| - 1;
      CountZero(p, bs[..n]);
      assert forall i :: 0 <= i < n ==> bs[..n][i] == bs[i];
    }
  }

  // ------------------------------------------------------------------ query, map, delete

  function Advertised(t: Table): int {
    if t.sizeGb - t.mappedSize < 0 then 0 else t.sizeGb - t.mappedSize
  }

  /** First index from `i` on whose block satisfies `p`, or the length. */
  function First(p: Block -> bool, bs: seq<Block>, i: nat): (r: nat)
    requires i <= |bs|
    ensures i <= r <= |bs|
    ensures r < |bs| ==> p(bs[r])
    ensures forall k :: i <= k < r ==> !p(bs[k])
    decreases |bs| - i
  {
    if i == |bs| || p(bs[i]) then i else First(p, bs, i + 1)
  }

  /** A connection appears, with an empty index. */
  function Connect(t: Table, c: int): Table {
    if c in t.rbIdx then t else t.(rbIdx := t.rbIdx[c := seq(|t.blocks|, _ => -1)])
  }

  /** `prepare_single_mr`: `mappedSize` grows whether or not a block was found. */
  function MapBlock(t: Table, c: int, clientRb: int, replica: int): Table
    requires c in t.rbIdx && |t.rbIdx[c]| == |t.blocks|
  {
    var i := First(IsFree, t.blocks, 0);
    if i == |t.blocks| then t.(mappedSize := t.mappedSize + 1)
    else
      t.(blocks := t.blocks[i := t.blocks[i].(owner := c, clientRb := clientRb, replica := replica)],
         mappedSize := t.mappedSize + 1,
         rbIdx := t.rbIdx[c := t.rbIdx[c][i := i]])
  }

  function FirstKey(keys: seq<nat>, i: nat): (r: nat)
    requires i <= |keys|
    ensures i <= r <= |keys|
    ensures r < |keys| ==> keys[r] != 0
    ensures forall k :: i <= k < r ==> keys[k] == 0
    decreases |keys| - i
  {
    if i == |keys| || keys[i] != 0 then i else FirstKey(keys, i + 1)
  }

  /** The block a delete message names is one the connection's index knows. */
  predicate Deletable(t: Table, c: int, keys: seq<nat>) {
    && c in t.rbIdx && |keys| == |t.rbIdx[c]| == |t.blocks|
    && var k := FirstKey(keys, 0);
       k == |keys| || 0 <= t.rbIdx[c][k] < |t.blocks|
  }

  /** `recv_delete_rb`: the first key that is set names the block; both counters shrink in any case. */
  function DeleteBlock(t: Table, c: int, keys: seq<nat>): Table
    requires Deletable(t, c, keys)
  {
    var t' := t.(sizeGb := t.sizeGb - 1, mappedSize := t.mappedSize - 1);
    var k := FirstKey(keys, 0);
    if k == |keys| then t'
    else
      var i := t.rbIdx[c][k];
      t'.(blocks := t.blocks[i := t.blocks[i].(owner := -1, malloced := false)],
          rbIdx := t.rbIdx[c := t.rbIdx[c][k := -1]])
  }

  /** A client write stores the time in a mapped block's header. */
  function Touch(t: Table, i: nat, now: nat): Table
    requires i < |t.blocks|
  {
    t.(blocks := t.blocks[i := t.blocks[i].(stamp := now)])
  }

  lemma AdvertisedIsFree(t: Table)
    requires Accounted(t)
    ensures Advertised(t) == Count(IsFree, t.blocks)
    ensures Advertised(t) > 0 <==> First(IsFree, t.blocks, 0) < |t.blocks|
  {
    FreePlusMapped(t.blocks);
    CountZero(IsFree, t.blocks);
  }

  lemma MapFound(t: Table, c: int, clientRb: int, replica: int)
    requires Accounted(t) && c in t.rbIdx && Advertised(t) > 0
    ensures Accounted(MapBlock(t, c, clientRb, replica))
  {
    AdvertisedIsFree(t);
    var i := First(IsFree, t.blocks, 0);
    var b := t.blocks[i].(owner := c, clientRb := clientRb, replica := replica);
    CountUpdate(IsMalloced, t.blocks, i, b);
    CountUpdate(IsMapped, t.blocks, i, b);
  }

  /** The map request keeps the accounts exactly when the advertised free count was positive;
      otherwise it counts one mapped block too many and changes nothing else. */
  lemma MapKeepsAccountsIff(t: Table, c: int, clientRb: int, replica: int)
    requires Accounted(t) && c in t.rbIdx
    ensures Accounted(MapBlock(t, c, clientRb, replica)) <==> Advertised(t) > 0
    ensures Advertised(t) == 0 ==>
              var t' := MapBlock(t, c, clientRb, replica);
              t'.mappedSize == Count(IsMapped, t.blocks) + 1 && t == t'.(mappedSize := t.mappedSize)
  {
    AdvertisedIsFree(t);
    if Advertised(t) > 0 {
      MapFound(t, c, clientRb, replica);
    }
  }

  /** With a positive advertised count the next map finds an allocated block nobody had, and
      touches no other block. */
  lemma MapFindsBlock(t: Table, c: int, clientRb: int, replica: int)
    requires Accounted(t) && c in t.rbIdx && Advertised(t) > 0
    ensures var t' := MapBlock(t, c, clientRb, replica);
            var i := First(IsFree, t.blocks, 0);
            && i < |t.blocks| && IsFree(t.blocks[i])
            && t'.blocks[i].malloced && t'.blocks[i].owner == c && t'.blocks[i].clientRb == clientRb
            && t'.blocks[i].replica == replica && t'.blocks[i].stamp == t.blocks[i].stamp
            && t'.rbIdx[c][i] == i && Advertised(t') == Advertised(t) - 1
            && forall k :: 0 <= k < |t.blocks| && k != i ==> t'.blocks[k] == t.blocks[k]
  {
    AdvertisedIsFree(t);
  }

  lemma ClearIndexes(t: Table, c: int, k: nat, b: Block)
    requires Accounted(t) && c in t.rbIdx && k < |t.blocks| && t.blocks[k].owner == c && b.owner == -1
    ensures IndexesMatch(t.(blocks := t.blocks[k := b], rbIdx := t.rbIdx[c := t.rbIdx[c][k := -1]]))
  {
    var bs' := t.blocks[k := b];
    forall d | d in t.rbIdx
      ensures IndexMatches(if d == c then t.rbIdx[c][k := -1] else t.rbIdx[d], bs', d)
    {
      assert IndexMatches(t.rbIdx[d], t.blocks, d);
    }
  }

  lemma NamedOwner(t: Table, c: int, k: nat)
    requires Accounted(t) && c in t.rbIdx && k < |t.rbIdx[c]| && 0 <= t.rbIdx[c][k]
    ensures k < |t.blocks| && t.rbIdx[c][k] == k && t.blocks[k].owner == c
  {
    assert IndexMatches(t.rbIdx[c], t.blocks, c);
  }

  lemma DeleteNamed(t: Table, c: int, keys: seq<nat>)
    requires Accounted(t) && Deletable(t, c, keys) && FirstKey(keys, 0) < |keys|
    ensures Accounted(DeleteBlock(t, c, keys))
    ensures var k := FirstKey(keys, 0);
            && IsMapped(t.blocks[k]) && t.blocks[k].owner == c
            && DeleteBlock(t, c, keys).blocks == t.blocks[k := t.blocks[k].(owner := -1, malloced := false)]
  {
    var k := FirstKey(keys, 0);
    NamedOwner(t, c, k);
    DeleteAt(t, c, k);
    DeleteShape(t, c, keys);
  }

  lemma DeleteShape(t: Table, c: int, keys: seq<nat>)
    requires Deletable(t, c, keys) && FirstKey(keys, 0) < |keys|
    requires t.rbIdx[c][FirstKey(keys, 0)] == FirstKey(keys, 0)
    ensures var k := FirstKey(keys, 0);
            DeleteBlock(t, c, keys) == Table(t.blocks[k := t.blocks[k].(owner := -1, malloced := false)],
                                             t.sizeGb - 1, t.mappedSize - 1, t.rbIdx[c := t.rbIdx[c][k := -1]])
  {
  }

  lemma DeleteAt(t: Table, c: int, k: nat)
    requires Accounted(t) && c in t.rbIdx && k < |t.blocks| == |t.rbIdx[c]| && t.blocks[k].owner == c
    ensures IsMapped(t.blocks[k])
    ensures Accounted(Table(t.blocks[k := t.blocks[k].(owner := -1, malloced := false)],
                            t.sizeGb - 1, t.mappedSize - 1, t.rbIdx[c := t.rbIdx[c][k := -1]]))
  {
    var b := t.blocks[k].(owner := -1, malloced := false);
    CountUpdate(IsMalloced, t.blocks, k, b);
    CountUpdate(IsMapped, t.blocks, k, b);
    ClearIndexes(t, c, k, b);
  }

  /** A delete message keeps the accounts exactly when it names a block; otherwise both counters
      are one too low and nothing else changes. */
  lemma DeleteKeepsAccountsIff(t: Table, c: int, keys: seq<nat>)
    requires Accounted(t) && Deletable(t, c, keys)
    ensures Accounted(DeleteBlock(t, c, keys)) <==> FirstKey(keys, 0) < |keys|
    ensures FirstKey(keys, 0) == |keys| ==>
              var t' := DeleteBlock(t, c, keys);
              && t'.sizeGb == Count(IsMalloced, t.blocks) - 1 && t'.mappedSize == Count(IsMapped, t.blocks) - 1
              && t == t'.(sizeGb := t.sizeGb, mappedSize := t.mappedSize)
  {
    if FirstKey(keys, 0) < |keys| {
      DeleteNamed(t, c, keys);
    }
  }
}
