/** The server's handlers as they update the session in place, each proved to compute the
    table transformation of `Daemon` and `Eviction`. */
module DaemonSession {
  import opened Config
  import opened Daemon
  import opened Eviction

  ghost predicate NoneEmpty(e: nat, bs: seq<Block>) {
    e == 0 && forall k :: 0 <= k < |bs| ==> !IsEmpty(bs[k])
  }

  /** The array after the loop's last change, put together. */
  lemma Stopped(now: seq<Block>, bs: seq<Block>, p: Block -> bool, f: Block -> Block, k: nat, i: nat)
    requires i < |bs| == |now| && Count(p, bs[..i + 1]) >= k
    requires now[..i] + [now[i]] == Applied(p, f, bs[..i + 1], k) && forall m :: i < m < |bs| ==> now[m] == bs[m]
    ensures now == Applied(p, f, bs, k)
  {
    AppliedStops(p, f, bs, k, i + 1);
    assert now[i + 1..] == bs[i + 1..];
    assert now == now[..i] + [now[i]] + now[i + 1..];
  }

  class Session {
    const blocks: array<Block>
    var sizeGb: int
    var mappedSize: int
    var rbIdx: map<int, seq<int>>

    ghost function Model(): (t: Table)
      reads this, blocks
    {
      Table(blocks[..], sizeGb, mappedSize, rbIdx)
    }

    /** `rdma_session_init`, for the free memory found at start-up. */
    constructor (freeMem: int)
      ensures Model() == InitTable(freeMem) && Accounted(Model()) && fresh(blocks)
    {
      var g := if freeMem > FREE_MEM_EXPAND_THRESHOLD
               then freeMem - (FREE_MEM_EVICT_THRESHOLD + FREE_MEM_EXPAND_THRESHOLD) / 2
               else if freeMem > FREE_MEM_EVICT_THRESHOLD then freeMem - FREE_MEM_EVICT_THRESHOLD
               else 0;
      if g > MAX_FREE_MEM_GB {
        g := MAX_FREE_MEM_GB;
      }
      assert g == SessionSize(freeMem);
      blocks := new Block[MAX_FREE_MEM_GB](_ => Fresh(false));
      sizeGb, mappedSize, rbIdx := g, 0, map[];
      new;
      for i := 0 to g
        invariant sizeGb == g && mappedSize == 0 && rbIdx == map[]
        invariant forall k :: 0 <= k < MAX_FREE_MEM_GB ==> blocks[k] == Fresh(k < i)
      {
        blocks[i] := Fresh(true);
      }
      assert blocks[..] == InitTable(freeMem).blocks;
      InitAccounted(freeMem);
    }

    /** The answer to a query is the number of free blocks. */
    method ReplyQuery() returns (free: int)
      requires Accounted(Model())
      ensures free == Count(IsFree, blocks[..])
    {
      AdvertisedIsFree(Model());
      free := sizeGb - mappedSize;
      if free < 0 {
        free := 0;
      }
    }

    /** Returns the index of the block mapped, or the table's length if there was none. */
    method PrepareSingleMr(c: int, clientRb: int, replica: int) returns (i: nat)
      requires c in rbIdx && |rbIdx[c]| == blocks.Length
      modifies this`mappedSize, this`rbIdx, blocks
      ensures Model() == MapBlock(old(Model()), c, clientRb, replica)
      ensures i == First(IsFree, old(blocks[..]), 0)
    {
      i := 0;
      while i < blocks.Length && !IsFree(blocks[i])
        invariant i <= blocks.Length
        invariant First(IsFree, blocks[..], 0) == First(IsFree, blocks[..], i)
      {
        i := i + 1;
      }
      if i < blocks.Length {
        rbIdx := rbIdx[c := rbIdx[c][i := i]];
        blocks[i] := blocks[i].(owner := c, clientRb := clientRb, replica := replica);
      }
      mappedSize := mappedSize + 1;
    }

    method RecvDeleteRb(c: int, keys: seq<nat>)
      requires Deletable(Model(), c, keys)
      modifies this`sizeGb, this`mappedSize, this`rbIdx, blocks
      ensures Model() == DeleteBlock(old(Model()), c, keys)
    {
      var k := 0;
      while k < |keys| && keys[k] == 0
        invariant k <= |keys|
        invariant FirstKey(keys, 0) == FirstKey(keys, k)
      {
        k := k + 1;
      }
      if k < |keys| {
        var i := rbIdx[c][k];
        rbIdx := rbIdx[c := rbIdx[c][k := -1]];
        blocks[i] := blocks[i].(owner := -1, malloced := false);
      }
      sizeGb := sizeGb - 1;
      mappedSize := mappedSize - 1;
    }

    /** Free unmapped blocks until `k` are freed or none is left. */
    method FreeUnmapped(k: nat) returns (freed: nat)
      requires k >= 1
      modifies blocks
      ensures blocks[..] == Applied(IsFree, Emptied, old(blocks[..]), k)
      ensures freed == Min(k, Count(IsFree, old(blocks[..])))
    {
      freed := 0;
      ghost var bs := blocks[..];
      for i := 0 to blocks.Length
        invariant freed == Count(IsFree, bs[..i]) < k
        invariant blocks[..i] == Applied(IsFree, Emptied, bs[..i], k)
        invariant forall m :: i <= m < |bs| ==> blocks[m] == bs[m]
      {
        AppliedSnoc(IsFree, Emptied, bs, k, i);
        if IsFree(blocks[i]) {
          blocks[i] := Emptied(blocks[i]);
          freed := freed + 1;
          if freed == k {
            CountGrows(IsFree, bs, i + 1);
            Stopped(blocks[..], bs, IsFree, Emptied, k, i);
            return;
          }
        }
        assert blocks[..i + 1] == blocks[..i] + [blocks[i]];
      }
      assert bs[..|bs|] == bs && blocks[..] == blocks[..blocks.Length];
    }

    /** The age scan of `do_evict`. */
    method FindOldest() returns (index: int)
      ensures index == Pick(blocks[..], blocks.Length).index
    {
      var oldest: nat := 0;
      index := -1;
      for i := 0 to blocks.Length
        invariant Pick(blocks[..], i) == Scan(index, oldest)
      {
        if IsMapped(blocks[i]) {
          if oldest == 0 {
            oldest, index := blocks[i].stamp, i;
          } else if oldest > blocks[i].stamp {
            oldest, index := blocks[i].stamp, i;
          }
        }
      }
    }

    /** `do_evict`, with each client answering the eviction of its block by deleting it. */
    method DoEvict(k: nat)
      requires k >= 1 && Accounted(Model())
      modifies this`sizeGb, this`mappedSize, this`rbIdx, blocks
      ensures Accounted(Model()) && Model() == Evicted(old(Model()), k)
    {
      ghost var t := Model();
      EvictRemovesExactly(t, k);
      FreeingKeepsAccounts(t, k);
      var freed := FreeUnmapped(k);
      sizeGb := sizeGb - freed;
      if freed == k {
        return;
      }
      var rest := k - freed;
      if mappedSize < rest {
        rest := mappedSize;
      }
      EvictMapped(rest);
    }

    method EvictMapped(rest: nat)
      requires Accounted(Model()) && rest <= mappedSize
      modifies this`sizeGb, this`mappedSize, this`rbIdx, blocks
      ensures Model() == EvictMany(old(Model()), rest)
    {
      var left: nat := rest;
      ghost var t := Model();
      while left > 0
        invariant left <= rest && Accounted(Model()) && left <= mappedSize
        invariant EvictMany(Model(), left) == EvictMany(t, rest)
      {
        EvictOldestRemoves(Model());
        var i := FindOldest();
        ghost var now := Model();
        assert IndexMatches(rbIdx[blocks[i].owner], blocks[..], blocks[i].owner);
        OnlyKeyFirst(blocks.Length, i);
        RecvDeleteRb(blocks[i].owner, OnlyKey(blocks.Length, i));
        assert Model() == EvictOldest(now);
        left := left - 1;
      }
    }

    /** The expansion branch of the memory monitor. */
    method Expand(filtered: int)
      requires filtered > FREE_MEM_EXPAND_THRESHOLD && Accounted(Model())
      modifies this`sizeGb, blocks
      ensures ExpandSize(old(Model()), filtered) >= 0
      ensures Accounted(Model()) && Model() == Expanded(old(Model()), filtered)
    {
      ExpandAllocatesExactly(Model(), filtered);
      FreePlusMapped(blocks[..]);
      var expandSize := filtered - FREE_MEM_EXPAND_THRESHOLD;
      if expandSize + sizeGb > MAX_FREE_MEM_GB {
        expandSize := MAX_FREE_MEM_GB - sizeGb;
      }
      AllocateEmpty(expandSize);
      sizeGb := sizeGb + expandSize;
    }

    /** The allocation loop; its stop test comes only after a block was allocated, so a size
        of 0 stops nothing and relies on there being no empty block. */
    method AllocateEmpty(e: nat)
      requires e == 0 ==> Count(IsEmpty, blocks[..]) == 0
      modifies blocks
      ensures blocks[..] == Applied(IsEmpty, Allocated, old(blocks[..]), e)
    {
      var j := 0;
      ghost var bs := blocks[..];
      CountZero(IsEmpty, bs);
      for i := 0 to blocks.Length
        invariant j == Count(IsEmpty, bs[..i]) && (j < e || NoneEmpty(e, bs))
        invariant blocks[..i] == Applied(IsEmpty, Allocated, bs[..i], e)
        invariant forall k :: i <= k < |bs| ==> blocks[k] == bs[k]
      {
        AppliedSnoc(IsEmpty, Allocated, bs, e, i);
        if IsEmpty(blocks[i]) {
          blocks[i] := Allocated(blocks[i]);
          j := j + 1;
          if j == e {
            Stopped(blocks[..], bs, IsEmpty, Allocated, e, i);
            return;
          }
        }
        assert blocks[..i + 1] == blocks[..i] + [blocks[i]];
      }
      assert bs[..|bs|] == bs && blocks[..] == blocks[..blocks.Length];
    }
  }
}
