/** The page table, pool and lists as the driver keeps them: one object whose operations
    update its fields in place. Each is proved against its step in `PageCache`. */
module PageTable {
  import opened Options
  import opened Config
  import opened Distinctness
  import opened PageCache
  import opened PageCacheInvariant

  class GlobalPageTable<D(==)> {
    var tree: map<nat, Entry>
    var mem: map<nat, D>
    var elements: seq<nat>
    var usedNr: int
    const capNr: nat
    var reclaim: seq<nat>
    var queue: multiset<nat>
    var copied: seq<Op<D>>
    var flight: seq<Op<D>>
    ghost var remote: map<nat, D>
    var present: set<nat>
    ghost var last: map<nat, D>

    ghost function Abs(): (s: State<D>)
      reads this
    {
      State(tree, mem, elements, usedNr, capNr, reclaim, queue, copied, flight, remote, present, last)
    }

    /** `valet_mempool_create`: every frame free. */
    constructor (frames: seq<nat>, contents: map<nat, D>)
      requires Distinct(frames) && contents.Keys == Elems(frames) && |frames| <= CONFIGURED_QUEUE_SIZE
      ensures Init(Abs()) && elements == frames
    {
      tree, mem, elements, usedNr, capNr := map[], contents, frames, 0, |frames|;
      reclaim, queue, copied, flight, present := [], multiset{}, [], [], {};
      remote, last := map[], map[];
    }

    /** `valet_mempool_reclaim`. */
    method Reclaim() returns (frame: Option<nat>)
      modifies this
      ensures old(reclaim) == [] ==> frame.None? && Abs() == old(Abs())
      ensures old(reclaim) != [] ==> (Abs(), frame) == ReclaimHead(old(Abs()))
    {
      if reclaim == [] {
        return None;
      }
      var i := reclaim[0];
      reclaim := reclaim[1..];
      if i !in tree || tree[i].updating {
        return None;
      }
      var e := tree[i].(reclaimable := false);
      frame := e.page;
      if frame.Some? {
        e := e.(page := None);
      }
      tree := tree[i := e];
    }

    /** `valet_mempool_alloc`: pop a free frame, else reclaim until one comes back. */
    method Alloc() returns (p: nat)
      requires TakeFrame(Abs()).Some?
      modifies this
      ensures Some((Abs(), p)) == TakeFrame(old(Abs()))
    {
      var n := |elements|;
      if n > 0 {
        p := elements[n - 1];
        elements := elements[..n - 1];
        usedNr := usedNr + 1;
        return;
      }
      var frame := None;
      while frame.None?
        invariant frame.None? ==> ReclaimLoop(Abs()) == ReclaimLoop(old(Abs()))
        invariant frame.Some? ==> Some((Abs(), frame.value)) == ReclaimLoop(old(Abs()))
        decreases |reclaim|, frame.None?
      {
        frame := Reclaim();
      }
      p := frame.value;
    }

    /** `valet_mempool_free`, for a frame taken and not used. */
    method Free(p: nat)
      modifies this
      ensures Abs() == FreeFrame(old(Abs()), p)
    {
      if |elements| < capNr {
        elements := elements + [p];
        usedNr := usedNr - 1;
      }
    }

    /** `gpt_insert_page`. */
    method Insert(i: nat)
      requires InsertPage(Abs(), i).Some?
      modifies this
      ensures Some(Abs()) == InsertPage(old(Abs()), i)
    {
      if i in tree && tree[i].page.Some? {
        tree := tree[i := tree[i].(refCount := tree[i].refCount + 1, updating := true)];
        return;
      }
      var p := Alloc();
      var e := Entry(Some(p), false, false, 0);
      if i in tree {
        e := tree[i].(page := Some(p), refCount := tree[i].refCount + 1, updating := true);
      }
      tree := tree[i := e];
    }

    method InsertAll(start: nat, n: nat)
      requires InsertRun(Abs(), start, n).Some?
      modifies this
      ensures Some(Abs()) == InsertRun(old(Abs()), start, n)
    {
      for i := 0 to n
        invariant InsertRun(Abs(), start + i, n - i) == InsertRun(old(Abs()), start, n)
      {
        Insert(start + i);
      }
    }

    /** The copy of one page of a request, and its entry on the sending list. */
    method FillOne(i: nat, d: D)
      modifies this`mem, this`queue, this`last
      ensures Abs() == FillPage(old(Abs()), i, d)
    {
      if i in tree && tree[i].page.Some? {
        mem := mem[tree[i].page.value := d];
        queue := queue + multiset{i};
        last := last[i := d];
      }
    }

    method FillAll(start: nat, data: seq<D>)
      modifies this
      ensures Abs() == FillRun(old(Abs()), start, data)
    {
      for i := 0 to |data|
        invariant FillRun(Abs(), start + i, data[i..]) == FillRun(old(Abs()), start, data)
      {
        FillOne(start + i, data[i]);
        assert data[i..][1..] == data[i + 1..];
      }
    }

    /** `write_to_brd`: insert every page of the request, then copy every page. */
    method Write(start: nat, data: seq<D>)
      requires WriteRun(Abs(), start, data).Some?
      modifies this
      ensures Some(Abs()) == WriteRun(old(Abs()), start, data)
    {
      InsertAll(start, |data|);
      FillAll(start, data);
    }

    /** The copy loop of `rdma_write`: a page without a frame leaves the buffer as it was. */
    method Gather(start: nat, n: nat, stale: D) returns (op: Op<D>)
      ensures op == Snapshot(Abs(), start, n, stale)
    {
      var buffer: seq<D> := [];
      for j := 0 to n
        invariant |buffer| == j
        invariant forall k :: 0 <= k < j ==> buffer[k] == PageData(Abs(), start + k, stale)
      {
        var d := stale;
        if start + j in tree && tree[start + j].page.Some? && tree[start + j].page.value in mem {
          d := mem[tree[start + j].page.value];
        }
        buffer := buffer + [d];
      }
      op := Op(start, buffer, false);
      assert op.data == Snapshot(Abs(), start, n, stale).data;
    }

    /** The first half of `rdma_write`: a sender copies `n` consecutive pages it holds. */
    method Copy(start: nat, n: nat, stale: D)
      requires multiset(Range(start, n)) <= queue
      modifies this
      ensures Abs() == CopyRun(old(Abs()), start, n, stale)
    {
      var op := Gather(start, n, stale);
      copied := copied + [op];
      queue := queue - multiset(Range(start, n));
    }

    /** The second half: it posts what it copied. */
    method Post(j: nat)
      requires j < |copied|
      modifies this
      ensures Abs() == PostOp(old(Abs()), j)
    {
      flight := flight + [copied[j]];
      copied := copied[..j] + copied[j + 1..];
    }

    /** The loop body of `write_done_postwork`. */
    method CompleteOne(i: nat)
      modifies this`tree, this`present, this`reclaim
      ensures Abs() == CompletePage(old(Abs()), i)
    {
      if i in tree {
        present := present + {i};
        var e := tree[i].(refCount := tree[i].refCount - 1);
        if e.refCount <= 0 {
          e := e.(updating := false, refCount := 0);
        }
        if !e.reclaimable {
          e := e.(reclaimable := true);
          if |reclaim| < CONFIGURED_QUEUE_SIZE {
            reclaim := reclaim + [i];
          }
        }
        tree := tree[i := e];
      }
    }

    /** `write_done_postwork` for the write at position `j`. */
    method WriteDone(j: nat)
      requires j < |flight|
      modifies this
      ensures Abs() == CompleteOp(old(Abs()), j)
    {
      var op := flight[j];
      flight := flight[..j] + flight[j + 1..];
      label removed:
      for k := 0 to |op.data|
        invariant Abs() == CompleteRun(old@removed(Abs()), op.start, k)
      {
        CompleteOne(op.start + k);
      }
    }

    /** `read_from_brd`, a local hit only; a miss goes to the peer through `request_read`. */
    method ReadLocal(i: nat) returns (d: Option<D>)
      requires Inv(Abs())
      ensures d.Some? ==> i in last && d.value == last[i]
      ensures d.Some? <==> i in tree && tree[i].page.Some?
    {
      d := None;
      if i in tree {
        assert EntryOk(Abs(), Owed(Abs(), {})[i], false, i);
        if tree[i].page.Some? {
          d := Some(mem[tree[i].page.value]);
        }
      }
    }
  }
}
