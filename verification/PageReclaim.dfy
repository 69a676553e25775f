/** Where the frames go: what a completion and an allocation do to the reclaim list, and the frames
    that are lost to it for good. */
module PageReclaim {
  import opened Options
  import opened Config
  import opened Distinctness
  import opened PageCache
  import opened PageCacheInvariant
  import opened PageCacheTheorems

  // ----- Completion -----

  /** The pages of a write that its completion puts on the reclaim list, in order. */
  ghost function Unmarked(tree: map<nat, Entry>, start: nat, n: nat): (r: seq<nat>) {
    if n == 0 then []
    else
      var i := start + n - 1;
      Unmarked(tree, start, n - 1) + (if i in tree && !tree[i].reclaimable then [i] else [])
  }

  /** An entry after one of its sends has completed. */
  ghost predicate OneLess(e: Entry, e': Entry) {
    && e'.page == e.page && e'.reclaimable
    && e'.refCount == (if e.refCount <= 1 then 0 else e.refCount - 1)
    && (e'.updating <==> e.updating && e.refCount > 1)
  }

  /** The first `n` pages of a completed write have been handled since `s`. */
  ghost predicate Handled<D>(s: State<D>, t: State<D>, start: nat, n: nat) {
    && t == s.(tree := t.tree, present := t.present, reclaim := t.reclaim)
    && t.tree.Keys == s.tree.Keys
    && (forall i :: i in s.tree ==>
          if start <= i < start + n then OneLess(s.tree[i], t.tree[i]) else t.tree[i] == s.tree[i])
    && t.present == s.present + Range(start, n)
    && t.reclaim == s.reclaim + Unmarked(s.tree, start, n)
  }

  /** One page handled, given room on the list. */
  ghost predicate HandlesOne<D>(t: State<D>, u: State<D>, i: nat) {
    && i in t.tree && i in u.tree && OneLess(t.tree[i], u.tree[i])
    && u == t.(tree := t.tree[i := u.tree[i]], present := t.present + {i},
               reclaim := t.reclaim + if t.tree[i].reclaimable then [] else [i])
  }

  lemma PageHandled<D>(t: State<D>, i: nat)
    requires Room(t, i)
    ensures HandlesOne(t, CompletePage(t, i), i)
  {
    assert t.reclaim + [] == t.reclaim;
  }

  lemma HandledMore<D>(s: State<D>, t: State<D>, u: State<D>, start: nat, n: nat)
    requires Handled(s, t, start, n) && start + n in s.tree && HandlesOne(t, u, start + n)
    ensures Handled(s, u, start, n + 1)
  {
    var i := start + n;
    assert t.tree[i] == s.tree[i];
    assert s.present + Range(start, n + 1) == t.present + {i};
    MoreListed(s.tree, s.reclaim, start, n);
    forall k | k in s.tree
      ensures if start <= k < start + n + 1 then OneLess(s.tree[k], u.tree[k]) else u.tree[k] == s.tree[k]
    {
    }
  }

  lemma MoreListed(tree: map<nat, Entry>, list: seq<nat>, start: nat, n: nat)
    requires start + n in tree
    ensures list + Unmarked(tree, start, n + 1)
            == list + Unmarked(tree, start, n) + if tree[start + n].reclaimable then [] else [start + n]
  {
  }

  /** The page has an entry, and the list has room for it if it is to be listed. */
  ghost predicate Room<D>(t: State<D>, i: nat) {
    i in t.tree && (!t.tree[i].reclaimable ==> |t.reclaim| < CONFIGURED_QUEUE_SIZE)
  }

  lemma RoomFor<D>(t: State<D>, owe: set<nat>, i: nat)
    requires InvWith(t, owe, {}, {}) && i in owe
    ensures Room(t, i)
  {
    OwedHasFrame(t, owe, {}, i);
    if !t.tree[i].reclaimable {
      ListHasRoom(t, owe, i);
    }
  }

  lemma NothingHandled<D>(s: State<D>, start: nat)
    ensures Handled(s, s, start, 0)
  {
    assert s.present + Range(start, 0) == s.present && s.reclaim + [] == s.reclaim;
  }

  lemma OnePageMore<D>(s: State<D>, t: State<D>, start: nat, n: nat)
    requires Handled(s, t, start, n) && Room(t, start + n)
    ensures Handled(s, CompletePage(t, start + n), start, n + 1)
  {
    PageHandled(t, start + n);
    HandledMore(s, t, CompletePage(t, start + n), start, n);
  }

  /** As long as there is room for each page in turn. */
  lemma {:induction false} AllHandled<D>(s: State<D>, start: nat, n: nat)
    requires forall k: nat :: k < n ==> Room(CompleteRun(s, start, k), start + k)
    ensures Handled(s, CompleteRun(s, start, n), start, n)
  {
    if n == 0 {
      NothingHandled(s, start);
    } else {
      AllHandled(s, start, n - 1);
      OnePageMore(s, CompleteRun(s, start, n - 1), start, n - 1);
    }
  }

  lemma PartOwed(owe: set<nat>, start: nat, n: nat, k: nat)
    requires Range(start, n) <= owe && k < n
    ensures Range(start, k) <= owe && start + k in owe - Range(start, k)
  {
  }

  lemma RoomInTurn<D(!new)>(p: (State<D>, set<nat>) -> bool, s: State<D>, owe: set<nat>, start: nat, n: nat, k: nat)
    requires p(s, owe) && Range(start, n) <= owe && k < n
    requires forall t: State<D>, o: set<nat>, i: nat :: p(t, o) && i in o ==> p(CompletePage(t, i), o - {i})
    requires forall t: State<D>, o: set<nat>, i: nat :: p(t, o) && i in o ==> Room(t, i)
    ensures Room(CompleteRun(s, start, k), start + k)
  {
    PartOwed(owe, start, n, k);
    CompleteRunFold(p, s, owe, start, k);
  }

  lemma CompleteRunHandles<D(!new)>(s: State<D>, owe: set<nat>, start: nat, n: nat)
    requires InvWith(s, owe, {}, {}) && Range(start, n) <= owe
    ensures Handled(s, CompleteRun(s, start, n), start, n)
  {
    var p := (t: State<D>, o: set<nat>) => InvWith(t, o, {}, {});
    forall t: State<D>, o: set<nat>, i: nat | p(t, o) && i in o
      ensures p(CompletePage(t, i), o - {i}) && Room(t, i)
    {
      CompletePageKeeps(t, o, i);
      RoomFor(t, o, i);
    }
    forall k: nat | k < n
      ensures Room(CompleteRun(s, start, k), start + k)
    {
      RoomInTurn(p, s, owe, start, n, k);
    }
    AllHandled(s, start, n);
  }

  /** The write at place `j` is no longer in flight. */
  ghost function Landed<D>(s: State<D>, j: nat): (t: State<D>)
    requires j < |s.flight|
  {
    s.(flight := s.flight[..j] + s.flight[j + 1..])
  }

  lemma StartCompletion<D(!new)>(s: State<D>, j: nat)
    requires Inv(s) && Enabled(s, Complete(j))
    ensures InvWith(Landed(s, j), Range(s.flight[j].start, |s.flight[j].data|), {}, {})
  {
    CompletePipe(s, j);
    KeepsOwedAndOverlay(s, Landed(s, j), Range(s.flight[j].start, |s.flight[j].data|));
  }

  /** A completion gives every page of the write its presence bit and the mark, drops one of its
      outstanding sends, and appends to the reclaim list, in order, exactly those of its pages that
      were not marked. Nothing else changes. */
  lemma CompletionLists<D(!new)>(s: State<D>, j: nat)
    requires Inv(s) && Enabled(s, Complete(j))
    ensures Handled(Landed(s, j), Next(s, Complete(j)), s.flight[j].start, |s.flight[j].data|)
  {
    StartCompletion(s, j);
    CompleteRunHandles(Landed(s, j), Range(s.flight[j].start, |s.flight[j].data|),
                       s.flight[j].start, |s.flight[j].data|);
  }

  // ----- Allocation -----

  ghost predicate AllHeld<D>(s: State<D>) {
    Distinct(s.reclaim) && forall i :: i in s.reclaim ==> i in s.tree && s.tree[i].page.Some?
  }

  lemma ListedAreHeld<D>(s: State<D>)
    requires Inv(s)
    ensures AllHeld(s)
  {
    forall i | i in s.reclaim
      ensures i in s.tree && s.tree[i].page.Some?
    {
      ListedHaveFrames(s, {}, i);
    }
  }

  /** The first listed entry that is not UPDATING. */
  ghost predicate FirstIdle<D>(s: State<D>, k: nat) {
    && k < |s.reclaim| && s.reclaim[k] in s.tree && !s.tree[s.reclaim[k]].updating
    && forall m :: 0 <= m < k ==> s.reclaim[m] in s.tree && s.tree[s.reclaim[m]].updating
  }

  /** The entry at place `k` of the list has given up its frame, and the list starts behind it. */
  ghost function Stripped<D>(s: State<D>, k: nat): (t: State<D>)
    requires k < |s.reclaim| && s.reclaim[k] in s.tree
  {
    var i := s.reclaim[k];
    s.(tree := s.tree[i := s.tree[i].(page := None, reclaimable := false)], reclaim := s.reclaim[k + 1..])
  }

  lemma DropHead<D>(s: State<D>)
    requires AllHeld(s) && s.reclaim != []
    ensures AllHeld(s.(reclaim := s.reclaim[1..]))
    ensures s.tree[s.reclaim[0]].updating ==> ReclaimHead(s) == (s.(reclaim := s.reclaim[1..]), None)
    ensures !s.tree[s.reclaim[0]].updating ==>
              ReclaimHead(s) == (Stripped(s, 0), s.tree[s.reclaim[0]].page)
  {
    HeadIsNew(s.reclaim);
  }

  lemma LaterIdle<D>(s: State<D>, k: nat)
    requires AllHeld(s) && FirstIdle(s, k) && k > 0
    ensures FirstIdle(s.(reclaim := s.reclaim[1..]), k - 1)
    ensures Stripped(s.(reclaim := s.reclaim[1..]), k - 1) == Stripped(s, k)
  {
    assert s.reclaim[1..][k - 1] == s.reclaim[k] && s.reclaim[1..][k..] == s.reclaim[k + 1..];
  }

  /** The retry loop passes over the entries that are UPDATING and takes the frame of the first one
      that is not. */
  lemma {:induction false} ReclaimLoopTakes<D>(s: State<D>, k: nat)
    requires AllHeld(s) && FirstIdle(s, k)
    ensures ReclaimLoop(s) == Some((Stripped(s, k), s.tree[s.reclaim[k]].page.value))
    decreases k
  {
    DropHead(s);
    if k > 0 {
      LaterIdle(s, k);
      ReclaimLoopTakes(s.(reclaim := s.reclaim[1..]), k - 1);
    }
  }

  lemma {:induction false} ReclaimLoopFinds<D>(s: State<D>) returns (k: nat)
    requires AllHeld(s) && ReclaimLoop(s).Some?
    ensures FirstIdle(s, k)
    decreases |s.reclaim|
  {
    DropHead(s);
    k := 0;
    if s.tree[s.reclaim[0]].updating {
      var t := s.(reclaim := s.reclaim[1..]);
      var j := ReclaimLoopFinds(t);
      k := j + 1;
      forall m | 0 < m < k
        ensures s.reclaim[m] in s.tree && s.tree[s.reclaim[m]].updating
      {
        assert s.reclaim[m] == t.reclaim[m - 1];
      }
    }
  }

  /** `valet_mempool_alloc`: no page loses its frame while the pool has a free one; otherwise the
      first listed page that is not UPDATING does, and every page before it leaves the list with
      its frame and its mark. It spins exactly when no frame is free and all listed are UPDATING. */
  lemma AllocationTakes<D>(s: State<D>)
    requires Inv(s)
    ensures TakeFrame(s).Some? <==> s.elements != [] || exists k: nat :: FirstIdle(s, k)
    ensures s.elements != [] ==>
              TakeFrame(s) == Some((s.(elements := s.elements[..|s.elements| - 1], usedNr := s.usedNr + 1),
                                    s.elements[|s.elements| - 1]))
    ensures s.elements == [] ==> forall k: nat :: FirstIdle(s, k) ==>
              s.tree[s.reclaim[k]].page.Some?
              && TakeFrame(s) == Some((Stripped(s, k), s.tree[s.reclaim[k]].page.value))
  {
    ListedAreHeld(s);
    if s.elements == [] {
      forall k: nat | FirstIdle(s, k)
        ensures s.tree[s.reclaim[k]].page.Some?
        ensures TakeFrame(s) == Some((Stripped(s, k), s.tree[s.reclaim[k]].page.value))
      {
        ReclaimLoopTakes(s, k);
      }
      if TakeFrame(s).Some? {
        var k := ReclaimLoopFinds(s);
      }
    }
  }

  // ----- Marks: a page at rest is on the list, or its frame is lost -----

  /** A page that has a frame and nothing outstanding is marked. */
  ghost predicate Marks<D>(s: State<D>) {
    forall i :: i in s.tree && s.tree[i].page.Some? && Outstanding(s, i) == 0 ==> s.tree[i].reclaimable
  }

  /** Marked, with a frame, and not on the list: no completion will ever list it again. */
  ghost predicate Leaked<D>(s: State<D>, i: nat) {
    i in s.tree && s.tree[i].page.Some? && s.tree[i].reclaimable && i !in s.reclaim
  }

  /** An entry has been left alone, or has given up its frame. */
  ghost predicate Spared(e: Entry, e': Entry) {
    e' == e || (e'.page.None? && e' == e.(page := None, reclaimable := false))
  }

  lemma {:induction false} ReclaimLoopOthers<D>(s: State<D>, i: nat)
    requires ReclaimLoop(s).Some? && i in s.tree
    ensures var t := ReclaimLoop(s).value.0;
            && i in t.tree && Spared(s.tree[i], t.tree[i]) && t.queue == s.queue && Pipe(t) == Pipe(s)
            && (i !in s.reclaim ==> t.tree[i] == s.tree[i] && i !in t.reclaim)
    decreases |s.reclaim|
  {
    var (t, frame) := ReclaimHead(s);
    if frame.None? {
      ReclaimLoopOthers(t, i);
    }
  }

  lemma InsertPageOthers<D>(s: State<D>, k: nat, i: nat)
    requires InsertPage(s, k).Some? && i in s.tree
    ensures var t := InsertPage(s, k).value;
            && i in t.tree && (i != k ==> Spared(s.tree[i], t.tree[i])) && t.queue == s.queue && Pipe(t) == Pipe(s)
            && (Leaked(s, i) ==> Leaked(t, i) && t.tree[i].page == s.tree[i].page)
  {
    if s.elements == [] && !(k in s.tree && s.tree[k].page.Some?) {
      ReclaimLoopOthers(s, i);
    }
  }

  lemma {:induction false} InsertRunOthers<D>(s: State<D>, start: nat, n: nat, i: nat)
    requires InsertRun(s, start, n).Some? && i in s.tree
    ensures var t := InsertRun(s, start, n).value;
            && i in t.tree && (!(start <= i < start + n) ==> Spared(s.tree[i], t.tree[i]))
            && t.queue == s.queue && Pipe(t) == Pipe(s)
            && (Leaked(s, i) ==> Leaked(t, i) && t.tree[i].page == s.tree[i].page)
    decreases n
  {
    if n > 0 {
      InsertPageOthers(s, start, i);
      InsertRunOthers(InsertPage(s, start).value, start + 1, n - 1, i);
    }
  }

  lemma {:induction false} FillRunSame<D>(s: State<D>, start: nat, data: seq<D>, i: nat)
    ensures var t := FillRun(s, start, data);
            && t.tree == s.tree && t.reclaim == s.reclaim && Pipe(t) == Pipe(s)
            && t.queue[i] >= s.queue[i] && (!(start <= i < start + |data|) ==> t.queue[i] == s.queue[i])
    decreases |data|
  {
    if data != [] {
      FillRunSame(FillPage(s, start, data[0]), start + 1, data[1..], i);
    }
  }

  lemma {:induction false} FillRunQueues<D>(s: State<D>, start: nat, data: seq<D>, i: nat)
    requires start <= i < start + |data| && i in s.tree && s.tree[i].page.Some?
    ensures FillRun(s, start, data).queue[i] > 0
    decreases |data|
  {
    var t := FillPage(s, start, data[0]);
    if i == start {
      FillRunSame(t, start + 1, data[1..], i);
    } else {
      FillRunQueues(t, start + 1, data[1..], i);
    }
  }

  /** A page not written keeps its entry, or gives up its frame. */
  lemma WriteOthers<D(!new)>(s: State<D>, start: nat, data: seq<D>, i: nat)
    requires Inv(s) && WriteRun(s, start, data).Some? && FirstWriteDone(s, Write(start, data))
    ensures var t := WriteRun(s, start, data).value;
            && (i in t.tree && start <= i < start + |data| ==> t.queue[i] > 0)
            && (i in t.tree && !(start <= i < start + |data|) ==>
                  i in s.tree && Spared(s.tree[i], t.tree[i]) && Outstanding(t, i) == Outstanding(s, i))
            && (Leaked(s, i) ==> Leaked(t, i) && t.tree[i].page == s.tree[i].page)
  {
    FirstWriteKeys(s, start, data);
    InsertRunKeeps(s, start, |data|);
    var u := InsertRun(s, start, |data|).value;
    FillRunSame(u, start, data, i);
    if i in s.tree {
      InsertRunOthers(s, start, |data|, i);
    }
    if start <= i < start + |data| {
      OwedHasFrame(u, Range(start, |data|), Range(start, |data|), i);
      FillRunQueues(u, start, data, i);
    }
  }

  lemma {:induction false} FillRunBag<D>(s: State<D>, start: nat, data: seq<D>)
    requires forall i :: start <= i < start + |data| ==> i in s.tree && s.tree[i].page.Some?
    ensures FillRun(s, start, data).queue == s.queue + multiset(Range(start, |data|))
    decreases |data|
  {
    if data != [] {
      FillRunBag(FillPage(s, start, data[0]), start + 1, data[1..]);
      assert Range(start, |data|) == {start} + Range(start + 1, |data| - 1);
      assert multiset(Range(start, |data|)) == multiset{start} + multiset(Range(start + 1, |data| - 1));
    } else {
      assert Range(start, |data|) == {};
    }
  }

  lemma {:induction false} FreeFramesFirst<D>(s: State<D>, start: nat, n: nat, i: nat)
    requires n <= |s.elements| && InsertRun(s, start, n).Some?
    ensures InsertRun(s, start, n).value.reclaim == s.reclaim
    ensures i in s.tree && !(start <= i < start + n) ==>
              i in InsertRun(s, start, n).value.tree && InsertRun(s, start, n).value.tree[i] == s.tree[i]
    decreases n
  {
    if n > 0 {
      FreeFramesFirst(InsertPage(s, start).value, start + 1, n - 1, i);
    }
  }

  /** A request puts each of its pages on the sending list once more, sends nothing itself and sets
      no presence bit. */
  lemma WriteQueuesAll<D(!new)>(s: State<D>, start: nat, data: seq<D>)
    requires Inv(s) && WriteRun(s, start, data).Some? && FirstWriteDone(s, Write(start, data))
    ensures var t := WriteRun(s, start, data).value;
            && t.queue == s.queue + multiset(Range(start, |data|))
            && t.copied == s.copied && t.flight == s.flight && t.remote == s.remote && t.present == s.present
  {
    FirstWriteKeys(s, start, data);
    InsertRunKeeps(s, start, |data|);
    var u := InsertRun(s, start, |data|).value;
    forall k | start <= k < start + |data|
      ensures k in u.tree && u.tree[k].page.Some?
    {
      OwedHasFrame(u, Range(start, |data|), Range(start, |data|), k);
    }
    FillRunBag(u, start, data);
    FillRunRest(u, start, data);
  }

  /** While the pool has a free frame for every page of a request, no other page loses its frame. */
  lemma WriteSparesOthers<D(!new)>(s: State<D>, start: nat, data: seq<D>, i: nat)
    requires Inv(s) && WriteRun(s, start, data).Some? && |data| <= |s.elements|
    requires i in s.tree && !(start <= i < start + |data|)
    ensures var t := WriteRun(s, start, data).value;
            t.reclaim == s.reclaim && i in t.tree && t.tree[i] == s.tree[i]
  {
    FreeFramesFirst(s, start, |data|, i);
    FillRunSame(InsertRun(s, start, |data|).value, start, data, i);
  }

  lemma {:induction false} FillRunRest<D>(s: State<D>, start: nat, data: seq<D>)
    ensures var t := FillRun(s, start, data);
            t == s.(mem := t.mem, queue := t.queue, last := t.last)
    decreases |data|
  {
    if data != [] {
      FillRunRest(FillPage(s, start, data[0]), start + 1, data[1..]);
    }
  }

  lemma WriteMarks<D(!new)>(s: State<D>, start: nat, data: seq<D>)
    requires Inv(s) && Marks(s) && WriteRun(s, start, data).Some? && FirstWriteDone(s, Write(start, data))
    ensures Marks(WriteRun(s, start, data).value)
  {
    var t := WriteRun(s, start, data).value;
    forall i | i in t.tree && t.tree[i].page.Some? && Outstanding(t, i) == 0
      ensures t.tree[i].reclaimable
    {
      WriteOthers(s, start, data, i);
    }
  }

  lemma StillOutstanding<D>(s: State<D>, j: nat, i: nat)
    requires j < |s.flight| && !(s.flight[j].start <= i < s.flight[j].start + |s.flight[j].data|)
    ensures Outstanding(Landed(s, j), i) == Outstanding(s, i)
  {
    var pipe := Pipe(s);
    assert Pipe(Landed(s, j)) == pipe[..j] + pipe[j + 1..];
    assert pipe[j] == s.flight[j];
    InFlightDrop(pipe, j);
    assert i !in Range(s.flight[j].start, |s.flight[j].data|);
  }

  lemma CompleteMarks<D(!new)>(s: State<D>, j: nat)
    requires Marks(s) && j < |s.flight|
    requires Handled(Landed(s, j), CompleteOp(s, j), s.flight[j].start, |s.flight[j].data|)
    ensures Marks(CompleteOp(s, j))
  {
    var t := CompleteOp(s, j);
    forall i | i in t.tree && t.tree[i].page.Some? && Outstanding(t, i) == 0
      ensures t.tree[i].reclaimable
    {
      if !(s.flight[j].start <= i < s.flight[j].start + |s.flight[j].data|) {
        StillOutstanding(s, j, i);
      }
    }
  }

  lemma {:induction false} MarkedNotListed(tree: map<nat, Entry>, start: nat, n: nat, i: nat)
    requires i in Unmarked(tree, start, n)
    ensures i in tree && !tree[i].reclaimable && start <= i < start + n
  {
    if i in Unmarked(tree, start, n - 1) {
      MarkedNotListed(tree, start, n - 1, i);
    }
  }

  lemma CompleteLeaked<D(!new)>(s: State<D>, t: State<D>, start: nat, n: nat, i: nat)
    requires Handled(s, t, start, n) && Leaked(s, i)
    ensures Leaked(t, i) && t.tree[i].page == s.tree[i].page
  {
    if i in Unmarked(s.tree, start, n) {
      MarkedNotListed(s.tree, start, n, i);
    }
  }

  lemma SameOutstanding<D>(s: State<D>, t: State<D>)
    requires Marks(s) && Owed(t, {}) == Owed(s, {}) && t.tree == s.tree
    ensures Marks(t)
  {
    forall i
      ensures Outstanding(t, i) == Outstanding(s, i)
    {
      assert Owed(t, {})[i] == Owed(s, {})[i];
    }
  }

  /** A miss of the allocator takes an UPDATING entry off the list and nothing else. */
  lemma MissDrops<D>(s: State<D>)
    requires Inv(s) && Enabled(s, ReclaimMiss)
    ensures s.reclaim[0] in s.tree && s.tree[s.reclaim[0]].updating
    ensures Next(s, ReclaimMiss) == s.(reclaim := s.reclaim[1..])
  {
    ListedAreHeld(s);
    DropHead(s);
  }

  lemma StepKeepsMarks<D(!new)>(s: State<D>, a: Action<D>)
    requires Inv(s) && Marks(s) && Enabled(s, a) && FirstWriteDone(s, a)
    ensures Marks(Next(s, a))
  {
    match a {
      case Write(start, data) => WriteMarks(s, start, data);
      case Copy(start, n, stale) =>
        CopyKeepsOwed(s, start, n, stale);
        SameOutstanding(s, Next(s, a));
      case Post(j) =>
        PostKeepsOwed(s, j);
        SameOutstanding(s, Next(s, a));
      case Land(j) =>
        LandPipe(s, j);
        SameOutstanding(s, Next(s, a));
      case Complete(j) =>
        CompletionLists(s, j);
        CompleteMarks(s, j);
      case ReclaimMiss =>
        MissDrops(s);
        SameOutstanding(s, Next(s, a));
    }
  }

  lemma StepKeepsLeaked<D(!new)>(s: State<D>, a: Action<D>, i: nat)
    requires Inv(s) && Enabled(s, a) && FirstWriteDone(s, a) && Leaked(s, i)
    ensures Leaked(Next(s, a), i) && Next(s, a).tree[i].page == s.tree[i].page
  {
    match a {
      case Write(start, data) => WriteOthers(s, start, data, i);
      case Copy(start, n, stale) =>
      case Post(j) =>
      case Land(j) =>
      case Complete(j) =>
        CompletionLists(s, j);
        CompleteLeaked(Landed(s, j), Next(s, a), s.flight[j].start, |s.flight[j].data|, i);
      case ReclaimMiss => MissDrops(s);
    }
  }

  lemma {:induction false} RunKeepsMarks<D(!new)>(s: State<D>, acts: seq<Action<D>>)
    requires Inv(s) && Marks(s) && LegalRun(s, acts)
    ensures Marks(Exec(s, acts))
    decreases |acts|
  {
    if acts != [] {
      StepKeepsInv(s, acts[0]);
      StepKeepsMarks(s, acts[0]);
      RunKeepsMarks(Next(s, acts[0]), acts[1..]);
    }
  }

  /** A frame lost to the reclaim list stays lost, over every run. */
  lemma {:induction false} LeakedForever<D(!new)>(s: State<D>, acts: seq<Action<D>>, i: nat)
    requires Inv(s) && LegalRun(s, acts) && Leaked(s, i)
    ensures Leaked(Exec(s, acts), i) && Exec(s, acts).tree[i].page == s.tree[i].page
    decreases |acts|
  {
    if acts != [] {
      StepKeepsInv(s, acts[0]);
      StepKeepsLeaked(s, acts[0], i);
      LeakedForever(Next(s, acts[0]), acts[1..], i);
    }
  }

  lemma HeadLeaks<D>(s: State<D>, i: nat)
    requires AllHeld(s) && s.reclaim != [] && s.reclaim[0] in s.tree && s.tree[s.reclaim[0]].reclaimable
    ensures Leaked(s.(reclaim := s.reclaim[1..]), i) <==> Leaked(s, i) || i == s.reclaim[0]
  {
    HeadIsNew(s.reclaim);
    assert s.reclaim == [s.reclaim[0]] + s.reclaim[1..];
  }

  /** Every miss of the allocator loses one frame, that of the entry it drops. */
  lemma MissLeaks<D>(s: State<D>, i: nat)
    requires Inv(s) && Enabled(s, ReclaimMiss)
    ensures Leaked(Next(s, ReclaimMiss), i) <==> Leaked(s, i) || i == s.reclaim[0]
    ensures !Leaked(s, s.reclaim[0])
  {
    MissDrops(s);
    ListedAreHeld(s);
    HeadLeaks(s, i);
  }

  lemma StrippedLeaks<D>(s: State<D>, k: nat, i: nat)
    requires AllHeld(s) && FirstIdle(s, k) && forall j :: j in s.reclaim ==> j in s.tree && s.tree[j].reclaimable
    ensures Leaked(Stripped(s, k), i) <==> Leaked(s, i) || i in s.reclaim[..k]
  {
    var t := Stripped(s, k);
    assert s.reclaim == s.reclaim[..k] + ([s.reclaim[k]] + t.reclaim);
    assert i in s.reclaim <==> i in s.reclaim[..k] || i == s.reclaim[k] || i in t.reclaim;
    if i in s.reclaim[..k] {
      var m :| 0 <= m < k && s.reclaim[m] == i;
      NotBehind(s.reclaim, m, k);
    }
  }

  /** So does an allocation that passes over UPDATING entries before it finds a frame. */
  lemma AllocationLeaks<D>(s: State<D>, k: nat, i: nat)
    requires Inv(s) && s.elements == [] && FirstIdle(s, k)
    ensures TakeFrame(s).Some?
    ensures Leaked(TakeFrame(s).value.0, i) <==> Leaked(s, i) || i in s.reclaim[..k]
  {
    AllocationTakes(s);
    ListedAreHeld(s);
    StrippedLeaks(s, k, i);
  }

  lemma NotBehind(xs: seq<nat>, m: nat, k: nat)
    requires Distinct(xs) && m < k < |xs|
    ensures xs[m] != xs[k] && xs[m] !in xs[k + 1..]
  {
  }

  /** Nothing is queued, held by a sender or in flight. */
  ghost predicate AtRest<D>(s: State<D>) {
    s.queue == multiset{} && s.copied == s.flight == []
  }

  ghost predicate LostFrame<D>(s: State<D>, p: nat) {
    exists i :: Holds(s, i, p) && Leaked(s, i)
  }

  lemma AtRestIdle<D>(s: State<D>, i: nat)
    requires Inv(s) && Marks(s) && i in s.tree && s.tree[i].page.Some? && Outstanding(s, i) == 0
    ensures !s.tree[i].updating && (i in s.reclaim || Leaked(s, i))
  {
    assert EntryOk(s, Owed(s, {})[i], false, i);
    assert Owed(s, {})[i] == Outstanding(s, i);
  }

  lemma Fate<D>(s: State<D>, p: nat) returns (i: nat)
    requires Inv(s) && Marks(s) && p in s.mem && p !in s.elements
    ensures Holds(s, i, p) && (Outstanding(s, i) > 0 || (i in s.reclaim && !s.tree[i].updating) || Leaked(s, i))
  {
    i :| Holds(s, i, p);
    if Outstanding(s, i) == 0 {
      AtRestIdle(s, i);
    }
  }

  /** Every frame, after every run: it is free, or held by a page which has a send outstanding, or is
      on the list and not UPDATING, or is lost. */
  lemma FrameFate<D(!new)>(s: State<D>, acts: seq<Action<D>>, p: nat) returns (i: nat)
    requires Init(s) && LegalRun(s, acts) && p in Exec(s, acts).mem
    ensures var r := Exec(s, acts);
            p in r.elements
            || (Holds(r, i, p)
                && (Outstanding(r, i) > 0 || (i in r.reclaim && !r.tree[i].updating) || Leaked(r, i)))
  {
    InitHasInv(s);
    RunKeepsInv(s, acts);
    RunKeepsMarks(s, acts);
    i := 0;
    if p !in Exec(s, acts).elements {
      i := Fate(Exec(s, acts), p);
    }
  }

  /** Once everything sent has completed, a new page finds a frame if and only if some frame has not
      been lost. */
  lemma AllocationAtRestIff<D(!new)>(s: State<D>, acts: seq<Action<D>>)
    requires Init(s) && LegalRun(s, acts) && AtRest(Exec(s, acts))
    ensures var r := Exec(s, acts); TakeFrame(r).Some? <==> exists p :: p in r.mem && !LostFrame(r, p)
  {
    InitHasInv(s);
    RunKeepsInv(s, acts);
    RunKeepsMarks(s, acts);
    AtRestIff(Exec(s, acts));
  }

  lemma AtRestIff<D>(s: State<D>)
    requires Inv(s) && Marks(s) && AtRest(s)
    ensures TakeFrame(s).Some? <==> exists p :: p in s.mem && !LostFrame(s, p)
  {
    if p :| p in s.mem && !LostFrame(s, p) {
      NotLostIsFound(s, p);
    }
    if TakeFrame(s).Some? {
      var p := FoundNotLost(s);
    }
  }

  lemma NotLostIsFound<D>(s: State<D>, p: nat)
    requires Inv(s) && Marks(s) && AtRest(s) && p in s.mem && !LostFrame(s, p)
    ensures TakeFrame(s).Some?
  {
    AllocationTakes(s);
    if p !in s.elements {
      var i := Fate(s, p);
      AllIdle(s);
      assert FirstIdle(s, 0);
    }
  }

  lemma AllIdle<D>(s: State<D>)
    requires Inv(s) && Marks(s) && AtRest(s)
    ensures forall i :: i in s.reclaim ==> i in s.tree && !s.tree[i].updating
  {
    forall i | i in s.reclaim
      ensures i in s.tree && !s.tree[i].updating
    {
      ListedHaveFrames(s, {}, i);
      AtRestIdle(s, i);
    }
  }

  lemma FoundNotLost<D>(s: State<D>) returns (p: nat)
    requires Inv(s) && TakeFrame(s).Some?
    ensures p in s.mem && !LostFrame(s, p)
  {
    AllocationTakes(s);
    if s.elements != [] {
      p := s.elements[0];
      assert p in s.elements;
    } else {
      var k: nat :| FirstIdle(s, k);
      var i := s.reclaim[k];
      p := s.tree[i].page.value;
      assert i in s.reclaim && Holds(s, i, p);
    }
  }

  // ----- A pool that is used up for good -----

  /** No frame is free and every frame is lost. */
  ghost predicate UsedUp<D>(s: State<D>) {
    s.elements == [] && forall i :: i in s.tree && s.tree[i].page.Some? ==> Leaked(s, i)
  }

  lemma EmptyIff(xs: seq<nat>)
    ensures xs == [] <==> forall i: nat :: i !in xs
  {
    if xs != [] {
      assert xs[0] in xs;
    }
  }

  lemma UsedUpListIsEmpty<D>(s: State<D>)
    requires Inv(s) && UsedUp(s)
    ensures s.reclaim == [] && TakeFrame(s).None?
  {
    ListedAreHeld(s);
    EmptyIff(s.reclaim);
  }

  lemma {:induction false} OnlyHits<D>(s: State<D>, start: nat, n: nat)
    requires UsedUp(s) && s.reclaim == [] && InsertRun(s, start, n).Some?
    ensures var t := InsertRun(s, start, n).value; UsedUp(t) && t.reclaim == []
    decreases n
  {
    if n > 0 {
      OnlyHits(InsertPage(s, start).value, start + 1, n - 1);
    }
  }

  lemma UsedUpStep<D(!new)>(s: State<D>, a: Action<D>)
    requires Inv(s) && UsedUp(s) && Enabled(s, a) && FirstWriteDone(s, a)
    ensures UsedUp(Next(s, a))
  {
    UsedUpListIsEmpty(s);
    match a {
      case Write(start, data) =>
        OnlyHits(s, start, |data|);
        FillRunSame(InsertRun(s, start, |data|).value, start, data, 0);
        FillRunElements(InsertRun(s, start, |data|).value, start, data);
      case Copy(start, n, stale) =>
      case Post(j) =>
      case Land(j) =>
      case Complete(j) =>
        CompletionLists(s, j);
        UsedUpHandled(Landed(s, j), Next(s, a), s.flight[j].start, |s.flight[j].data|);
      case ReclaimMiss =>
    }
  }

  lemma {:induction false} FillRunElements<D>(s: State<D>, start: nat, data: seq<D>)
    ensures FillRun(s, start, data).elements == s.elements
    decreases |data|
  {
    if data != [] {
      FillRunElements(FillPage(s, start, data[0]), start + 1, data[1..]);
    }
  }

  lemma UsedUpHandled<D(!new)>(s: State<D>, t: State<D>, start: nat, n: nat)
    requires UsedUp(s) && Handled(s, t, start, n)
    ensures UsedUp(t)
  {
    forall i | i in t.tree && t.tree[i].page.Some?
      ensures Leaked(t, i)
    {
      CompleteLeaked(s, t, start, n, i);
    }
  }

  /** A used-up pool stays so: no page without a frame is ever written again. */
  lemma {:induction false} UsedUpForever<D(!new)>(s: State<D>, acts: seq<Action<D>>)
    requires Inv(s) && UsedUp(s) && LegalRun(s, acts)
    ensures UsedUp(Exec(s, acts)) && TakeFrame(Exec(s, acts)).None?
    decreases |acts|
  {
    if acts == [] {
      UsedUpListIsEmpty(s);
    } else {
      StepKeepsInv(s, acts[0]);
      UsedUpStep(s, acts[0]);
      UsedUpForever(Next(s, acts[0]), acts[1..]);
    }
  }

  /** Page 0 is rewritten after its first write has completed, so it is UPDATING and on the list;
      the allocation for another page drops it, ... */
  lemma DroppedWhileUpdating(reach: State<int> -> bool)
    requires Closed(Nothing, reach)
    ensures reach(One(E(true, true, 1), 2, multiset{0}, [], [], map[0 := 1], {0}, []))
  {
    var none: multiset<nat> := multiset{};
    var s := One(E(true, true, 1), 2, multiset{0}, [], [], map[0 := 1], {0}, [0]);
    FirstWriteCompletes(Nothing, reach);
    assert none + multiset{0} == multiset{0};
    Rewrites(Nothing, reach, E(false, true, 0), 1, none, [], map[0 := 1], {0}, [0], 2, s);
    assert Enabled(s, ReclaimMiss);
    assert s.reclaim[1..] == [];
  }

  /** ... and its completion, which finds the mark still set, does not list it again. */
  lemma NeverListedAgain(reach: State<int> -> bool)
    requires Closed(Nothing, reach)
    ensures reach(One(E(false, true, 0), 2, multiset{}, [], [], map[0 := 2], {0}, []))
  {
    var e, none: multiset<nat> := E(true, true, 1), multiset{};
    var s1 := One(e, 2, multiset{0}, [], [], map[0 := 1], {0}, []);
    var s2 := One(e, 2, none, [Buffer(2)], [], map[0 := 1], {0}, []);
    var s3 := One(e, 2, none, [], [Buffer(2)], map[0 := 1], {0}, []);
    var s4 := One(e, 2, none, [], [Op(0, [2], true)], map[0 := 2], {0}, []);
    DroppedWhileUpdating(reach);
    assert multiset{0} - multiset{0} == none;
    Copies(Nothing, reach, s1, 2, 0, s2);
    Posts(Nothing, reach, s2, 0, s3);
    Lands(Nothing, reach, s3, 0, 2, s4);
    Completes(Nothing, reach, s4, 2, One(E(false, true, 0), 2, none, [], [], map[0 := 2], {0}, []));
  }

  lemma {:induction false} RunIsLegal(s: State<int>, acts: seq<Action<int>>, t: State<int>)
    requires Run(Nothing, s, acts, t)
    ensures LegalRun(s, acts) && Exec(s, acts) == t
    decreases |acts|
  {
    if acts != [] {
      RunIsLegal(Next(s, acts[0]), acts[1..], t);
    }
  }

  /** A used-up pool never takes a new page. */
  lemma NoNewPage<D(!new)>(s: State<D>, acts: seq<Action<D>>, i: nat, d: D)
    requires Inv(s) && UsedUp(s) && LegalRun(s, acts) && i !in Exec(s, acts).tree
    ensures WriteRun(Exec(s, acts), i, [d]).None?
  {
    UsedUpForever(s, acts);
  }

  lemma UsesUp() returns (acts: seq<Action<int>>)
    ensures Init(S0) && LegalRun(S0, acts) && AtRest(Exec(S0, acts)) && UsedUp(Exec(S0, acts))
  {
    var end := One(E(false, true, 0), 2, multiset{}, [], [], map[0 := 2], {0}, []);
    NeverListedAgain(Reached(Nothing));
    acts :| Run(Nothing, S0, acts, end);
    RunIsLegal(S0, acts, end);
  }

  /** A run under all hypotheses, from an empty table, after which everything sent has completed, and
      yet no page that is not in the table can ever be written again. */
  lemma PoolUsedUp() returns (acts: seq<Action<int>>)
    ensures Init(S0) && LegalRun(S0, acts) && AtRest(Exec(S0, acts)) && UsedUp(Exec(S0, acts))
    ensures forall more, i, d ::
              LegalRun(Exec(S0, acts), more) && i !in Exec(Exec(S0, acts), more).tree ==>
                WriteRun(Exec(Exec(S0, acts), more), i, [d]).None?
  {
    acts := UsesUp();
    InitHasInv(S0);
    RunKeepsInv(S0, acts);
    forall more, i, d | LegalRun(Exec(S0, acts), more) && i !in Exec(Exec(S0, acts), more).tree
      ensures WriteRun(Exec(Exec(S0, acts), more), i, [d]).None?
    {
      NoNewPage(Exec(S0, acts), more, i, d);
    }
  }
}
