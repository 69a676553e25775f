/** What every step of the page life cycle keeps. */
module PageCacheInvariant {
  import opened Options
  import opened Config
  import opened Distinctness
  import opened PageCache

  lemma KeysCons(owe: set<nat>, start: nat, n: nat)
    requires n > 0
    ensures Range(start, n) - {start} == Range(start + 1, n - 1)
    ensures owe + Range(start, n) == owe + {start} + Range(start + 1, n - 1)
  {
  }

  lemma KeysLast(owe: set<nat>, start: nat, n: nat)
    requires n > 0 && Range(start, n) <= owe
    ensures owe - Range(start, n - 1) - {start + n - 1} == owe - Range(start, n)
    ensures start + n - 1 in owe - Range(start, n - 1) && Range(start, n - 1) <= owe
  {
  }

  /** Pages of the writes in flight, counted with multiplicity. */
  ghost function InFlight<D>(flight: seq<Op<D>>): (r: multiset<nat>) {
    if flight == [] then multiset{}
    else multiset(Range(flight[0].start, |flight[0].data|)) + InFlight(flight[1..])
  }

  /** Everything copied and not completed, in the order in which it will take effect. */
  ghost function Pipe<D>(s: State<D>): (r: seq<Op<D>>) {
    s.flight + s.copied
  }

  /** Outstanding sends per page: queued, copied, in flight, or owed by the step in progress. */
  ghost function Owed<D>(s: State<D>, owe: set<nat>): (r: multiset<nat>) {
    s.queue + InFlight(Pipe(s)) + multiset(owe)
  }

  /** The peers' memory once all writes in flight have landed. */
  ghost function Overlay<D>(remote: map<nat, D>, flight: seq<Op<D>>): (r: map<nat, D>)
    decreases |flight|
  {
    if flight == [] then remote
    else Overlay(if flight[0].landed then remote else remote + OpMap(flight[0]), flight[1..])
  }

  /** Before its first completion an entry has one outstanding send and a zero count; after
      it the count is exact and UPDATING says whether it is positive. A page without a frame
      has nothing outstanding. A frame holds the last data written. */
  ghost predicate EntryOk<D>(s: State<D>, n: nat, dirty: bool, i: nat)
    requires i in s.tree
  {
    var e := s.tree[i];
    && (i in s.present ==> e.refCount == n && (e.updating <==> n > 0))
    && (i !in s.present ==> e.refCount == 0 && !e.updating && !e.reclaimable && n == 1)
    && (e.page.None? ==> n == 0 && !e.reclaimable)
    && (!dirty ==> i in s.last)
    && (!dirty && e.page.Some? ==> e.page.value in s.mem && s.mem[e.page.value] == s.last[i])
  }

  ghost predicate Entries<D>(s: State<D>, owe: set<nat>, dirty: set<nat>) {
    && (forall i :: i in s.tree ==> EntryOk(s, Owed(s, owe)[i], i in dirty, i))
    && (forall i :: i in Owed(s, owe) ==> i in s.tree)
    && s.last.Keys <= s.tree.Keys && s.present <= s.tree.Keys
  }

  /** On the reclaim list at most once, and then marked. */
  ghost predicate Listed<D>(s: State<D>) {
    && Distinct(s.reclaim)
    && forall i :: i in s.reclaim ==> i in s.tree && s.tree[i].reclaimable
  }

  ghost predicate Holds<D>(s: State<D>, i: nat, p: nat) {
    i in s.tree && s.tree[i].page == Some(p)
  }

  /** Every frame is free, in some entry, or in hand, and only one of these. */
  ghost predicate Frames<D>(s: State<D>, loose: set<nat>) {
    && Distinct(s.elements)
    && (forall p :: p in s.elements ==> p in s.mem && p !in loose)
    && (forall i, p :: Holds(s, i, p) ==> p in s.mem && p !in s.elements && p !in loose)
    && (forall i, j, p :: Holds(s, i, p) && Holds(s, j, p) ==> i == j)
    && (forall p :: p in s.mem ==> p in s.elements || p in loose || exists i :: Holds(s, i, p))
    && loose <= s.mem.Keys
    && |s.mem.Keys| == s.capNr <= CONFIGURED_QUEUE_SIZE
    && |s.elements| + s.usedNr == s.capNr
  }

  ghost predicate SentOk<D>(s: State<D>, i: nat) {
    var o := Overlay(s.remote, Pipe(s));
    i in o && i in s.last && o[i] == s.last[i]
  }

  /** A page with no send queued is, or will be, at the peer with its last data. */
  ghost predicate Delivered<D>(s: State<D>, dirty: set<nat>) {
    forall i :: i in s.tree && i !in s.queue && i !in dirty ==> SentOk(s, i)
  }

  ghost predicate Unposted<D>(s: State<D>) {
    forall j :: 0 <= j < |s.copied| ==> !s.copied[j].landed
  }

  ghost predicate InvWith<D>(s: State<D>, owe: set<nat>, dirty: set<nat>, loose: set<nat>) {
    Entries(s, owe, dirty) && Listed(s) && Frames(s, loose) && Delivered(s, dirty) && Unposted(s)
  }

  ghost predicate Inv<D>(s: State<D>) {
    InvWith(s, {}, {}, {})
  }

  // ----- Frames: taking one from the pool or from the reclaim list -----

  lemma ReclaimHeadFrames<D>(s: State<D>)
    requires Frames(s, {}) && s.reclaim != []
    ensures var (t, frame) := ReclaimHead(s); Frames(t, if frame.Some? then {frame.value} else {})
  {
    var (t, frame) := ReclaimHead(s);
    if frame.Some? {
      TakenFromEntry(s, t, s.reclaim[0], frame.value);
    } else {
      SameFrames(s, t, {});
    }
  }

  lemma ReclaimHeadEntries<D>(s: State<D>, owe: set<nat>, dirty: set<nat>)
    requires Entries(s, owe, dirty) && Listed(s) && s.reclaim != []
    ensures Entries(ReclaimHead(s).0, owe, dirty)
  {
    var i := s.reclaim[0];
    var t := ReclaimHead(s).0;
    assert i in s.reclaim && EntryOk(s, Owed(s, owe)[i], i in dirty, i);
    forall j | j in t.tree
      ensures EntryOk(t, Owed(t, owe)[j], j in dirty, j)
    {
      assert EntryOk(s, Owed(s, owe)[j], j in dirty, j);
    }
  }

  lemma ReclaimHeadSame<D>(s: State<D>)
    requires s.reclaim != []
    ensures SameButFrames(s, ReclaimHead(s).0) && ReclaimHead(s).0.reclaim == s.reclaim[1..]
    ensures forall i :: i in s.tree && i != s.reclaim[0] ==>
              ReclaimHead(s).0.tree[i].reclaimable == s.tree[i].reclaimable
  {
  }

  /** An entry on the list that is not being updated has nothing outstanding. */
  lemma ReclaimHeadKeeps<D>(s: State<D>, owe: set<nat>, dirty: set<nat>)
    requires InvWith(s, owe, dirty, {}) && s.reclaim != []
    ensures var (t, frame) := ReclaimHead(s);
            && InvWith(t, owe, dirty, if frame.Some? then {frame.value} else {})
            && SameButFrames(s, t)
  {
    var t := ReclaimHead(s).0;
    ReclaimHeadSame(s);
    ReclaimHeadFrames(s);
    ReclaimHeadEntries(s, owe, dirty);
    SameDelivered(s, t, dirty);
    ListTail(s, t);
  }

  lemma ListTail<D>(s: State<D>, t: State<D>)
    requires Listed(s) && s.reclaim != [] && t.reclaim == s.reclaim[1..] && t.tree.Keys == s.tree.Keys
    requires forall i :: i in s.tree && i != s.reclaim[0] ==> t.tree[i].reclaimable == s.tree[i].reclaimable
    ensures Listed(t)
  {
    forall j | j in t.reclaim
      ensures j in t.tree && t.tree[j].reclaimable
    {
      var k :| 0 <= k < |t.reclaim| && t.reclaim[k] == j;
      assert j == s.reclaim[k + 1] != s.reclaim[0];
      assert j in s.reclaim;
    }
  }

  /** Only frames, marks and the list itself may differ. */
  ghost predicate SameButFrames<D>(s: State<D>, t: State<D>) {
    && t == s.(tree := t.tree, reclaim := t.reclaim, elements := t.elements, usedNr := t.usedNr)
    && t.tree.Keys == s.tree.Keys
    && forall i :: i in s.tree ==>
         && t.tree[i].refCount == s.tree[i].refCount && t.tree[i].updating == s.tree[i].updating
         && (s.tree[i].page.None? ==> t.tree[i].page.None?)
  }

  lemma SameFrames<D>(s: State<D>, t: State<D>, loose: set<nat>)
    requires Frames(s, loose)
    requires t.mem.Keys == s.mem.Keys && t.elements == s.elements && t.usedNr == s.usedNr && t.capNr == s.capNr
    requires t.tree.Keys == s.tree.Keys && forall i :: i in s.tree ==> t.tree[i].page == s.tree[i].page
    ensures Frames(t, loose)
  {
    forall i, p
      ensures Holds(t, i, p) <==> Holds(s, i, p)
    {
    }
  }

  lemma TakenFromEntry<D>(s: State<D>, t: State<D>, i: nat, p: nat)
    requires Frames(s, {}) && Holds(s, i, p)
    requires t.tree == s.tree[i := s.tree[i].(reclaimable := false, page := None)]
    requires t == s.(tree := t.tree, reclaim := t.reclaim)
    ensures Frames(t, {p})
  {
    forall q | q in t.mem
      ensures q in t.elements || q in {p} || exists j :: Holds(t, j, q)
    {
      if q !in s.elements && q != p {
        var j :| Holds(s, j, q);
        assert Holds(t, j, q);
      }
    }
    forall j, q | Holds(t, j, q)
      ensures Holds(s, j, q) && q != p
    {
      assert Holds(s, j, q);
      assert q == p ==> Holds(s, i, q);
    }
  }

  lemma {:induction false} ReclaimLoopKeeps<D>(s: State<D>, owe: set<nat>, dirty: set<nat>)
    requires InvWith(s, owe, dirty, {}) && ReclaimLoop(s).Some?
    ensures var (t, p) := ReclaimLoop(s).value; InvWith(t, owe, dirty, {p}) && SameButFrames(s, t)
    decreases |s.reclaim|
  {
    ReclaimHeadKeeps(s, owe, dirty);
    var (t, frame) := ReclaimHead(s);
    if frame.None? {
      ReclaimLoopKeeps(t, owe, dirty);
    }
  }

  lemma PopKeepsFrames<D>(s: State<D>)
    requires Frames(s, {}) && s.elements != []
    ensures var (t, p) := TakeFrame(s).value; Frames(t, {p})
  {
    var (t, p) := TakeFrame(s).value;
    forall q | q in t.mem
      ensures q in t.elements || q in {p} || exists j :: Holds(t, j, q)
    {
      if q !in s.elements {
        var j :| Holds(s, j, q);
        assert Holds(t, j, q);
      }
    }
    forall j, q | Holds(t, j, q)
      ensures Holds(s, j, q)
    {
    }
  }

  lemma TakeFrameKeeps<D>(s: State<D>, owe: set<nat>, dirty: set<nat>)
    requires InvWith(s, owe, dirty, {}) && TakeFrame(s).Some?
    ensures var (t, p) := TakeFrame(s).value; InvWith(t, owe, dirty, {p}) && SameButFrames(s, t)
  {
    if s.elements == [] {
      ReclaimLoopKeeps(s, owe, dirty);
    } else {
      PopKeepsFrames(s);
      var (t, p) := TakeFrame(s).value;
      forall j | j in t.tree
        ensures EntryOk(t, Owed(t, owe)[j], j in dirty, j)
      {
        assert EntryOk(s, Owed(s, owe)[j], j in dirty, j);
      }
      forall j | j in t.tree && j !in t.queue && j !in dirty
        ensures SentOk(t, j)
      {
        assert SentOk(s, j);
      }
    }
  }

  /** A frame in hand can always go back to the pool, which then is as if it had never left. */
  lemma FreeKeepsFrames<D>(s: State<D>, p: nat)
    requires Frames(s, {p})
    ensures |s.elements| < s.capNr && Frames(FreeFrame(s, p), {})
  {
    DistinctSize(s.elements);
    assert Elems(s.elements) <= s.mem.Keys - {p};
    SubsetSize(Elems(s.elements), s.mem.Keys - {p});
    var t := FreeFrame(s, p);
    assert t.elements[|s.elements|] == p;
    forall q | q in t.mem
      ensures q in t.elements || q in {} || exists j :: Holds(t, j, q)
    {
      if q !in s.elements && q != p {
        var j :| Holds(s, j, q);
        assert Holds(t, j, q);
      }
    }
    forall j, q | Holds(t, j, q)
      ensures Holds(s, j, q)
    {
    }
  }

  // ----- Writing -----

  lemma OweOne<D>(s: State<D>, owe: set<nat>, i: nat)
    requires i !in owe
    ensures Owed(s, owe + {i}) == Owed(s, owe)[i := Owed(s, owe)[i] + 1]
  {
    assert multiset(owe + {i}) == multiset(owe) + multiset{i};
  }

  /** The entry at `i` changes so as to take on one more outstanding send. */
  lemma EntryTakesOne<D>(s: State<D>, t: State<D>, owe: set<nat>, dirty: set<nat>, i: nat)
    requires Entries(s, owe, dirty) && Listed(s) && Delivered(s, dirty) && i !in owe && i !in dirty
    requires i in t.tree && t == s.(tree := t.tree) && t.tree == s.tree[i := t.tree[i]]
    requires EntryOk(t, Owed(s, owe)[i] + 1, true, i)
    requires i in s.reclaim ==> t.tree[i].reclaimable
    ensures Entries(t, owe + {i}, dirty + {i}) && Listed(t) && Delivered(t, dirty + {i})
  {
    OweOne(s, owe, i);
    assert Owed(t, owe + {i}) == Owed(s, owe + {i});
    forall j | j in t.tree
      ensures EntryOk(t, Owed(t, owe + {i})[j], j in dirty + {i}, j)
    {
      assert j != i ==> EntryOk(s, Owed(s, owe)[j], j in dirty, j);
    }
    forall j | j in t.tree && j !in t.queue && j !in dirty + {i}
      ensures SentOk(t, j)
    {
      assert SentOk(s, j);
    }
  }

  lemma PlaceFrame<D>(s: State<D>, t: State<D>, i: nat, p: nat)
    requires Frames(s, {p}) && (i in s.tree ==> s.tree[i].page.None?)
    requires i in t.tree && t == s.(tree := t.tree) && t.tree == s.tree[i := t.tree[i]] && t.tree[i].page == Some(p)
    ensures Frames(t, {})
  {
    assert Holds(t, i, p);
    forall j, q
      ensures Holds(t, j, q) <==> (Holds(s, j, q) || (j == i && q == p))
    {
    }
    forall q | q in t.mem
      ensures q in t.elements || q in {} || exists j :: Holds(t, j, q)
    {
      if q !in s.elements && q != p {
        var j :| Holds(s, j, q);
        assert Holds(t, j, q);
      }
    }
  }

  lemma InsertHitKeeps<D>(s: State<D>, owe: set<nat>, dirty: set<nat>, i: nat)
    requires InvWith(s, owe, dirty, {}) && i !in owe && i !in dirty
    requires i in s.tree && i in s.present && s.tree[i].page.Some?
    ensures InvWith(InsertPage(s, i).value, owe + {i}, dirty + {i}, {})
  {
    var t := InsertPage(s, i).value;
    assert EntryOk(s, Owed(s, owe)[i], false, i);
    EntryTakesOne(s, t, owe, dirty, i);
    SameFrames(s, t, {});
  }

  lemma InsertMissKeeps<D>(s: State<D>, owe: set<nat>, dirty: set<nat>, i: nat)
    requires InvWith(s, owe, dirty, {}) && i !in owe && i !in dirty
    requires i in s.tree ==> i in s.present && s.tree[i].page.None?
    requires TakeFrame(s).Some?
    ensures InvWith(InsertPage(s, i).value, owe + {i}, dirty + {i}, {})
  {
    TakeFrameKeeps(s, owe, dirty);
    var (u, p) := TakeFrame(s).value;
    var t := InsertPage(s, i).value;
    PlaceFrame(u, t, i, p);
    if i in u.tree {
      assert EntryOk(u, Owed(u, owe)[i], false, i);
    } else {
      assert i !in Owed(u, owe);
    }
    EntryTakesOne(u, t, owe, dirty, i);
  }

  lemma InsertFrame<D>(s: State<D>, i: nat)
    requires InsertPage(s, i).Some? && (TakeFrame(s).Some? ==> SameButFrames(s, TakeFrame(s).value.0))
    ensures var t := InsertPage(s, i).value;
            && t.tree.Keys == s.tree.Keys + {i}
            && t == s.(tree := t.tree, reclaim := t.reclaim, elements := t.elements, usedNr := t.usedNr)
  {
  }

  /** `gpt_insert_page`: whether the entry is new, frameless or complete, it takes on one
      more outstanding send and ends with a frame of its own. */
  lemma InsertPageKeeps<D>(s: State<D>, owe: set<nat>, dirty: set<nat>, i: nat)
    requires InvWith(s, owe, dirty, {}) && i !in owe && i !in dirty
    requires i in s.tree ==> i in s.present
    requires InsertPage(s, i).Some?
    ensures var t := InsertPage(s, i).value;
            && InvWith(t, owe + {i}, dirty + {i}, {}) && t.tree.Keys == s.tree.Keys + {i}
            && t == s.(tree := t.tree, reclaim := t.reclaim, elements := t.elements, usedNr := t.usedNr)
  {
    if TakeFrame(s).Some? {
      TakeFrameKeeps(s, owe, dirty);
    }
    InsertFrame(s, i);
    if i in s.tree && s.tree[i].page.Some? {
      InsertHitKeeps(s, owe, dirty, i);
    } else {
      InsertMissKeeps(s, owe, dirty, i);
    }
  }

  /** What each insertion keeps, the whole loop keeps. */
  lemma {:induction false} InsertRunFold<D(!new)>(p: (State<D>, set<nat>) -> bool, all: set<nat>,
                                                  s: State<D>, owe: set<nat>, start: nat, n: nat)
    requires p(s, owe) && owe !! Range(start, n) && Range(start, n) <= all && InsertRun(s, start, n).Some?
    requires forall t: State<D>, o: set<nat>, i: nat ::
               p(t, o) && i in all && i !in o && InsertPage(t, i).Some? ==> p(InsertPage(t, i).value, o + {i})
    ensures p(InsertRun(s, start, n).value, owe + Range(start, n))
    decreases n
  {
    if n > 0 {
      KeysCons(owe, start, n);
      assert start in all;
      InsertRunFold(p, all, InsertPage(s, start).value, owe + {start}, start + 1, n - 1);
    } else {
      assert owe + Range(start, n) == owe;
    }
  }

  /** Part of a request's pages, `o`, have been inserted since `s`. */
  ghost predicate Inserted<D>(s: State<D>, t: State<D>, o: set<nat>) {
    && InvWith(t, o, o, {}) && t.tree.Keys == s.tree.Keys + o
    && t == s.(tree := t.tree, reclaim := t.reclaim, elements := t.elements, usedNr := t.usedNr)
  }

  lemma InsertedMore<D>(s: State<D>, t: State<D>, o: set<nat>, i: nat)
    requires Inserted(s, t, o) && i !in o && (i in s.tree ==> i in s.present) && InsertPage(t, i).Some?
    ensures Inserted(s, InsertPage(t, i).value, o + {i})
  {
    InsertPageKeeps(t, o, o, i);
  }

  lemma NothingInserted<D>(s: State<D>)
    requires Inv(s)
    ensures Inserted(s, s, {})
  {
    assert s.tree.Keys + {} == s.tree.Keys;
  }

  lemma InsertRunFrom<D(!new)>(s: State<D>, start: nat, n: nat, p: (State<D>, set<nat>) -> bool)
    requires p(s, {}) && (forall t: State<D>, o: set<nat> :: p(t, o) <==> Inserted(s, t, o))
    requires (forall i :: i in Range(start, n) && i in s.tree ==> i in s.present) && InsertRun(s, start, n).Some?
    ensures p(InsertRun(s, start, n).value, Range(start, n))
  {
    forall t: State<D>, o: set<nat>, i: nat | p(t, o) && i in Range(start, n) && i !in o && InsertPage(t, i).Some?
      ensures p(InsertPage(t, i).value, o + {i})
    {
      InsertedMore(s, t, o, i);
    }
    InsertRunFold(p, Range(start, n), s, {}, start, n);
    assert {} + Range(start, n) == Range(start, n);
  }

  lemma InsertRunKeeps<D(!new)>(s: State<D>, start: nat, n: nat)
    requires Inv(s) && (forall i :: i in Range(start, n) && i in s.tree ==> i in s.present)
    requires InsertRun(s, start, n).Some?
    ensures Inserted(s, InsertRun(s, start, n).value, Range(start, n))
  {
    NothingInserted(s);
    InsertRunFrom(s, start, n, (t, o) => Inserted(s, t, o));
  }

  lemma OwedByQueue<D>(s: State<D>, t: State<D>, owe: set<nat>, i: nat)
    requires i in owe && t.queue == s.queue + multiset{i} && Pipe(t) == Pipe(s)
    ensures Owed(t, owe - {i}) == Owed(s, owe)
  {
    assert multiset(owe) == multiset(owe - {i}) + multiset{i};
  }

  lemma OwedHasFrame<D>(s: State<D>, owe: set<nat>, dirty: set<nat>, i: nat)
    requires Entries(s, owe, dirty) && i in owe
    ensures i in s.tree && s.tree[i].page.Some? && Holds(s, i, s.tree[i].page.value)
  {
    assert multiset(owe)[i] == 1;
    assert i in Owed(s, owe);
    assert EntryOk(s, Owed(s, owe)[i], i in dirty, i);
  }

  lemma FillPageEntries<D>(s: State<D>, owe: set<nat>, i: nat, d: D)
    requires InvWith(s, owe, owe, {}) && i in owe
    ensures Entries(FillPage(s, i, d), owe - {i}, owe - {i})
  {
    var t := FillPage(s, i, d);
    OwedHasFrame(s, owe, owe, i);
    OwedByQueue(s, t, owe, i);
    forall j | j in t.tree
      ensures EntryOk(t, Owed(t, owe - {i})[j], j in owe - {i}, j)
    {
      assert EntryOk(s, Owed(s, owe)[j], j in owe, j);
      if s.tree[j].page.Some? {
        assert Holds(s, j, s.tree[j].page.value);
      }
    }
  }

  lemma FillPageDelivered<D>(s: State<D>, owe: set<nat>, i: nat, d: D)
    requires Delivered(s, owe) && i in s.tree && s.tree[i].page.Some?
    ensures Delivered(FillPage(s, i, d), owe - {i})
  {
    var t := FillPage(s, i, d);
    forall j | j in t.tree && j !in t.queue && j !in owe - {i}
      ensures SentOk(t, j)
    {
      assert j in s.queue ==> j in t.queue;
      assert SentOk(s, j);
    }
  }

  lemma FillPageKeeps<D>(s: State<D>, owe: set<nat>, i: nat, d: D)
    requires InvWith(s, owe, owe, {}) && i in owe
    ensures InvWith(FillPage(s, i, d), owe - {i}, owe - {i}, {})
  {
    OwedHasFrame(s, owe, owe, i);
    FillPageEntries(s, owe, i, d);
    FillPageDelivered(s, owe, i, d);
    SameFrames(s, FillPage(s, i, d), {});
  }

  lemma {:induction false} FillRunFold<D(!new)>(p: (State<D>, set<nat>) -> bool, s: State<D>, start: nat, data: seq<D>)
    requires p(s, Range(start, |data|))
    requires forall t: State<D>, o: set<nat>, i: nat, d: D :: p(t, o) && i in o ==> p(FillPage(t, i, d), o - {i})
    ensures p(FillRun(s, start, data), {})
    decreases |data|
  {
    if data != [] {
      KeysCons({}, start, |data|);
      assert start in Range(start, |data|);
      FillRunFold(p, FillPage(s, start, data[0]), start + 1, data[1..]);
    } else {
      assert Range(start, |data|) == {};
    }
  }

  lemma FillRunKeeps<D(!new)>(s: State<D>, start: nat, data: seq<D>)
    requires InvWith(s, Range(start, |data|), Range(start, |data|), {})
    ensures Inv(FillRun(s, start, data))
  {
    var p := (t: State<D>, o: set<nat>) => InvWith(t, o, o, {});
    forall t: State<D>, o: set<nat>, i: nat, d: D | p(t, o) && i in o
      ensures p(FillPage(t, i, d), o - {i})
    {
      FillPageKeeps(t, o, i, d);
    }
    FillRunFold(p, s, start, data);
  }

  lemma FirstWriteKeys<D>(s: State<D>, start: nat, data: seq<D>)
    requires FirstWriteDone(s, Write(start, data))
    ensures forall i :: i in Range(start, |data|) && i in s.tree ==> i in s.present
    ensures {} + Range(start, |data|) == Range(start, |data|)
  {
  }

  lemma WriteKeeps<D(!new)>(s: State<D>, start: nat, data: seq<D>)
    requires Inv(s) && WriteRun(s, start, data).Some? && FirstWriteDone(s, Write(start, data))
    ensures Inv(WriteRun(s, start, data).value)
  {
    FirstWriteKeys(s, start, data);
    InsertRunKeeps(s, start, |data|);
    FillRunKeeps(InsertRun(s, start, |data|).value, start, data);
  }

  // ----- Sending -----

  lemma {:induction false} InFlightSnoc<D>(flight: seq<Op<D>>, op: Op<D>)
    ensures InFlight(flight + [op]) == InFlight(flight) + multiset(Range(op.start, |op.data|))
  {
    if flight != [] {
      InFlightSnoc(flight[1..], op);
      assert (flight + [op])[1..] == flight[1..] + [op];
    } else {
      assert (flight + [op])[1..] == [];
    }
  }

  lemma {:induction false} OverlaySnoc<D>(remote: map<nat, D>, flight: seq<Op<D>>, op: Op<D>)
    requires !op.landed
    ensures Overlay(remote, flight + [op]) == Overlay(remote, flight) + OpMap(op)
    decreases |flight|
  {
    if flight != [] {
      assert (flight + [op])[1..] == flight[1..] + [op];
      OverlaySnoc(if flight[0].landed then remote else remote + OpMap(flight[0]), flight[1..], op);
    } else {
      assert (flight + [op])[1..] == [];
    }
  }

  /** Copying moves pages from the queue into the pipe and owes exactly what was owed. */
  lemma CopyKeepsOwed<D>(s: State<D>, start: nat, n: nat, stale: D)
    requires Enabled(s, Copy(start, n, stale))
    ensures Owed(CopyRun(s, start, n, stale), {}) == Owed(s, {})
  {
    var t, op := CopyRun(s, start, n, stale), Snapshot(s, start, n, stale);
    assert Pipe(t) == Pipe(s) + [op];
    InFlightSnoc(Pipe(s), op);
    MoveBag(s.queue, multiset(Range(start, n)), InFlight(Pipe(s)));
  }

  lemma MoveBag(queue: multiset<nat>, part: multiset<nat>, pipe: multiset<nat>)
    requires part <= queue
    ensures (queue - part) + (pipe + part) + multiset({}) == queue + pipe + multiset({})
  {
  }

  /** `o` is `before` with the pages from `start` replaced by what `s` has in their frames. */
  ghost predicate Patched<D>(o: map<nat, D>, before: map<nat, D>, s: State<D>, start: nat, k: nat, stale: D, i: nat) {
    if start <= i < start + k then i in o && o[i] == PageData(s, i, stale)
    else (i in o <==> i in before) && (i in o ==> o[i] == before[i])
  }

  lemma SnapshotAt<D>(s: State<D>, before: map<nat, D>, start: nat, n: nat, stale: D, i: nat)
    ensures Patched(before + OpMap(Snapshot(s, start, n, stale)), before, s, start, n, stale, i)
  {
    var op := Snapshot(s, start, n, stale);
    if start <= i < start + n {
      assert op.data[i - start] == PageData(s, start + (i - start), stale);
    }
  }

  /** The peers will hold what was in the frames of the pages copied. */
  lemma CopyOverlay<D>(s: State<D>, start: nat, n: nat, stale: D, i: nat)
    ensures Patched(Overlay(s.remote, Pipe(CopyRun(s, start, n, stale))), Overlay(s.remote, Pipe(s)),
                    s, start, n, stale, i)
  {
    var op := Snapshot(s, start, n, stale);
    assert Pipe(CopyRun(s, start, n, stale)) == Pipe(s) + [op];
    OverlaySnoc(s.remote, Pipe(s), op);
    SnapshotAt(s, Overlay(s.remote, Pipe(s)), start, n, stale, i);
  }

  /** Hence `rdma_write` never meets an entry without a frame: it copies the last data. */
  lemma CopiesLastData<D>(s: State<D>, start: nat, n: nat, stale: D, i: nat)
    requires Inv(s) && Enabled(s, Copy(start, n, stale)) && start <= i < start + n
    ensures i in s.tree && s.tree[i].page.Some? && i in s.last && PageData(s, i, stale) == s.last[i]
  {
    assert i in multiset(Range(start, n));
    assert s.queue[i] > 0;
    assert i in Owed(s, {});
    assert EntryOk(s, Owed(s, {})[i], false, i);
  }

  lemma CopyDelivers<D>(s: State<D>, start: nat, n: nat, stale: D, i: nat)
    requires Inv(s) && Enabled(s, Copy(start, n, stale)) && i in s.tree
    requires i !in CopyRun(s, start, n, stale).queue
    ensures SentOk(CopyRun(s, start, n, stale), i)
  {
    CopyOverlay(s, start, n, stale, i);
    if start <= i < start + n {
      CopiesLastData(s, start, n, stale, i);
    } else {
      assert i !in Range(start, n);
      assert i !in s.queue;
      assert SentOk(s, i);
    }
  }

  lemma SameEntries<D>(s: State<D>, t: State<D>, owe: set<nat>, owe': set<nat>)
    requires Entries(s, owe, {}) && Owed(t, owe') == Owed(s, owe)
    requires t.tree == s.tree && t.present == s.present && t.last == s.last && t.mem == s.mem
    ensures Entries(t, owe', {})
  {
    forall i | i in t.tree
      ensures EntryOk(t, Owed(t, owe')[i], false, i)
    {
      assert EntryOk(s, Owed(s, owe)[i], false, i);
    }
  }

  lemma CopyDelivered<D>(s: State<D>, start: nat, n: nat, stale: D)
    requires Inv(s) && Enabled(s, Copy(start, n, stale))
    ensures Delivered(CopyRun(s, start, n, stale), {})
  {
    var t := CopyRun(s, start, n, stale);
    forall j | j in t.tree && j !in t.queue
      ensures SentOk(t, j)
    {
      CopyDelivers(s, start, n, stale, j);
    }
  }

  /** Only the queue and the buffers change. */
  lemma QueueStep<D>(s: State<D>, t: State<D>)
    requires Inv(s) && t == s.(queue := t.queue, copied := t.copied, flight := t.flight)
    requires Owed(t, {}) == Owed(s, {}) && Delivered(t, {}) && Unposted(t)
    ensures Inv(t)
  {
    SameEntries(s, t, {}, {});
    SameFrames(s, t, {});
  }

  lemma CopyUnposted<D>(s: State<D>, start: nat, n: nat, stale: D)
    requires Unposted(s)
    ensures Unposted(CopyRun(s, start, n, stale))
  {
  }

  lemma CopyKeeps<D>(s: State<D>, start: nat, n: nat, stale: D)
    requires Inv(s) && Enabled(s, Copy(start, n, stale))
    ensures Inv(CopyRun(s, start, n, stale))
  {
    CopyKeepsOwed(s, start, n, stale);
    CopyDelivered(s, start, n, stale);
    CopyUnposted(s, start, n, stale);
    QueueStep(s, CopyRun(s, start, n, stale));
  }

  // ----- Posting -----

  lemma {:induction false} OverlayMerged<D>(remote: map<nat, D>, flight: seq<Op<D>>, ops: seq<Op<D>>)
    requires forall j :: 0 <= j < |ops| ==> !ops[j].landed
    ensures Overlay(remote, flight + ops) == Overlay(remote, flight) + Merged(ops)
    decreases |ops|
  {
    if ops == [] {
      assert flight + ops == flight;
      assert Overlay(remote, flight) + map[] == Overlay(remote, flight);
    } else {
      var n := |ops| - 1;
      OverlayMerged(remote, flight, ops[..n]);
      assert flight + ops == (flight + ops[..n]) + [ops[n]];
      OverlaySnoc(remote, flight + ops[..n], ops[n]);
      MapAssoc(Overlay(remote, flight), Merged(ops[..n]), OpMap(ops[n]));
    }
  }

  lemma MapAssoc<D>(a: map<nat, D>, b: map<nat, D>, c: map<nat, D>)
    ensures (a + b) + c == a + (b + c)
  {
  }

  lemma MergedSnoc<D>(ops: seq<Op<D>>, op: Op<D>)
    ensures Merged(ops + [op]) == Merged(ops) + OpMap(op)
  {
    assert (ops + [op])[..|ops|] == ops;
  }

  lemma {:induction false} MergedSplit<D>(ops: seq<Op<D>>, more: seq<Op<D>>)
    ensures Merged(ops + more) == Merged(ops) + Merged(more)
    decreases |more|
  {
    if more == [] {
      assert ops + more == ops;
      MergedNone(ops);
    } else {
      var n := |more| - 1;
      var init, last := more[..n], more[n];
      assert more == init + [last] && ops + more == (ops + init) + [last];
      MergedSplit(ops, init);
      MergedSnoc(ops + init, last);
      MergedSnoc(init, last);
      MapAssoc(Merged(ops), Merged(init), OpMap(last));
    }
  }

  lemma MergedNone<D>(ops: seq<Op<D>>)
    ensures Merged(ops) + Merged([]) == Merged(ops)
  {
  }

  lemma MergedOne<D>(op: Op<D>)
    ensures Merged([op]) == OpMap(op)
  {
    MergedSnoc([], op);
    assert [] + [op] == [op];
    assert map[] + OpMap(op) == OpMap(op);
  }

  /** Putting `x` before what was copied earlier changes page `i` exactly when it was copied earlier
      with other data and not copied again later. */
  lemma SwapAt<D>(base: map<nat, D>, earlier: map<nat, D>, x: map<nat, D>, later: map<nat, D>, i: nat)
    ensures var before, after := base + (earlier + (x + later)), (base + x) + (earlier + later);
            && (i in before <==> i in after)
            && (i in before ==>
                  (before[i] == after[i] <==> (i in x && i in earlier && i !in later ==> earlier[i] == x[i])))
  {
  }

  lemma {:induction false} InFlightSplit<D>(a: seq<Op<D>>, b: seq<Op<D>>)
    ensures InFlight(a + b) == InFlight(a) + InFlight(b)
  {
    if a == [] {
      assert a + b == b;
    } else {
      assert (a + b)[1..] == a[1..] + b;
      InFlightSplit(a[1..], b);
    }
  }

  lemma MergedThree<D>(pre: seq<Op<D>>, op: Op<D>, rest: seq<Op<D>>)
    ensures Merged(pre + ([op] + rest)) == Merged(pre) + (OpMap(op) + Merged(rest))
  {
    MergedSplit(pre, [op] + rest);
    MergedSplit([op], rest);
    MergedOne(op);
  }

  lemma Around<D>(ops: seq<Op<D>>, j: nat)
    requires j < |ops|
    ensures ops == ops[..j] + ([ops[j]] + ops[j + 1..])
  {
  }

  lemma PostOverlays<D>(s: State<D>, j: nat)
    requires Unposted(s) && j < |s.copied|
    ensures var base, earlier, x, later := Overlay(s.remote, s.flight), Merged(s.copied[..j]), OpMap(s.copied[j]),
                                           Merged(s.copied[j + 1..]);
            && Overlay(s.remote, Pipe(s)) == base + (earlier + (x + later))
            && Overlay(s.remote, Pipe(PostOp(s, j))) == (base + x) + (earlier + later)
  {
    var op, rest := s.copied[j], s.copied[..j] + s.copied[j + 1..];
    OverlayMerged(s.remote, s.flight, s.copied);
    Around(s.copied, j);
    MergedThree(s.copied[..j], op, s.copied[j + 1..]);
    OverlaySnoc(s.remote, s.flight, op);
    OverlayMerged(s.remote, s.flight + [op], rest);
    MergedSplit(s.copied[..j], s.copied[j + 1..]);
  }

  lemma PostAt<D>(s: State<D>, j: nat, i: nat)
    requires Unposted(s) && j < |s.copied|
    ensures var before, after := Overlay(s.remote, Pipe(s)), Overlay(s.remote, Pipe(PostOp(s, j)));
            && (i in before <==> i in after)
            && (i in before ==> (before[i] == after[i] <==> PostSafeAt(s, j, i)))
  {
    PostOverlays(s, j);
    SwapAt(Overlay(s.remote, s.flight), Merged(s.copied[..j]), OpMap(s.copied[j]), Merged(s.copied[j + 1..]), i);
  }

  lemma CopiedIsInTree<D>(s: State<D>, j: nat, i: nat)
    requires Inv(s) && j < |s.copied| && i in OpMap(s.copied[j])
    ensures i in s.tree
  {
    InFlightSplit(s.flight, s.copied);
    InFlightDrop(s.copied, j);
    assert i in Range(s.copied[j].start, |s.copied[j].data|);
    assert i in InFlight(Pipe(s));
    assert i in Owed(s, {});
  }

  lemma PostDeliveredIff<D>(s: State<D>, j: nat)
    requires Inv(s) && j < |s.copied|
    ensures Delivered(PostOp(s, j), {}) <==> PostHarmless(s, Post(j))
  {
    var t := PostOp(s, j);
    if Delivered(t, {}) {
      forall i: nat | i !in s.queue
        ensures PostSafeAt(s, j, i)
      {
        PostAt(s, j, i);
        if i in OpMap(s.copied[j]) {
          CopiedIsInTree(s, j, i);
          assert SentOk(s, i) && SentOk(t, i);
        }
      }
    }
    if PostHarmless(s, Post(j)) {
      forall i | i in t.tree && i !in t.queue
        ensures SentOk(t, i)
      {
        assert SentOk(s, i) && PostSafeAt(s, j, i);
        PostAt(s, j, i);
      }
    }
  }

  lemma {:induction false} MergedCovers<D>(ops: seq<Op<D>>, i: nat) returns (k: nat)
    requires i in Merged(ops)
    ensures k < |ops| && i in OpMap(ops[k])
    decreases |ops|
  {
    k := |ops| - 1;
    if i !in OpMap(ops[k]) {
      k := MergedCovers(ops[..k], i);
    }
  }

  /** A sender may post whenever no buffer copied before its own and not posted yet shares a page
      with it, so always if there is one sender. */
  lemma NoOverlapIsHarmless<D>(s: State<D>, j: nat)
    requires j < |s.copied| && forall k :: 0 <= k < j ==> !Overlap(s.copied[k], s.copied[j])
    ensures PostHarmless(s, Post(j))
  {
    var earlier, op := Merged(s.copied[..j]), OpMap(s.copied[j]);
    forall i | i in op
      ensures i !in earlier
    {
      if i in earlier {
        var k := MergedCovers(s.copied[..j], i);
      }
    }
  }

  lemma PostKeepsOwed<D>(s: State<D>, j: nat)
    requires j < |s.copied|
    ensures Owed(PostOp(s, j), {}) == Owed(s, {})
  {
    var op := s.copied[j];
    InFlightSplit(s.flight, s.copied);
    InFlightDrop(s.copied, j);
    InFlightSplit(s.flight + [op], s.copied[..j] + s.copied[j + 1..]);
    InFlightSnoc(s.flight, op);
  }

  lemma PostUnposted<D>(s: State<D>, j: nat)
    requires Unposted(s) && j < |s.copied|
    ensures Unposted(PostOp(s, j))
  {
  }

  /** Posting keeps the invariant exactly under the post-order hypothesis. */
  lemma PostKeepsIff<D>(s: State<D>, j: nat)
    requires Inv(s) && Enabled(s, Post(j))
    ensures Inv(PostOp(s, j)) <==> PostHarmless(s, Post(j))
  {
    PostDeliveredIff(s, j);
    if PostHarmless(s, Post(j)) {
      PostKeepsOwed(s, j);
      PostUnposted(s, j);
      QueueStep(s, PostOp(s, j));
    }
  }

  // ----- Landing and completing -----

  lemma {:induction false} OverlayLand<D>(remote: map<nat, D>, flight: seq<Op<D>>, j: nat)
    requires j < |flight| && !flight[j].landed
    requires forall i :: 0 <= i < j && !flight[i].landed ==> !Overlap(flight[i], flight[j])
    ensures Overlay(remote + OpMap(flight[j]), flight[j := flight[j].(landed := true)]) == Overlay(remote, flight)
    decreases |flight|
  {
    var op := flight[j];
    var after := flight[j := op.(landed := true)];
    if j == 0 {
      assert after[1..] == flight[1..];
    } else {
      assert after[1..] == flight[1..][j - 1 := op.(landed := true)];
      forall i | 0 <= i < j - 1 && !flight[1..][i].landed
        ensures !Overlap(flight[1..][i], flight[1..][j - 1])
      {
        assert flight[1..][i] == flight[i + 1];
      }
      if flight[0].landed {
        OverlayLand(remote, flight[1..], j - 1);
      } else {
        OverlayLand(remote + OpMap(flight[0]), flight[1..], j - 1);
        assert !Overlap(flight[0], op);
        assert remote + OpMap(op) + OpMap(flight[0]) == remote + OpMap(flight[0]) + OpMap(op);
      }
    }
  }

  lemma {:induction false} InFlightLand<D>(flight: seq<Op<D>>, j: nat)
    requires j < |flight|
    ensures InFlight(flight[j := flight[j].(landed := true)]) == InFlight(flight)
    decreases |flight|
  {
    var after := flight[j := flight[j].(landed := true)];
    if j == 0 {
      assert after[1..] == flight[1..];
    } else {
      assert after[1..] == flight[1..][j - 1 := flight[j].(landed := true)];
      InFlightLand(flight[1..], j - 1);
    }
  }

  lemma LandPipe<D>(s: State<D>, j: nat)
    requires Enabled(s, Land(j))
    ensures var t := LandOp(s, j);
            && InFlight(Pipe(t)) == InFlight(Pipe(s)) && Overlay(t.remote, Pipe(t)) == Overlay(s.remote, Pipe(s))
  {
    var t, pipe := LandOp(s, j), Pipe(s);
    assert pipe[j] == s.flight[j];
    assert Pipe(t) == pipe[j := pipe[j].(landed := true)];
    forall i | 0 <= i < j && !pipe[i].landed
      ensures !Overlap(pipe[i], pipe[j])
    {
      assert pipe[i] == s.flight[i];
    }
    OverlayLand(s.remote, pipe, j);
    InFlightLand(pipe, j);
  }

  lemma LandKeeps<D>(s: State<D>, j: nat)
    requires Inv(s) && Enabled(s, Land(j))
    ensures Inv(LandOp(s, j))
  {
    LandPipe(s, j);
    KeepsOwedAndOverlay(s, LandOp(s, j), {});
  }

  /** A step on the network only: nothing owed and nothing to be delivered changes. */
  lemma KeepsOwedAndOverlay<D>(s: State<D>, t: State<D>, owe: set<nat>)
    requires Inv(s) && t == s.(remote := t.remote, flight := t.flight, copied := t.copied) && Unposted(t)
    requires Owed(t, owe) == Owed(s, {}) && Overlay(t.remote, Pipe(t)) == Overlay(s.remote, Pipe(s))
    ensures InvWith(t, owe, {}, {})
  {
    SameEntries(s, t, {}, owe);
    SameFrames(s, t, {});
    forall i | i in t.tree && i !in t.queue
      ensures SentOk(t, i)
    {
      assert SentOk(s, i);
    }
  }

  lemma {:induction false} OverlayDrop<D>(remote: map<nat, D>, flight: seq<Op<D>>, j: nat)
    requires j < |flight| && flight[j].landed
    ensures Overlay(remote, flight[..j] + flight[j + 1..]) == Overlay(remote, flight)
    decreases |flight|
  {
    var rest := flight[..j] + flight[j + 1..];
    if j == 0 {
      assert rest == flight[1..];
    } else {
      assert rest[1..] == flight[1..][..j - 1] + flight[1..][j..];
      OverlayDrop(if flight[0].landed then remote else remote + OpMap(flight[0]), flight[1..], j - 1);
    }
  }

  lemma {:induction false} InFlightDrop<D>(flight: seq<Op<D>>, j: nat)
    requires j < |flight|
    ensures InFlight(flight) == InFlight(flight[..j] + flight[j + 1..])
                                + multiset(Range(flight[j].start, |flight[j].data|))
    decreases |flight|
  {
    var rest := flight[..j] + flight[j + 1..];
    if j == 0 {
      assert rest == flight[1..];
    } else {
      assert rest[1..] == flight[1..][..j - 1] + flight[1..][j..];
      InFlightDrop(flight[1..], j - 1);
    }
  }

  // ----- The reclaim list never fills up -----

  ghost function FramesOf<D>(s: State<D>, xs: seq<nat>): (r: set<nat>)
    requires forall i :: i in xs ==> i in s.tree && s.tree[i].page.Some?
  {
    if xs == [] then {} else {s.tree[xs[0]].page.value} + FramesOf(s, xs[1..])
  }

  lemma {:induction false} FramesOfCount<D>(s: State<D>, xs: seq<nat>)
    requires Frames(s, {}) && Distinct(xs)
    requires forall i :: i in xs ==> i in s.tree && s.tree[i].page.Some?
    ensures |FramesOf(s, xs)| == |xs| && FramesOf(s, xs) <= s.mem.Keys
    ensures forall p :: p in FramesOf(s, xs) ==> exists i :: i in xs && Holds(s, i, p)
  {
    if xs != [] {
      FramesOfCount(s, xs[1..]);
      var p := s.tree[xs[0]].page.value;
      assert Holds(s, xs[0], p);
      assert xs[0] !in xs[1..] by { HeadIsNew(xs); }
      forall q | q in FramesOf(s, xs)
        ensures exists i :: i in xs && Holds(s, i, q)
      {
        if q == p {
          assert xs[0] in xs && Holds(s, xs[0], q);
        } else {
          var i :| i in xs[1..] && Holds(s, i, q);
          assert i in xs;
        }
      }
    }
  }

  lemma HeadIsNew(xs: seq<nat>)
    requires Distinct(xs) && xs != []
    ensures xs[0] !in xs[1..] && Distinct(xs[1..])
  {
  }

  /** Entries on the list hold distinct frames, so the list is no longer than the pool. */
  lemma ListBounded<D>(s: State<D>, xs: seq<nat>)
    requires Frames(s, {}) && Distinct(xs)
    requires forall i :: i in xs ==> i in s.tree && s.tree[i].page.Some?
    ensures |xs| <= s.capNr <= CONFIGURED_QUEUE_SIZE
  {
    FramesOfCount(s, xs);
    SubsetSize(FramesOf(s, xs), s.mem.Keys);
  }

  lemma ListedHaveFrames<D>(s: State<D>, owe: set<nat>, i: nat)
    requires Entries(s, owe, {}) && Listed(s) && i in s.reclaim
    ensures i in s.tree && s.tree[i].page.Some? && i in s.present
  {
    assert EntryOk(s, Owed(s, owe)[i], false, i);
  }

  lemma OwedDrop<D>(s: State<D>, t: State<D>, owe: set<nat>, i: nat)
    requires i in owe && t.queue == s.queue && Pipe(t) == Pipe(s)
    ensures Owed(s, owe)[i] > 0
    ensures forall j :: Owed(t, owe - {i})[j] == if j == i then Owed(s, owe)[i] - 1 else Owed(s, owe)[j]
  {
    assert multiset(owe) == multiset(owe - {i}) + multiset{i};
  }

  lemma CompletedEntry<D>(s: State<D>, n: nat, i: nat)
    requires i in s.tree && EntryOk(s, n, false, i) && n > 0
    ensures EntryOk(CompletePage(s, i), n - 1, false, i)
  {
  }

  lemma OtherEntry<D>(s: State<D>, n: nat, i: nat, j: nat)
    requires i in s.tree && j in s.tree && j != i && EntryOk(s, n, false, j)
    ensures EntryOk(CompletePage(s, i), n, false, j)
  {
  }

  lemma CompletePageEntries<D>(s: State<D>, owe: set<nat>, i: nat)
    requires Entries(s, owe, {}) && i in owe
    ensures Entries(CompletePage(s, i), owe - {i}, {})
    ensures i in s.tree && s.tree[i].page.Some?
  {
    var t := CompletePage(s, i);
    OwedDrop(s, t, owe, i);
    OwedHasFrame(s, owe, {}, i);
    forall j | j in t.tree
      ensures EntryOk(t, Owed(t, owe - {i})[j], false, j)
    {
      assert EntryOk(s, Owed(s, owe)[j], false, j);
      if j == i {
        CompletedEntry(s, Owed(s, owe)[i], i);
      } else {
        OtherEntry(s, Owed(s, owe)[j], i, j);
      }
    }
    forall j | j in Owed(t, owe - {i})
      ensures j in t.tree
    {
      assert j in Owed(s, owe);
    }
  }

  lemma CompletePageRest<D>(s: State<D>, owe: set<nat>, i: nat)
    requires InvWith(s, owe, {}, {}) && i in s.tree
    ensures Frames(CompletePage(s, i), {}) && Delivered(CompletePage(s, i), {})
  {
    CompletePageFrame(s, i);
    SameFrames(s, CompletePage(s, i), {});
    SameDelivered(s, CompletePage(s, i), {});
  }

  lemma CompletePageFrame<D>(s: State<D>, i: nat)
    requires i in s.tree
    ensures var t := CompletePage(s, i);
            && t == s.(tree := t.tree, reclaim := t.reclaim, present := t.present)
            && t.tree.Keys == s.tree.Keys
            && forall j :: j in s.tree ==> t.tree[j].page == s.tree[j].page
  {
  }

  lemma SameDelivered<D>(s: State<D>, t: State<D>, dirty: set<nat>)
    requires Delivered(s, dirty) && t.tree.Keys == s.tree.Keys
    requires t.queue == s.queue && Pipe(t) == Pipe(s) && t.remote == s.remote && t.last == s.last
    ensures Delivered(t, dirty)
  {
    forall j | j in t.tree && j !in t.queue && j !in dirty
      ensures SentOk(t, j)
    {
      assert SentOk(s, j);
    }
  }

  /** A list extended by an unmarked entry with a frame still fits. */
  lemma ListHasRoom<D>(s: State<D>, owe: set<nat>, i: nat)
    requires InvWith(s, owe, {}, {}) && i in s.tree && s.tree[i].page.Some? && !s.tree[i].reclaimable
    ensures i !in s.reclaim && |s.reclaim| < s.capNr <= CONFIGURED_QUEUE_SIZE
  {
    var xs := s.reclaim + [i];
    forall j | j in xs
      ensures j in s.tree && s.tree[j].page.Some?
    {
      if j in s.reclaim {
        ListedHaveFrames(s, owe, j);
      }
    }
    ListBounded(s, xs);
  }

  lemma ListSnoc(xs: seq<nat>, i: nat)
    requires Distinct(xs) && i !in xs
    ensures Distinct(xs + [i])
  {
  }

  lemma CompletePageList<D>(s: State<D>, owe: set<nat>, i: nat)
    requires InvWith(s, owe, {}, {}) && i in s.tree && s.tree[i].page.Some?
    ensures Listed(CompletePage(s, i))
  {
    if s.tree[i].reclaimable {
      MarkedStay(s, CompletePage(s, i), s.reclaim, i);
    } else {
      ListHasRoom(s, owe, i);
      ListSnoc(s.reclaim, i);
      MarkedStay(s, CompletePage(s, i), s.reclaim + [i], i);
    }
  }

  lemma MarkedStay<D>(s: State<D>, t: State<D>, xs: seq<nat>, i: nat)
    requires Listed(s) && Distinct(xs) && t.reclaim == xs && (xs == s.reclaim || xs == s.reclaim + [i])
    requires i in t.tree && t.tree[i].reclaimable && t.tree == s.tree[i := t.tree[i]]
    ensures Listed(t)
  {
    forall j | j in t.reclaim
      ensures j in t.tree && t.tree[j].reclaimable
    {
      assert j != i ==> j in s.reclaim;
    }
  }

  lemma CompletePageKeeps<D>(s: State<D>, owe: set<nat>, i: nat)
    requires InvWith(s, owe, {}, {}) && i in owe
    ensures InvWith(CompletePage(s, i), owe - {i}, {}, {})
  {
    CompletePageEntries(s, owe, i);
    CompletePageRest(s, owe, i);
    CompletePageList(s, owe, i);
  }

  lemma {:induction false} CompleteRunFold<D(!new)>(p: (State<D>, set<nat>) -> bool,
                                                    s: State<D>, owe: set<nat>, start: nat, n: nat)
    requires p(s, owe) && Range(start, n) <= owe
    requires forall t: State<D>, o: set<nat>, i: nat :: p(t, o) && i in o ==> p(CompletePage(t, i), o - {i})
    ensures p(CompleteRun(s, start, n), owe - Range(start, n))
    decreases n
  {
    if n > 0 {
      KeysLast(owe, start, n);
      CompleteRunFold(p, s, owe, start, n - 1);
    } else {
      assert owe - Range(start, n) == owe;
    }
  }

  lemma CompleteRunKeeps<D(!new)>(s: State<D>, owe: set<nat>, start: nat, n: nat)
    requires InvWith(s, owe, {}, {}) && Range(start, n) <= owe
    ensures InvWith(CompleteRun(s, start, n), owe - Range(start, n), {}, {})
  {
    var p := (t: State<D>, o: set<nat>) => InvWith(t, o, {}, {});
    forall t: State<D>, o: set<nat>, i: nat | p(t, o) && i in o
      ensures p(CompletePage(t, i), o - {i})
    {
      CompletePageKeeps(t, o, i);
    }
    CompleteRunFold(p, s, owe, start, n);
  }

  /** A completed write leaves the pipe and is owed by the completion in progress. */
  lemma CompletePipe<D>(s: State<D>, j: nat)
    requires Enabled(s, Complete(j))
    ensures var op, t := s.flight[j], s.(flight := s.flight[..j] + s.flight[j + 1..]);
            && Owed(t, Range(op.start, |op.data|)) == Owed(s, {})
            && Overlay(t.remote, Pipe(t)) == Overlay(s.remote, Pipe(s))
  {
    var t, pipe := s.(flight := s.flight[..j] + s.flight[j + 1..]), Pipe(s);
    assert pipe[j] == s.flight[j];
    assert Pipe(t) == pipe[..j] + pipe[j + 1..];
    OverlayDrop(s.remote, pipe, j);
    InFlightDrop(pipe, j);
  }

  lemma CompleteKeeps<D(!new)>(s: State<D>, j: nat)
    requires Inv(s) && Enabled(s, Complete(j))
    ensures Inv(CompleteOp(s, j))
  {
    var op := s.flight[j];
    var t := s.(flight := s.flight[..j] + s.flight[j + 1..]);
    var owe := Range(op.start, |op.data|);
    CompletePipe(s, j);
    KeepsOwedAndOverlay(s, t, owe);
    CompleteRunKeeps(t, owe, op.start, |op.data|);
    assert owe - owe == {};
  }

  lemma StepKeepsInv<D(!new)>(s: State<D>, a: Action<D>)
    requires Inv(s) && Enabled(s, a) && FirstWriteDone(s, a) && PostHarmless(s, a)
    ensures Inv(Next(s, a))
  {
    match a {
      case Write(start, data) => WriteKeeps(s, start, data);
      case Copy(start, n, stale) => CopyKeeps(s, start, n, stale);
      case Post(j) => PostKeepsIff(s, j);
      case Land(j) => LandKeeps(s, j);
      case Complete(j) => CompleteKeeps(s, j);
      case ReclaimMiss => ReclaimHeadKeeps(s, {}, {});
    }
  }

  lemma InitHasInv<D>(s: State<D>)
    requires Init(s)
    ensures Inv(s)
  {
    DistinctSize(s.elements);
  }

  lemma {:induction false} RunKeepsInv<D(!new)>(s: State<D>, acts: seq<Action<D>>)
    requires Inv(s) && LegalRun(s, acts)
    ensures Inv(Exec(s, acts))
    decreases |acts|
  {
    if acts != [] {
      StepKeepsInv(s, acts[0]);
      RunKeepsInv(Next(s, acts[0]), acts[1..]);
    }
  }
}
