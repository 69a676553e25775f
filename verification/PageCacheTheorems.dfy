/** What holds of every run of writes, sends, completions and reclaims. */
module PageCacheTheorems {
  import opened Options
  import opened Config
  import opened Distinctness
  import opened PageCache
  import opened PageCacheInvariant
  import opened Words

  // ----- Read after write -----

  /** The reference: a plain map from page index to the last data written, computed from the
      requests alone. */
  ghost function LastWritten<D>(m: map<nat, D>, acts: seq<Action<D>>): (r: map<nat, D>)
    decreases |acts|
  {
    if acts == [] then m else LastWritten(LastAfter(m, acts[0]), acts[1..])
  }

  lemma {:induction false} FillRunLast<D>(s: State<D>, start: nat, data: seq<D>)
    requires forall i :: start <= i < start + |data| ==> i in s.tree && s.tree[i].page.Some?
    ensures FillRun(s, start, data).last == s.last + OpMap(Op(start, data, false))
    decreases |data|
  {
    if data != [] {
      var t := FillPage(s, start, data[0]);
      FillRunLast(t, start + 1, data[1..]);
      assert t.last == s.last[start := data[0]];
      OpMapCons(s.last, start, data);
    }
  }

  lemma OpMapCons<D>(m: map<nat, D>, start: nat, data: seq<D>)
    requires data != []
    ensures m[start := data[0]] + OpMap(Op(start + 1, data[1..], false)) == m + OpMap(Op(start, data, false))
  {
    var l, r := OpMap(Op(start + 1, data[1..], false)), OpMap(Op(start, data, false));
    forall i | i in r && i != start
      ensures i in l && l[i] == r[i]
    {
    }
  }

  lemma WriteUpdatesLast<D(!new)>(s: State<D>, start: nat, data: seq<D>)
    requires Inv(s) && WriteRun(s, start, data).Some? && FirstWriteDone(s, Write(start, data))
    ensures WriteRun(s, start, data).value.last == s.last + OpMap(Op(start, data, false))
  {
    FirstWriteKeys(s, start, data);
    InsertRunKeeps(s, start, |data|);
    var t := InsertRun(s, start, |data|).value;
    forall i | start <= i < start + |data|
      ensures i in t.tree && t.tree[i].page.Some?
    {
      OwedHasFrame(t, Range(start, |data|), Range(start, |data|), i);
    }
    FillRunLast(t, start, data);
  }

  lemma CompletePageLast<D>(s: State<D>, start: nat, n: nat)
    ensures CompleteRun(s, start, n).last == s.last
  {
  }

  ghost function LastAfter<D>(m: map<nat, D>, a: Action<D>): (r: map<nat, D>) {
    if a.Write? then m + OpMap(Op(a.start, a.data, false)) else m
  }

  lemma StepTracksLast<D(!new)>(s: State<D>, a: Action<D>)
    requires Inv(s) && Enabled(s, a) && FirstWriteDone(s, a)
    ensures Next(s, a).last == LastAfter(s.last, a)
  {
    if a.Write? {
      WriteUpdatesLast(s, a.start, a.data);
    } else {
      OtherStepsKeepLast(s, a);
    }
  }

  lemma OtherStepsKeepLast<D>(s: State<D>, a: Action<D>)
    requires Enabled(s, a) && !a.Write?
    ensures Next(s, a).last == s.last
  {
    if a.Complete? {
      var op := s.flight[a.j];
      CompletePageLast(s.(flight := s.flight[..a.j] + s.flight[a.j + 1..]), op.start, |op.data|);
    }
  }

  lemma {:induction false} RunTracksLast<D(!new)>(s: State<D>, acts: seq<Action<D>>)
    requires Inv(s) && LegalRun(s, acts)
    ensures Exec(s, acts).last == LastWritten(s.last, acts)
    decreases |acts|
  {
    if acts != [] {
      StepKeepsInv(s, acts[0]);
      StepTracksLast(s, acts[0]);
      RunTracksLast(Next(s, acts[0]), acts[1..]);
    }
  }

  lemma {:induction false} NotInFlight<D>(remote: map<nat, D>, flight: seq<Op<D>>, i: nat)
    requires InFlight(flight)[i] == 0
    ensures i in Overlay(remote, flight) <==> i in remote
    ensures i in remote ==> Overlay(remote, flight)[i] == remote[i]
    decreases |flight|
  {
    if flight != [] {
      assert i !in Range(flight[0].start, |flight[0].data|);
      NotInFlight(if flight[0].landed then remote else remote + OpMap(flight[0]), flight[1..], i);
    }
  }

  /** A page without a frame is at the peer, with its presence bit set and its last data. */
  lemma FramelessIsRemote<D>(s: State<D>, i: nat)
    requires Inv(s) && i in s.tree && s.tree[i].page.None?
    ensures i in s.present && i in s.remote && i in s.last && s.remote[i] == s.last[i]
  {
    assert EntryOk(s, Owed(s, {})[i], false, i);
    assert Owed(s, {})[i] == s.queue[i] + InFlight(Pipe(s))[i];
    assert i !in s.queue;
    assert SentOk(s, i);
    NotInFlight(s.remote, Pipe(s), i);
  }

  lemma ReadIsLast<D>(s: State<D>, i: nat)
    requires Inv(s)
    ensures ReadPage(s, i) == if i in s.last then Some(s.last[i]) else None
  {
    if i in s.tree {
      assert EntryOk(s, Owed(s, {})[i], false, i);
      if s.tree[i].page.None? {
        FramelessIsRemote(s, i);
      }
    }
  }

  /** Read-after-write: after any run, a read of any page returns the last data written to it,
      from the local frame or from the peer; a page never written returns nothing. */
  lemma ReadAfterWrite<D(!new)>(s: State<D>, acts: seq<Action<D>>, i: nat)
    requires Init(s) && LegalRun(s, acts)
    ensures ReadPage(Exec(s, acts), i) ==
            var m := LastWritten(map[], acts); if i in m then Some(m[i]) else None
  {
    InitHasInv(s);
    RunKeepsInv(s, acts);
    RunTracksLast(s, acts);
    ReadIsLast(Exec(s, acts), i);
  }

  // ----- Reference counts and reclaim -----

  /** Sends of page `i` that are queued, held, copied or in flight. */
  ghost function Outstanding<D>(s: State<D>, i: nat): (n: nat) {
    s.queue[i] + InFlight(Pipe(s))[i]
  }

  /** Once the first write of a page has completed its count is exact and UPDATING says
      whether anything is outstanding. */
  lemma CountsAreExact<D(!new)>(s: State<D>, acts: seq<Action<D>>, i: nat)
    requires Init(s) && LegalRun(s, acts) && i in Exec(s, acts).present
    ensures var r := Exec(s, acts);
            i in r.tree && r.tree[i].refCount == Outstanding(r, i) && (r.tree[i].updating <==> Outstanding(r, i) > 0)
  {
    InitHasInv(s);
    RunKeepsInv(s, acts);
    var r := Exec(s, acts);
    assert EntryOk(r, Owed(r, {})[i], false, i);
  }

  /** Reclaim takes a frame only from a page with no outstanding send, already at the peer. */
  lemma ReclaimIsSafe<D(!new)>(s: State<D>, acts: seq<Action<D>>)
    requires Init(s) && LegalRun(s, acts)
    requires Exec(s, acts).reclaim != [] && ReclaimHead(Exec(s, acts)).1.Some?
    ensures var r := Exec(s, acts); var i := r.reclaim[0];
            Outstanding(r, i) == 0 && i in r.present && i in r.remote && i in r.last && r.remote[i] == r.last[i]
  {
    InitHasInv(s);
    RunKeepsInv(s, acts);
    var r := Exec(s, acts);
    var i := r.reclaim[0];
    assert i in r.reclaim && EntryOk(r, Owed(r, {})[i], false, i);
    ReclaimHeadKeeps(r, {}, {});
    NothingOwedIsRemote(r, i);
  }

  lemma NothingOwedIsRemote<D>(s: State<D>, i: nat)
    requires Inv(s) && i in s.tree && Owed(s, {})[i] == 0
    ensures Outstanding(s, i) == 0 && i in s.remote && i in s.last && s.remote[i] == s.last[i]
  {
    assert Owed(s, {})[i] == s.queue[i] + InFlight(Pipe(s))[i];
    assert i !in s.queue;
    assert SentOk(s, i);
    NotInFlight(s.remote, Pipe(s), i);
  }

  /** An entry is on the reclaim list at most once, marked, with a frame; so the list is no
      longer than the pool and a completion always finds room on it. */
  lemma ReclaimListBounded<D(!new)>(s: State<D>, acts: seq<Action<D>>)
    requires Init(s) && LegalRun(s, acts)
    ensures var r := Exec(s, acts);
            && Distinct(r.reclaim) && |r.reclaim| <= r.capNr <= CONFIGURED_QUEUE_SIZE
            && (forall i :: i in r.reclaim ==> i in r.tree && r.tree[i].reclaimable && r.tree[i].page.Some?)
            && (forall i :: i in r.tree && r.tree[i].page.Some? && !r.tree[i].reclaimable ==>
                  |r.reclaim| < CONFIGURED_QUEUE_SIZE)
  {
    InitHasInv(s);
    RunKeepsInv(s, acts);
    var r := Exec(s, acts);
    forall i | i in r.reclaim
      ensures i in r.tree && r.tree[i].page.Some?
    {
      ListedHaveFrames(r, {}, i);
    }
    ListBounded(r, r.reclaim);
    forall i | i in r.tree && r.tree[i].page.Some? && !r.tree[i].reclaimable
      ensures |r.reclaim| < CONFIGURED_QUEUE_SIZE
    {
      ListHasRoom(r, {}, i);
    }
  }

  /** With the configured pool the reclaim list stays within the span its ring can hold
      without two positions sharing a slot. */
  lemma ReclaimListFitsRing<D(!new)>(s: State<D>, acts: seq<Action<D>>)
    requires Init(s) && LegalRun(s, acts) && Exec(s, acts).capNr == POOL_PAGES
    ensures |Exec(s, acts).reclaim| <= Window(CONFIGURED_QUEUE_SIZE)
    ensures CollisionFree(CONFIGURED_QUEUE_SIZE, |Exec(s, acts).reclaim|)
  {
    ReclaimListBounded(s, acts);
    ConfiguredQueueWindow();
  }

  lemma {:induction false} FillRunQueue<D>(s: State<D>, start: nat, data: seq<D>)
    ensures |FillRun(s, start, data).queue| <= |s.queue| + |data|
    decreases |data|
  {
    if data != [] {
      FillRunQueue(FillPage(s, start, data[0]), start + 1, data[1..]);
    }
  }

  lemma {:induction false} CompleteRunQueue<D>(s: State<D>, start: nat, n: nat)
    ensures CompleteRun(s, start, n).queue == s.queue
    decreases n
  {
    if n > 0 {
      CompleteRunQueue(s, start, n - 1);
    }
  }

  lemma WriteQueue<D(!new)>(s: State<D>, start: nat, data: seq<D>)
    requires Inv(s) && WriteRun(s, start, data).Some? && FirstWriteDone(s, Write(start, data))
    ensures |WriteRun(s, start, data).value.queue| <= |s.queue| + |data|
  {
    FirstWriteKeys(s, start, data);
    InsertRunKeeps(s, start, |data|);
    FillRunQueue(InsertRun(s, start, |data|).value, start, data);
  }

  lemma OtherStepsKeepQueue<D>(s: State<D>, a: Action<D>)
    requires Enabled(s, a) && !a.Write?
    ensures |Next(s, a).queue| <= |s.queue|
  {
    if a.Complete? {
      var op := s.flight[a.j];
      CompleteRunQueue(s.(flight := s.flight[..a.j] + s.flight[a.j + 1..]), op.start, |op.data|);
    }
  }

  lemma {:induction false} RunQueue<D(!new)>(s: State<D>, acts: seq<Action<D>>)
    requires Inv(s) && LegalRun(s, acts) && |s.queue| <= Window(CONFIGURED_QUEUE_SIZE)
    ensures |Exec(s, acts).queue| <= Window(CONFIGURED_QUEUE_SIZE)
    decreases |acts|
  {
    if acts != [] {
      var a := acts[0];
      if a.Write? {
        WriteQueue(s, a.start, a.data);
      } else {
        OtherStepsKeepQueue(s, a);
      }
      StepKeepsInv(s, a);
      RunQueue(Next(s, a), acts[1..]);
    }
  }

  /** Under the bound on the sending list, no two of its entries ever share a slot of its ring. */
  lemma SendingListFitsRing<D(!new)>(s: State<D>, acts: seq<Action<D>>)
    requires Init(s) && LegalRun(s, acts)
    ensures CollisionFree(CONFIGURED_QUEUE_SIZE, |Exec(s, acts).queue|)
  {
    InitHasInv(s);
    RunQueue(s, acts);
    AliasBound(CONFIGURED_QUEUE_SIZE, |Exec(s, acts).queue|);
  }

  // ----- Page ownership -----

  ghost function Holders<D>(s: State<D>): (r: set<nat>) {
    set i | i in s.tree && s.tree[i].page.Some?
  }

  ghost function FrameAt<D>(s: State<D>, i: nat): (p: nat)
    requires i in Holders(s)
  {
    s.tree[i].page.value
  }

  ghost function HeldFrames<D>(s: State<D>, h: set<nat>): (r: set<nat>)
    requires h <= Holders(s)
  {
    set i | i in h :: FrameAt(s, i)
  }

  lemma {:induction false} HeldFramesCount<D>(s: State<D>, h: set<nat>)
    requires Frames(s, {}) && h <= Holders(s)
    ensures |HeldFrames(s, h)| == |h|
    decreases |h|
  {
    if h != {} {
      var i :| i in h;
      var rest := h - {i};
      HeldFramesCount(s, rest);
      assert HeldFrames(s, h) == HeldFrames(s, rest) + {FrameAt(s, i)};
      forall j | j in rest
        ensures FrameAt(s, j) != FrameAt(s, i)
      {
        assert Holds(s, j, FrameAt(s, j)) && Holds(s, i, FrameAt(s, i));
      }
    }
  }

  /** Every frame is either free or held by exactly one entry, none is lost, and the two
      counters add up: `curr_nr + used_nr == cap_nr`, with `used_nr` the number of holders. */
  lemma FramesAreConserved<D(!new)>(s: State<D>, acts: seq<Action<D>>)
    requires Init(s) && LegalRun(s, acts)
    ensures var r := Exec(s, acts);
            && Distinct(r.elements)
            && (forall i, p :: Holds(r, i, p) ==> p !in r.elements)
            && (forall i, j, p :: Holds(r, i, p) && Holds(r, j, p) ==> i == j)
            && Elems(r.elements) + HeldFrames(r, Holders(r)) == r.mem.Keys
            && |r.elements| + r.usedNr == r.capNr == |r.mem.Keys|
            && r.usedNr == |Holders(r)|
  {
    InitHasInv(s);
    RunKeepsInv(s, acts);
    var r := Exec(s, acts);
    FrameSets(r);
    HeldFramesCount(r, Holders(r));
    DistinctSize(r.elements);
  }

  lemma FrameSets<D>(s: State<D>)
    requires Frames(s, {})
    ensures Elems(s.elements) + HeldFrames(s, Holders(s)) == s.mem.Keys
    ensures Elems(s.elements) !! HeldFrames(s, Holders(s))
  {
    var held := HeldFrames(s, Holders(s));
    forall p | p in held
      ensures p in s.mem && p !in s.elements
    {
      var i :| i in Holders(s) && FrameAt(s, i) == p;
      assert Holds(s, i, p);
    }
    forall p | p in s.mem && p !in s.elements
      ensures p in held
    {
      var i :| Holds(s, i, p);
      assert i in Holders(s) && FrameAt(s, i) == p;
    }
  }

  // ----- Why the first write must complete first -----

  lemma RewriteOne<D>(s: State<D>, i: nat, d: D)
    requires i in s.tree && s.tree[i].page.Some?
    ensures WriteRun(s, i, [d]) == Some(FillPage(InsertPage(s, i).value, i, d))
  {
    var t := InsertPage(s, i).value;
    assert InsertRun(s, i, 1) == InsertRun(t, i + 1, 0);
    assert [d][1..] == [];
    assert FillRun(t, i, [d]) == FillRun(FillPage(t, i, d), i + 1, []);
  }

  /** A page is rewritten while an earlier send of it is outstanding, and that send completes.
      The entry is still protected from reclaim, as it must be with the new send outstanding,
      exactly when its first write had completed before the rewrite. */
  lemma RewriteProtectedIff<D>(s: State<D>, i: nat, d: D)
    requires Inv(s) && i in s.tree && Outstanding(s, i) > 0
    ensures WriteRun(s, i, [d]).Some? && i in CompletePage(WriteRun(s, i, [d]).value, i).tree
    ensures CompletePage(WriteRun(s, i, [d]).value, i).tree[i].updating <==> i in s.present
  {
    assert EntryOk(s, Owed(s, {})[i], false, i);
    assert Owed(s, {})[i] == Outstanding(s, i);
    RewriteOne(s, i, d);
  }

  // ----- Runs that lose data, from a pool of one frame -----

  datatype Hypothesis = FirstWriteFirst | PostOrder | Nothing

  /** Every hypothesis of a legal run but one. */
  ghost predicate AllBut<D>(h: Hypothesis, s: State<D>, a: Action<D>) {
    SendingFits(s, a) && (h.FirstWriteFirst? || FirstWriteDone(s, a)) && (h.PostOrder? || PostHarmless(s, a))
  }

  ghost predicate Run(h: Hypothesis, s: State<int>, acts: seq<Action<int>>, t: State<int>)
    decreases |acts|
  {
    if acts == [] then s == t
    else Enabled(s, acts[0]) && AllBut(h, s, acts[0]) && Run(h, Next(s, acts[0]), acts[1..], t)
  }

  const S0: State<int> := State(map[], map[0 := 0], [0], 0, 1, [], multiset{}, [], [], map[], {}, map[])

  /** The states in `reach` include the empty table and whatever one of the code's steps leads to,
      with all hypotheses but `h`. */
  ghost predicate Closed(h: Hypothesis, reach: State<int> -> bool) {
    && reach(S0)
    && forall s, a :: reach(s) && Enabled(s, a) && AllBut(h, s, a) ==> reach(Next(s, a))
  }

  lemma {:induction false} RunSnoc(h: Hypothesis, s: State<int>, acts: seq<Action<int>>, t: State<int>,
                                   a: Action<int>)
    requires Run(h, s, acts, t) && Enabled(t, a) && AllBut(h, t, a)
    ensures Run(h, s, acts + [a], Next(t, a))
    decreases |acts|
  {
    if acts == [] {
      assert Run(h, Next(t, a), [], Next(t, a));
    } else {
      RunSnoc(h, Next(s, acts[0]), acts[1..], t, a);
      assert (acts + [a])[1..] == acts[1..] + [a];
    }
  }

  /** The states that runs lead to. */
  ghost function Reached(h: Hypothesis): (reach: State<int> -> bool)
    ensures Closed(h, reach)
  {
    assert Run(h, S0, [], S0);
    var reach := (t: State<int>) => exists acts :: Run(h, S0, acts, t);
    assert forall s, a :: reach(s) && Enabled(s, a) && AllBut(h, s, a) ==> reach(Next(s, a)) by {
      forall s, a | reach(s) && Enabled(s, a) && AllBut(h, s, a)
        ensures reach(Next(s, a))
      {
        var acts :| Run(h, S0, acts, s);
        RunSnoc(h, S0, acts, s, a);
      }
    }
    reach
  }

  /** Page 0 is the only page in the table and has the only frame. */
  function One(e: Entry, d: int, queue: multiset<nat>, copied: seq<Op<int>>, flight: seq<Op<int>>,
               remote: map<nat, int>, present: set<nat>, reclaim: seq<nat>): (s: State<int>) {
    State(map[0 := e], map[0 := d], [], 1, 1, reclaim, queue, copied, flight, remote, present, map[0 := d])
  }

  function E(updating: bool, reclaimable: bool, refCount: int): Entry {
    Entry(Some(0), updating, reclaimable, refCount)
  }

  function Buffer(d: int): Op<int> {
    Op(0, [d], false)
  }

  lemma WriteFits(s: State<int>, start: nat, d: int)
    requires |s.queue| <= 2
    ensures SendingFits(s, Write(start, [d]))
  {
    ConfiguredQueueWindow();
  }

  /** The first write of page 0. */
  lemma FirstWrite(h: Hypothesis, reach: State<int> -> bool, d: int)
    requires Closed(h, reach)
    ensures reach(One(E(false, false, 0), d, multiset{0}, [], [], map[], {}, []))
  {
    var t := S0.(tree := map[0 := E(false, false, 0)], elements := [], usedNr := 1);
    var r := One(E(false, false, 0), d, multiset{0}, [], [], map[], {}, []);
    assert S0.elements[..0] == [];
    assert InsertPage(S0, 0) == Some(t);
    assert InsertRun(S0, 0, 1) == InsertRun(t, 1, 0);
    assert [d][1..] == [];
    assert FillPage(t, 0, d) == r;
    assert FillRun(t, 0, [d]) == FillRun(r, 1, []);
    WriteFits(S0, 0, d);
    assert Enabled(S0, Write(0, [d]));
  }

  lemma RewriteResult(e: Entry, d: int, q: multiset<nat>, c: seq<Op<int>>, f: seq<Op<int>>, r: map<nat, int>,
                      p: set<nat>, rc: seq<nat>, d': int)
    requires e.page == Some(0)
    ensures WriteRun(One(e, d, q, c, f, r, p, rc), 0, [d'])
            == Some(One(e.(updating := true, refCount := e.refCount + 1), d', q + multiset{0}, c, f, r, p, rc))
  {
    var s := One(e, d, q, c, f, r, p, rc);
    RewriteOne(s, 0, d');
    assert s.tree[0 := e.(updating := true, refCount := e.refCount + 1)]
           == map[0 := e.(updating := true, refCount := e.refCount + 1)];
    assert s.mem[0 := d'] == map[0 := d'] && s.last[0 := d'] == map[0 := d'];
  }

  /** Page 0 is rewritten. */
  lemma Rewrites(h: Hypothesis, reach: State<int> -> bool, e: Entry, d: int, q: multiset<nat>,
                 c: seq<Op<int>>, r: map<nat, int>, p: set<nat>, rc: seq<nat>, d': int, t: State<int>)
    requires Closed(h, reach) && reach(One(e, d, q, c, [], r, p, rc))
    requires e.page == Some(0) && |q| <= 2 && (h.FirstWriteFirst? || 0 in p)
    requires t == One(e.(updating := true, refCount := e.refCount + 1), d', q + multiset{0}, c, [], r, p, rc)
    ensures reach(t)
  {
    WriteFits(One(e, d, q, c, [], r, p, rc), 0, d');
    RewriteResult(e, d, q, c, [], r, p, rc, d');
    assert Enabled(One(e, d, q, c, [], r, p, rc), Write(0, [d']));
  }

  lemma CopyResult(s: State<int>, d: int, stale: int)
    requires PageData(s, 0, stale) == d
    ensures multiset(Range(0, 1)) == multiset{0}
    ensures CopyRun(s, 0, 1, stale) == s.(queue := s.queue - multiset{0}, copied := s.copied + [Buffer(d)])
  {
    assert Range(0, 0) == {} && Range(0, 1) == {0};
    assert multiset(Range(0, 1)) == multiset{0};
    assert Snapshot(s, 0, 1, stale).data == [d];
  }

  /** Page 0 is copied by a sender. */
  lemma Copies(h: Hypothesis, reach: State<int> -> bool, s: State<int>, d: int, stale: int, t: State<int>)
    requires Closed(h, reach) && reach(s) && 0 in s.queue && PageData(s, 0, stale) == d
    requires t == s.(queue := s.queue - multiset{0}, copied := s.copied + [Buffer(d)])
    ensures reach(t)
  {
    CopyResult(s, d, stale);
    assert Enabled(s, Copy(0, 1, stale));
  }

  /** A buffer is posted. */
  lemma Posts(h: Hypothesis, reach: State<int> -> bool, s: State<int>, j: nat, t: State<int>)
    requires Closed(h, reach) && reach(s) && j < |s.copied| && (h.PostOrder? || |s.copied| == 1) && t == PostOp(s, j)
    ensures reach(t)
  {
    assert s.copied[..0] == [];
    assert Enabled(s, Post(j));
  }

  lemma LandResult(s: State<int>, j: nat, d: int)
    requires j < |s.flight| && s.flight[j] == Buffer(d)
    ensures LandOp(s, j) == s.(remote := s.remote[0 := d], flight := s.flight[j := Op(0, [d], true)])
  {
    assert s.remote + OpMap(Buffer(d)) == s.remote[0 := d];
  }

  /** A posted write reaches the peer. */
  lemma Lands(h: Hypothesis, reach: State<int> -> bool, s: State<int>, j: nat, d: int, t: State<int>)
    requires Closed(h, reach) && reach(s) && j < |s.flight| && s.flight[j] == Buffer(d)
    requires forall i :: 0 <= i < j ==> s.flight[i].landed
    requires t == s.(remote := s.remote[0 := d], flight := s.flight[j := Op(0, [d], true)])
    ensures reach(t)
  {
    LandResult(s, j, d);
    assert Enabled(s, Land(j));
  }

  /** The first posted write completes. */
  lemma Completes(h: Hypothesis, reach: State<int> -> bool, s: State<int>, d: int, t: State<int>)
    requires Closed(h, reach) && reach(s) && s.flight != [] && s.flight[0] == Op(0, [d], true)
    requires t == CompletePage(s.(flight := s.flight[1..]), 0)
    ensures reach(t)
  {
    var u := s.(flight := s.flight[1..]);
    assert s.flight[..0] + s.flight[1..] == s.flight[1..];
    assert CompleteRun(u, 0, 1) == CompletePage(CompleteRun(u, 0, 0), 0);
    assert Enabled(s, Complete(0));
  }

  /** Page 1 has taken the frame of page 0. */
  function Two(d: int, x: int, queue: multiset<nat>, remote: map<nat, int>): (s: State<int>) {
    State(map[0 := Entry(None, false, false, 0), 1 := E(false, false, 0)], map[0 := x], [], 1, 1, [], queue, [], [],
          remote, {0}, map[0 := d, 1 := x])
  }

  lemma TakeOverResult(d: int, q: multiset<nat>, r: map<nat, int>, x: int)
    ensures WriteRun(One(E(false, true, 0), d, q, [], [], r, {0}, [0]), 1, [x]) == Some(Two(d, x, q + multiset{1}, r))
  {
    var s, end := One(E(false, true, 0), d, q, [], [], r, {0}, [0]), Two(d, x, q + multiset{1}, r);
    var u := s.(tree := s.tree[0 := Entry(None, false, false, 0)], reclaim := []);
    assert s.reclaim[1..] == [];
    assert ReclaimHead(s) == (u, Some(0));
    var t := u.(tree := u.tree[1 := E(false, false, 0)]);
    assert InsertPage(s, 1) == Some(t);
    assert InsertRun(s, 1, 1) == InsertRun(t, 2, 0);
    assert [x][1..] == [];
    assert t.tree == end.tree && t.mem[0 := x] == end.mem && t.last[1 := x] == end.last;
    assert FillPage(t, 1, x) == end;
    assert FillRun(t, 1, [x]) == FillRun(end, 2, []);
  }

  lemma TakesOver(h: Hypothesis, reach: State<int> -> bool, d: int, q: multiset<nat>, r: map<nat, int>, x: int)
    requires Closed(h, reach) && reach(One(E(false, true, 0), d, q, [], [], r, {0}, [0])) && |q| <= 2
    ensures reach(Two(d, x, q + multiset{1}, r))
  {
    WriteFits(One(E(false, true, 0), d, q, [], [], r, {0}, [0]), 1, x);
    TakeOverResult(d, q, r, x);
    assert Enabled(One(E(false, true, 0), d, q, [], [], r, {0}, [0]), Write(1, [x]));
  }

  /** Page 0 is written with 1 and, before that send completes, with 2. */
  lemma WrittenTwice(reach: State<int> -> bool)
    requires Closed(FirstWriteFirst, reach)
    ensures reach(One(E(true, false, 1), 2, multiset{0}, [Buffer(2)], [], map[], {}, []))
  {
    var s2 := One(E(true, false, 1), 2, multiset{0, 0}, [], [], map[], {}, []);
    var s3 := One(E(true, false, 1), 2, multiset{0}, [Buffer(2)], [], map[], {}, []);
    FirstWrite(FirstWriteFirst, reach, 1);
    Rewrites(FirstWriteFirst, reach, E(false, false, 0), 1, multiset{0}, [], map[], {}, [], 2, s2);
    assert multiset{0, 0} - multiset{0} == multiset{0};
    Copies(FirstWriteFirst, reach, s2, 2, 0, s3);
  }

  /** The first completion then clears UPDATING although the second send is still queued, ... */
  lemma EarlyRewrite(reach: State<int> -> bool)
    requires Closed(FirstWriteFirst, reach)
    ensures reach(One(E(false, true, 0), 2, multiset{0}, [], [], map[0 := 2], {0}, [0]))
  {
    var e := E(true, false, 1);
    var s3 := One(e, 2, multiset{0}, [Buffer(2)], [], map[], {}, []);
    var s4 := One(e, 2, multiset{0}, [], [Buffer(2)], map[], {}, []);
    var s5 := One(e, 2, multiset{0}, [], [Op(0, [2], true)], map[0 := 2], {}, []);
    var s6 := One(E(false, true, 0), 2, multiset{0}, [], [], map[0 := 2], {0}, [0]);
    WrittenTwice(reach);
    Posts(FirstWriteFirst, reach, s3, 0, s4);
    Lands(FirstWriteFirst, reach, s4, 0, 2, s5);
    Completes(FirstWriteFirst, reach, s5, 2, s6);
  }

  /** ... so writing page 1 reclaims the frame of page 0; the second send finds no frame and ships
      stale bytes. */
  lemma StaleSent(reach: State<int> -> bool)
    requires Closed(FirstWriteFirst, reach)
    ensures reach(Two(2, 3, multiset{1}, map[0 := 2]).(remote := map[0 := 99], flight := [Op(0, [99], true)]))
  {
    EarlyRewrite(reach);
    TakesOver(FirstWriteFirst, reach, 2, multiset{0}, map[0 := 2], 3);
    var s7 := Two(2, 3, multiset{0} + multiset{1}, map[0 := 2]);
    var s := Two(2, 3, multiset{1}, map[0 := 2]);
    assert s7.queue - multiset{0} == multiset{1};
    Copies(FirstWriteFirst, reach, s7, 99, 99, s.(copied := [Buffer(99)]));
    Posts(FirstWriteFirst, reach, s.(copied := [Buffer(99)]), 0, s.(flight := [Buffer(99)]));
    Lands(FirstWriteFirst, reach, s.(flight := [Buffer(99)]), 0, 99,
          s.(remote := map[0 := 99], flight := [Op(0, [99], true)]));
  }

  /** Without the first-write hypothesis a read returns neither 1 nor 2. */
  lemma LostUpdate() returns (acts: seq<Action<int>>, end: State<int>)
    ensures Init(S0) && Run(FirstWriteFirst, S0, acts, end)
    ensures 0 in end.last && end.last[0] == 2 && ReadPage(end, 0) == Some(99)
    ensures !FirstWriteDone(One(E(false, false, 0), 1, multiset{0}, [], [], map[], {}, []), Write(0, [2]))
  {
    RewrittenTooEarly();
    end := Two(2, 3, multiset{1}, map[0 := 2]).(remote := map[0 := 99], flight := [Op(0, [99], true)]);
    StaleSent(Reached(FirstWriteFirst));
    acts :| Run(FirstWriteFirst, S0, acts, end);
  }

  lemma RewrittenTooEarly()
    ensures !FirstWriteDone(One(E(false, false, 0), 1, multiset{0}, [], [], map[], {}, []), Write(0, [2]))
  {
    var s, a := One(E(false, false, 0), 1, multiset{0}, [], [], map[], {}, []), Write(0, [2]);
    assert a.start <= 0 < a.start + |a.data| && 0 in s.tree && 0 !in s.present;
  }

  /** The first write of page 0 completes, as the first-write hypothesis wants. */
  lemma FirstWriteCompletes(h: Hypothesis, reach: State<int> -> bool)
    requires Closed(h, reach)
    ensures reach(One(E(false, true, 0), 1, multiset{}, [], [], map[0 := 1], {0}, [0]))
  {
    var e, q: multiset<nat> := E(false, false, 0), multiset{};
    var s1 := One(e, 1, multiset{0}, [], [], map[], {}, []);
    var s2 := One(e, 1, q, [Buffer(1)], [], map[], {}, []);
    var s3 := One(e, 1, q, [], [Buffer(1)], map[], {}, []);
    var s4 := One(e, 1, q, [], [Op(0, [1], true)], map[0 := 1], {}, []);
    FirstWrite(h, reach, 1);
    assert multiset{0} - multiset{0} == q;
    Copies(h, reach, s1, 1, 0, s2);
    Posts(h, reach, s2, 0, s3);
    Lands(h, reach, s3, 0, 1, s4);
    Completes(h, reach, s4, 1, One(E(false, true, 0), 1, q, [], [], map[0 := 1], {0}, [0]));
  }

  /** The page is rewritten with 2 and one sender copies it; before it posts, the page is rewritten
      with 3 and another sender copies that. */
  lemma TwoSenders(reach: State<int> -> bool)
    requires Closed(PostOrder, reach)
    ensures reach(One(E(true, true, 2), 3, multiset{}, [Buffer(2), Buffer(3)], [], map[0 := 1], {0}, [0]))
  {
    var r: map<nat, int>, none: multiset<nat> := map[0 := 1], multiset{};
    var s1 := One(E(true, true, 1), 2, multiset{0}, [], [], r, {0}, [0]);
    var s2 := One(E(true, true, 1), 2, none, [Buffer(2)], [], r, {0}, [0]);
    var s3 := One(E(true, true, 2), 3, multiset{0}, [Buffer(2)], [], r, {0}, [0]);
    var s4 := One(E(true, true, 2), 3, none, [Buffer(2), Buffer(3)], [], r, {0}, [0]);
    assert none + multiset{0} == multiset{0} && multiset{0} - multiset{0} == none;
    FirstWriteCompletes(PostOrder, reach);
    Rewrites(PostOrder, reach, E(false, true, 0), 1, none, [], r, {0}, [0], 2, s1);
    Copies(PostOrder, reach, s1, 2, 0, s2);
    Rewrites(PostOrder, reach, E(true, true, 1), 2, none, [Buffer(2)], r, {0}, [0], 3, s3);
    Copies(PostOrder, reach, s3, 3, 0, s4);
  }

  /** The second sender posts first, so the peer ends up with 2, ... */
  lemma PostedOutOfOrder(reach: State<int> -> bool)
    requires Closed(PostOrder, reach)
    ensures reach(One(E(true, true, 2), 3, multiset{}, [], [Op(0, [3], true), Op(0, [2], true)], map[0 := 2], {0}, [0]))
  {
    var e, q: multiset<nat> := E(true, true, 2), multiset{};
    var s4 := One(e, 3, q, [Buffer(2), Buffer(3)], [], map[0 := 1], {0}, [0]);
    var s5 := One(e, 3, q, [Buffer(2)], [Buffer(3)], map[0 := 1], {0}, [0]);
    var s6 := One(e, 3, q, [], [Buffer(3), Buffer(2)], map[0 := 1], {0}, [0]);
    var s7 := One(e, 3, q, [], [Op(0, [3], true), Buffer(2)], map[0 := 3], {0}, [0]);
    var s8 := One(e, 3, q, [], [Op(0, [3], true), Op(0, [2], true)], map[0 := 2], {0}, [0]);
    TwoSenders(reach);
    Posts(PostOrder, reach, s4, 1, s5);
    Posts(PostOrder, reach, s5, 0, s6);
    Lands(PostOrder, reach, s6, 0, 3, s7);
    Lands(PostOrder, reach, s7, 1, 2, s8);
  }

  /** ... both complete, ... */
  lemma CompletedOutOfOrder(reach: State<int> -> bool)
    requires Closed(PostOrder, reach)
    ensures reach(One(E(false, true, 0), 3, multiset{}, [], [], map[0 := 2], {0}, [0]))
  {
    var q: multiset<nat>, l2 := multiset{}, Op(0, [2], true);
    var s8 := One(E(true, true, 2), 3, q, [], [Op(0, [3], true), l2], map[0 := 2], {0}, [0]);
    var s9 := One(E(true, true, 1), 3, q, [], [l2], map[0 := 2], {0}, [0]);
    PostedOutOfOrder(reach);
    Completes(PostOrder, reach, s8, 3, s9);
    Completes(PostOrder, reach, s9, 2, One(E(false, true, 0), 3, q, [], [], map[0 := 2], {0}, [0]));
  }

  /** ... and once the frame is reclaimed a read returns 2 although 3 was written last and every
      send had completed. Without the post-order hypothesis an update is lost. */
  lemma LostByPostOrder() returns (acts: seq<Action<int>>, end: State<int>)
    ensures Init(S0) && Run(PostOrder, S0, acts, end) && end.copied == end.flight == []
    ensures 0 in end.last && end.last[0] == 3 && ReadPage(end, 0) == Some(2)
    ensures !PostHarmless(One(E(true, true, 2), 3, multiset{}, [Buffer(2), Buffer(3)], [], map[0 := 1], {0}, [0]),
                          Post(1))
  {
    OvertakingHarms();
    CompletedOutOfOrder(Reached(PostOrder));
    TakesOver(PostOrder, Reached(PostOrder), 3, multiset{}, map[0 := 2], 9);
    end := Two(3, 9, multiset{} + multiset{1}, map[0 := 2]);
    acts :| Run(PostOrder, S0, acts, end);
  }

  lemma OvertakingHarms()
    ensures !PostHarmless(One(E(true, true, 2), 3, multiset{}, [Buffer(2), Buffer(3)], [], map[0 := 1], {0}, [0]),
                          Post(1))
  {
    var s := One(E(true, true, 2), 3, multiset{}, [Buffer(2), Buffer(3)], [], map[0 := 1], {0}, [0]);
    assert s.copied[..1] == [Buffer(2)] && s.copied[2..] == [];
    MergedOne(Buffer(2));
    assert OpMap(Buffer(2))[0] == 2 && OpMap(Buffer(3))[0] == 3;
    assert 0 !in s.queue && !PostSafeAt(s, 1, 0);
  }
}
