/** Why a call must carry at least one element: two concurrent calls on any idle queue, and
    exactly when every schedule of them leaves the queue whole. */
module EmptyCalls {
  import opened Config
  import opened Words
  import opened Claims
  import opened AlfProtocol
  import opened AlfTheorems

  // ----- Schedules -----

  ghost predicate Moves<T>(q: Queue<T>, t: nat, r: Queue<T>) {
    Enabled(q, t) && r == Advance(q, t)
  }

  /** Letting the threads `ts` take one step each, in this order, leads from `q` to `r`. */
  ghost predicate Reaches<T>(q: Queue<T>, ts: seq<nat>, r: Queue<T>)
    decreases |ts|
  {
    if ts == [] then q == r else Enabled(q, ts[0]) && Reaches(Advance(q, ts[0]), ts[1..], r)
  }

  lemma {:induction false} ReachesTrans<T>(q: Queue<T>, ts: seq<nat>, r: Queue<T>, us: seq<nat>, s: Queue<T>)
    requires Reaches(q, ts, r) && Reaches(r, us, s)
    ensures Reaches(q, ts + us, s)
    decreases |ts|
  {
    if ts == [] {
      assert ts + us == us;
    } else {
      ReachesTrans(Advance(q, ts[0]), ts[1..], r, us, s);
      assert (ts + us)[1..] == ts[1..] + us;
    }
  }

  /** One more step at the end. */
  lemma Then<T>(q: Queue<T>, ts: seq<nat>, r: Queue<T>, t: nat, s: Queue<T>) returns (ts': seq<nat>)
    requires Reaches(q, ts, r) && Moves(r, t, s)
    ensures Reaches(q, ts', s)
  {
    assert [t][1..] == [] && Reaches(s, [], s);
    assert Reaches(r, [t], s);
    ReachesTrans(q, ts, r, [t], s);
    ts' := ts + [t];
  }

  ghost predicate AllIdle<T>(q: Queue<T>) {
    forall i :: 0 <= i < |q.threads| ==> q.threads[i].Idle?
  }

  /** With no call in progress nothing is reserved and not published. */
  lemma IdleIsWhole<T>(q: Queue<T>)
    requires Inv(q) && AllIdle(q)
    ensures q.prodTail == q.prodHead && q.consTail == q.consHead
  {
    if q.prodTail.total < q.prodHead.total {
      var t := FirstOwner(ProdClaims(q.threads), q.prodTail.total, q.prodHead.total);
    }
    if q.consTail.total < q.consHead.total {
      var t := FirstOwner(ConsClaims(q.threads), q.consTail.total, q.consHead.total);
    }
  }

  /** The queue `b` with threads `t` and `u` in these phases. */
  function Pair<T>(b: Queue<T>, t: nat, u: nat, p: Phase<T>, p': Phase<T>): (q: Queue<T>)
    requires t < |b.threads| && u < |b.threads| && t != u
    ensures |q.threads| == |b.threads| && q.threads[t] == p && q.threads[u] == p'
  {
    b.(threads := b.threads[t := p][u := p'])
  }

  lemma Entered<T>(b: Queue<T>, t: nat, u: nat, p: Phase<T>, p': Phase<T>, x: Phase<T>)
    requires t < |b.threads| && u < |b.threads| && t != u
    ensures Enter(Pair(b, t, u, p, p'), t, x) == Pair(b, t, u, x, p')
    ensures Enter(Pair(b, t, u, p, p'), u, x) == Pair(b, t, u, p, x)
  {
    assert b.threads[t := p][u := p'][t := x] == b.threads[t := x][u := p'];
    assert b.threads[t := p][u := p'][u := x] == b.threads[t := p][u := x];
  }

  lemma PlusZero(c: Counter)
    requires c.Ok()
    ensures c.Plus(0) == c
  {
  }

  // ----- Two enqueues -----

  /** An idle queue, two threads, and room for both bulks. */
  ghost predicate TwoFit<T>(b: Queue<T>, t: nat, u: nat, n: nat, m: nat) {
    && Inv(b) && AllIdle(b) && t < |b.threads| && u < |b.threads| && t != u
    && b.prodHead.total + n + m <= b.consTail.total + Window(b.size)
  }

  /** An enqueue of nothing reserves nothing, so it reaches its turn at the current head ... */
  lemma EmptyEnqueueWaits<T>(b: Queue<T>, t: nat, u: nat, items: seq<T>) returns (ts: seq<nat>)
    requires TwoFit(b, t, u, 0, |items|)
    ensures Reaches(Pair(b, t, u, EnqStart([]), EnqStart(items)), ts,
                    Pair(b, t, u, Storing([], b.prodHead, 0, true), EnqStart(items)))
  {
    var h, c := b.prodHead, EnqStart(items);
    IdleIsWhole(b);
    PlusZero(h);
    assert b.log + [] == b.log;
    Entered(b, t, u, EnqStart([]), c, EnqHead([], h));
    Entered(b, t, u, EnqHead([], h), c, EnqSpace([], h));
    Entered(b, t, u, EnqSpace([], h), c, Storing([], h, 0, false));
    Entered(b, t, u, Storing([], h, 0, false), c, Storing([], h, 0, true));
    var q0 := Pair(b, t, u, EnqStart([]), c);
    var q1 := Pair(b, t, u, EnqHead([], h), c);
    var q2 := Pair(b, t, u, EnqSpace([], h), c);
    var q3 := Pair(b, t, u, Storing([], h, 0, false), c);
    var q4 := Pair(b, t, u, Storing([], h, 0, true), c);
    assert Reaches(q0, [], q0);
    ts := Then(q0, [], q0, t, q1);
    ts := Then(q0, ts, q1, t, q2);
    ts := Then(q0, ts, q2, t, q3);
    ts := Then(q0, ts, q3, t, q4);
  }

  /** The queue once `items` are reserved and the first of them stored. */
  function Reserved1<T>(b: Queue<T>, items: seq<T>, ring: seq<T>): (q: Queue<T>) {
    b.(prodHead := b.prodHead.Plus(|items|), log := b.log + items, ring := ring)
  }

  /** ... the other call reserves from that same head ... */
  lemma OtherReserves<T>(b: Queue<T>, t: nat, u: nat, wait: Phase<T>, items: seq<T>) returns (ts: seq<nat>)
    requires TwoFit(b, t, u, 0, |items|) && |items| >= 1
    ensures Reaches(Pair(b, t, u, wait, EnqStart(items)), ts,
                    Pair(Reserved1(b, items, b.ring), t, u, wait, Storing(items, b.prodHead, 0, false)))
  {
    var h := b.prodHead;
    Entered(b, t, u, wait, EnqStart(items), EnqHead(items, h));
    Entered(b, t, u, wait, EnqHead(items, h), EnqSpace(items, h));
    Entered(b, t, u, wait, EnqSpace(items, h), Storing(items, h, 0, false));
    SpaceExact(b.size, b.consTail, h);
    var q0 := Pair(b, t, u, wait, EnqStart(items));
    var q1 := Pair(b, t, u, wait, EnqHead(items, h));
    var q2 := Pair(b, t, u, wait, EnqSpace(items, h));
    var q3 := Pair(Reserved1(b, items, b.ring), t, u, wait, Storing(items, h, 0, false));
    assert Reaches(q0, [], q0);
    ts := Then(q0, [], q0, u, q1);
    ts := Then(q0, ts, q1, u, q2);
    ts := Then(q0, ts, q2, u, q3);
  }

  lemma StoreMoves<T>(c: Queue<T>, t: nat, u: nat, wait: Phase<T>, items: seq<T>, h: Counter, d: nat)
    returns (ring: seq<T>)
    requires WellSized(c) && t < |c.threads| && u < |c.threads| && t != u && d < |items|
    ensures |ring| == |c.ring|
    ensures Moves(Pair(c, t, u, wait, Storing(items, h, d, false)), u,
                  Pair(c.(ring := ring), t, u, wait, Storing(items, h, d + 1, false)))
  {
    Entered(c, t, u, wait, Storing(items, h, d, false), Storing(items, h, d + 1, false));
    ring := c.ring[Slot(h.word + d, c.size) := items[d]];
  }

  /** ... stores its elements one by one ... */
  lemma {:induction false} OtherStores<T>(b: Queue<T>, t: nat, u: nat, wait: Phase<T>, items: seq<T>,
                                          h: Counter, d: nat)
    returns (ts: seq<nat>, ring: seq<T>)
    requires WellSized(b) && t < |b.threads| && u < |b.threads| && t != u && d <= |items|
    ensures |ring| == |b.ring|
    ensures Reaches(Pair(b, t, u, wait, Storing(items, h, 0, false)), ts,
                    Pair(b.(ring := ring), t, u, wait, Storing(items, h, d, false)))
    decreases d
  {
    var q0 := Pair(b, t, u, wait, Storing(items, h, 0, false));
    if d == 0 {
      ts, ring := [], b.ring;
    } else {
      ts, ring := OtherStores(b, t, u, wait, items, h, d - 1);
      var c := b.(ring := ring);
      ring := StoreMoves(c, t, u, wait, items, h, d - 1);
      ts := Then(q0, ts, Pair(c, t, u, wait, Storing(items, h, d - 1, false)), u,
                 Pair(b.(ring := ring), t, u, wait, Storing(items, h, d, false)));
    }
  }

  /** ... and publishes; the empty call then writes its old head back to producer.tail. Both
      calls have returned, the elements are reserved and stored, and none of them is visible. */
  lemma EmptyEnqueueHides<T>(b: Queue<T>, t: nat, u: nat, items: seq<T>) returns (ts: seq<nat>, r: Queue<T>)
    requires TwoFit(b, t, u, 0, |items|) && |items| >= 1
    ensures Reaches(Pair(b, t, u, EnqStart([]), EnqStart(items)), ts, r) && AllIdle(r)
    ensures r.prodHead.total == b.prodHead.total + |items| && r.log == b.log + items
    ensures r.prodTail == b.prodTail && r.consHead == b.consHead
  {
    var h, wait, n := b.prodHead, Storing([], b.prodHead, 0, true), |items|;
    var q0 := Pair(b, t, u, EnqStart([]), EnqStart(items));
    IdleIsWhole(b);
    var ts1 := EmptyEnqueueWaits(b, t, u, items);
    var ts2 := OtherReserves(b, t, u, wait, items);
    ReachesTrans(q0, ts1, Pair(b, t, u, wait, EnqStart(items)), ts2,
                 Pair(Reserved1(b, items, b.ring), t, u, wait, Storing(items, h, 0, false)));
    var ts3, ring := OtherStores(Reserved1(b, items, b.ring), t, u, wait, items, h, n);
    var c := Reserved1(b, items, ring);
    ReachesTrans(q0, ts1 + ts2, Pair(Reserved1(b, items, b.ring), t, u, wait, Storing(items, h, 0, false)), ts3,
                 Pair(c, t, u, wait, Storing(items, h, n, false)));
    ts, r := BothPublish(q0, ts1 + ts2 + ts3, b, c, t, u, items);
  }

  lemma BothPublish<T>(q0: Queue<T>, ts0: seq<nat>, b: Queue<T>, c: Queue<T>, t: nat, u: nat, items: seq<T>)
    returns (ts: seq<nat>, r: Queue<T>)
    requires TwoFit(b, t, u, 0, |items|) && c == Reserved1(b, items, c.ring) && |c.ring| == |b.ring|
    requires Reaches(q0, ts0,
                     Pair(c, t, u, Storing([], b.prodHead, 0, true), Storing(items, b.prodHead, |items|, false)))
    ensures Reaches(q0, ts, r) && AllIdle(r)
    ensures r.prodHead.total == b.prodHead.total + |items| && r.log == b.log + items
    ensures r.prodTail == b.prodTail && r.consHead == b.consHead
  {
    var h, wait, n := b.prodHead, Storing([], b.prodHead, 0, true), |items|;
    IdleIsWhole(b);
    PlusZero(h);
    Entered(c, t, u, wait, Storing(items, h, n, false), Storing(items, h, n, true));
    Entered(c, t, u, wait, Storing(items, h, n, true), Idle);
    var d := c.(prodTail := h.Plus(n));
    Entered(d, t, u, wait, Idle, Idle);
    var q8, q9 := Pair(c, t, u, wait, Storing(items, h, n, false)), Pair(c, t, u, wait, Storing(items, h, n, true));
    var q10 := Pair(d, t, u, wait, Idle);
    r := Pair(c, t, u, Idle, Idle);
    ts := Then(q0, ts0, q8, u, q9);
    ts := Then(q0, ts, q9, u, q10);
    ts := Then(q0, ts, q10, t, r);
  }

  /** Elements a call has still to reserve. */
  function ToReserve<T>(p: Phase<T>): (n: nat) {
    match p
    case EnqStart(items) => |items|
    case EnqHead(items, _) => |items|
    case EnqSpace(items, _) => |items|
    case _ => 0
  }

  /** A phase of an enqueue that began when the producer head was at `base`. */
  ghost predicate EnqueuePhase<T>(p: Phase<T>, base: nat) {
    match p
    case Idle => true
    case EnqStart(_) => true
    case EnqHead(_, head) => base <= head.total
    case EnqSpace(_, head) => base <= head.total
    case Storing(_, _, _, _) => true
    case _ => false
  }

  /** Only `t` and `u` are inside a call, and what they have still to reserve fits. */
  ghost predicate Budget<T>(q: Queue<T>, t: nat, u: nat, base: nat, limit: nat)
    requires q.size >= 1
  {
    && t < |q.threads| && u < |q.threads| && t != u
    && (forall i :: 0 <= i < |q.threads| && i != t && i != u ==> q.threads[i].Idle?)
    && EnqueuePhase(q.threads[t], base) && EnqueuePhase(q.threads[u], base)
    && base <= q.prodHead.total && limit == q.consTail.total + Window(q.size) <= base + Window(q.size)
    && q.prodHead.total + ToReserve(q.threads[t]) + ToReserve(q.threads[u]) <= limit
  }

  ghost predicate TwoEnqueues<T>(q: Queue<T>, t: nat, u: nat, base: nat, limit: nat) {
    Inv(q) && Budget(q, t, u, base, limit)
  }

  lemma EnqueueStepLegal<T>(q: Queue<T>, t: nat, u: nat, base: nat, limit: nat, i: nat)
    requires TwoEnqueues(q, t, u, base, limit) && Enabled(q, i)
    ensures Legal(q, Step(i)) && (i == t || i == u)
  {
  }

  /** One step of an enqueue, whatever the others do. */
  lemma EnqueueStep<T>(q: Queue<T>, i: nat, base: nat)
    requires Enabled(q, i) && EnqueuePhase(q.threads[i], base) && base <= q.prodHead.total
    ensures var r := Advance(q, i);
            && r.threads == q.threads[i := r.threads[i]] && EnqueuePhase(r.threads[i], base)
            && r.size == q.size && r.consTail == q.consTail && q.prodHead.total <= r.prodHead.total
            && r.prodHead.total + ToReserve(r.threads[i]) <= q.prodHead.total + ToReserve(q.threads[i])
  {
  }

  lemma EnqueueStepKeeps<T>(q: Queue<T>, t: nat, u: nat, base: nat, limit: nat, i: nat)
    requires TwoEnqueues(q, t, u, base, limit) && Enabled(q, i)
    ensures TwoEnqueues(Advance(q, i), t, u, base, limit)
  {
    EnqueueStepLegal(q, t, u, base, limit, i);
    EnqueueStep(q, i, base);
    StepKeepsInv(q, Step(i));
  }

  lemma {:induction false} EnqueuesEndWhole<T>(q: Queue<T>, t: nat, u: nat, base: nat, limit: nat,
                                               ts: seq<nat>, r: Queue<T>)
    requires TwoEnqueues(q, t, u, base, limit) && Reaches(q, ts, r) && AllIdle(r)
    ensures Inv(r) && r.prodTail == r.prodHead
    decreases |ts|
  {
    if ts == [] {
      IdleIsWhole(q);
    } else {
      EnqueueStepKeeps(q, t, u, base, limit, ts[0]);
      EnqueuesEndWhole(Advance(q, ts[0]), t, u, base, limit, ts[1..], r);
    }
  }

  lemma TwoCallsHaveInv<T>(b: Queue<T>, t: nat, u: nat, p: Phase<T>, p': Phase<T>)
    requires Inv(b) && AllIdle(b) && t < |b.threads| && u < |b.threads| && t != u
    requires PhaseOk(b, p) && PhaseOk(b, p') && (p.EnqStart? || p.DeqStart?) && (p'.EnqStart? || p'.DeqStart?)
    ensures Inv(Pair(b, t, u, p, p'))
  {
    LocalStep(b, t, p);
    LocalStep(Enter(b, t, p), u, p');
  }

  /** Every schedule of the two calls that runs to the end leaves nothing reserved and hidden. */
  ghost predicate EnqueuesSafe<T(!new)>(q: Queue<T>) {
    forall ts: seq<nat>, r: Queue<T> :: Reaches(q, ts, r) && AllIdle(r) ==> r.prodTail == r.prodHead
  }

  /** Two concurrent enqueues on any idle queue with room for both, of any size and at any
      counters: every schedule ends with all reserved elements visible if and only if the first
      carries at least one element, as the second does. */
  lemma EnqueuesSafeIff<T(!new)>(b: Queue<T>, t: nat, u: nat, xs: seq<T>, items: seq<T>)
    requires TwoFit(b, t, u, |xs|, |items|) && |items| >= 1
    ensures EnqueuesSafe(Pair(b, t, u, EnqStart(xs), EnqStart(items))) <==> |xs| >= 1
  {
    var q := Pair(b, t, u, EnqStart(xs), EnqStart(items));
    IdleIsWhole(b);
    if |xs| >= 1 {
      TwoCallsHaveInv(b, t, u, EnqStart(xs), EnqStart(items));
      forall ts: seq<nat>, r: Queue<T> | Reaches(q, ts, r) && AllIdle(r)
        ensures r.prodTail == r.prodHead
      {
        EnqueuesEndWhole(q, t, u, b.prodHead.total, b.consTail.total + Window(b.size), ts, r);
      }
    } else {
      assert xs == [];
      var ts, r := EmptyEnqueueHides(b, t, u, items);
      assert r.prodTail != r.prodHead;
    }
  }

  // ----- Two dequeues -----

  /** An idle queue with something in it, and two threads. */
  ghost predicate TwoTake<T>(b: Queue<T>, t: nat, u: nat) {
    && Inv(b) && AllIdle(b) && t < |b.threads| && u < |b.threads| && t != u
    && b.consHead.total < b.prodTail.total
  }

  /** A dequeue of nothing reserves nothing and reaches its turn at the current head ... */
  lemma EmptyDequeueWaits<T>(b: Queue<T>, t: nat, u: nat, want: nat) returns (ts: seq<nat>)
    requires TwoTake(b, t, u)
    ensures Reaches(Pair(b, t, u, DeqStart(0), DeqStart(want)), ts,
                    Pair(b, t, u, Loading(0, b.consHead, 0, [], true), DeqStart(want)))
  {
    var h, c: Phase<T> := b.consHead, DeqStart(want);
    IdleIsWhole(b);
    PlusZero(h);
    ElemsExact(b.prodTail, h);
    Entered(b, t, u, DeqStart(0), c, DeqHead(0, h));
    Entered(b, t, u, DeqHead(0, h), c, DeqElems(0, h, 0));
    Entered(b, t, u, DeqElems(0, h, 0), c, Loading(0, h, 0, [], false));
    Entered(b, t, u, Loading(0, h, 0, [], false), c, Loading(0, h, 0, [], true));
    var q0 := Pair(b, t, u, DeqStart(0), c);
    var q1 := Pair(b, t, u, DeqHead(0, h), c);
    var q2 := Pair(b, t, u, DeqElems(0, h, 0), c);
    var q3 := Pair(b, t, u, Loading(0, h, 0, [], false), c);
    var q4 := Pair(b, t, u, Loading(0, h, 0, [], true), c);
    assert Reaches(q0, [], q0);
    ts := Then(q0, [], q0, t, q1);
    ts := Then(q0, ts, q1, t, q2);
    ts := Then(q0, ts, q2, t, q3);
    ts := Then(q0, ts, q3, t, q4);
  }

  /** How many elements a dequeue of `want` reserves. */
  function Share<T>(b: Queue<T>, want: nat): (e: nat)
    requires b.consHead.total <= b.prodTail.total
  {
    Min(b.prodTail.total - b.consHead.total, want)
  }

  lemma OtherTakes<T>(b: Queue<T>, t: nat, u: nat, wait: Phase<T>, want: nat) returns (ts: seq<nat>)
    requires TwoTake(b, t, u)
    ensures var e := Share(b, want);
            Reaches(Pair(b, t, u, wait, DeqStart(want)), ts,
                    Pair(b.(consHead := b.consHead.Plus(e)), t, u, wait, Loading(want, b.consHead, e, [], false)))
  {
    var h, e := b.consHead, Share(b, want);
    ElemsExact(b.prodTail, h);
    Entered(b, t, u, wait, DeqStart(want), DeqHead(want, h));
    Entered(b, t, u, wait, DeqHead(want, h), DeqElems(want, h, e));
    Entered(b, t, u, wait, DeqElems(want, h, e), Loading(want, h, e, [], false));
    var q0 := Pair(b, t, u, wait, DeqStart(want));
    var q1 := Pair(b, t, u, wait, DeqHead(want, h));
    var q2 := Pair(b, t, u, wait, DeqElems(want, h, e));
    var q3 := Pair(b.(consHead := h.Plus(e)), t, u, wait, Loading(want, h, e, [], false));
    assert Reaches(q0, [], q0);
    ts := Then(q0, [], q0, u, q1);
    ts := Then(q0, ts, q1, u, q2);
    ts := Then(q0, ts, q2, u, q3);
  }

  lemma {:induction false} OtherLoads<T>(b: Queue<T>, t: nat, u: nat, wait: Phase<T>, want: nat,
                                         h: Counter, e: nat, d: nat)
    returns (ts: seq<nat>, got: seq<T>)
    requires WellSized(b) && t < |b.threads| && u < |b.threads| && t != u && d <= e
    ensures |got| == d
    ensures Reaches(Pair(b, t, u, wait, Loading(want, h, e, [], false)), ts,
                    Pair(b, t, u, wait, Loading(want, h, e, got, false)))
    decreases d
  {
    var q0 := Pair(b, t, u, wait, Loading(want, h, e, [], false));
    if d == 0 {
      ts, got := [], [];
    } else {
      ts, got := OtherLoads(b, t, u, wait, want, h, e, d - 1);
      var more := got + [b.ring[Slot(h.word + |got|, b.size)]];
      Entered(b, t, u, wait, Loading(want, h, e, got, false), Loading(want, h, e, more, false));
      ts := Then(q0, ts, Pair(b, t, u, wait, Loading(want, h, e, got, false)), u,
                 Pair(b, t, u, wait, Loading(want, h, e, more, false)));
      got := more;
    }
  }

  /** ... the other call takes its elements, and the empty one then writes its old head back to
      consumer.tail: both have returned, and the slots just emptied still count as taken. */
  lemma EmptyDequeueKeepsSlots<T>(b: Queue<T>, t: nat, u: nat, want: nat) returns (ts: seq<nat>, r: Queue<T>)
    requires TwoTake(b, t, u) && want >= 1
    ensures Reaches(Pair(b, t, u, DeqStart(0), DeqStart(want)), ts, r) && AllIdle(r)
    ensures r.consHead.total == b.consHead.total + Share(b, want) && r.consTail == b.consTail
  {
    var h, e, wait: Phase<T> := b.consHead, Share(b, want), Loading(0, b.consHead, 0, [], true);
    var q0 := Pair(b, t, u, DeqStart(0), DeqStart(want));
    var ts1 := EmptyDequeueWaits(b, t, u, want);
    var ts2 := OtherTakes(b, t, u, wait, want);
    var c := b.(consHead := h.Plus(e));
    ReachesTrans(q0, ts1, Pair(b, t, u, wait, DeqStart(want)), ts2,
                 Pair(c, t, u, wait, Loading(want, h, e, [], false)));
    var ts3, got := OtherLoads(c, t, u, wait, want, h, e, e);
    ReachesTrans(q0, ts1 + ts2, Pair(c, t, u, wait, Loading(want, h, e, [], false)), ts3,
                 Pair(c, t, u, wait, Loading(want, h, e, got, false)));
    ts, r := BothRelease(q0, ts1 + ts2 + ts3, b, c, t, u, want, got);
  }

  lemma BothRelease<T>(q0: Queue<T>, ts0: seq<nat>, b: Queue<T>, c: Queue<T>, t: nat, u: nat, want: nat, got: seq<T>)
    returns (ts: seq<nat>, r: Queue<T>)
    requires TwoTake(b, t, u) && c == b.(consHead := b.consHead.Plus(|got|))
    requires Reaches(q0, ts0,
                     Pair(c, t, u, Loading(0, b.consHead, 0, [], true), Loading(want, b.consHead, |got|, got, false)))
    ensures Reaches(q0, ts, r) && AllIdle(r)
    ensures r.consHead.total == b.consHead.total + |got| && r.consTail == b.consTail
  {
    var h, wait: Phase<T>, e := b.consHead, Loading(0, b.consHead, 0, [], true), |got|;
    IdleIsWhole(b);
    PlusZero(h);
    Entered(c, t, u, wait, Loading(want, h, e, got, false), Loading(want, h, e, got, true));
    Entered(c, t, u, wait, Loading(want, h, e, got, true), Idle);
    var d := c.(consTail := h.Plus(e), out := b.out + got);
    Entered(d, t, u, wait, Idle, Idle);
    var q8 := Pair(c, t, u, wait, Loading(want, h, e, got, false));
    var q9 := Pair(c, t, u, wait, Loading(want, h, e, got, true));
    var q10 := Pair(d, t, u, wait, Idle);
    assert d.out + [] == d.out;
    r := Pair(d.(consTail := h), t, u, Idle, Idle);
    ts := Then(q0, ts0, q8, u, q9);
    ts := Then(q0, ts, q9, u, q10);
    ts := Then(q0, ts, q10, t, r);
  }

  /** A phase of a dequeue that began when the consumer head was at `base`. */
  ghost predicate DequeuePhase<T>(p: Phase<T>, base: nat) {
    match p
    case Idle => true
    case DeqStart(_) => true
    case DeqHead(_, head) => base <= head.total
    case DeqElems(_, head, _) => base <= head.total
    case Loading(_, _, _, _, _) => true
    case _ => false
  }

  ghost predicate TwoDequeues<T>(q: Queue<T>, t: nat, u: nat, base: nat) {
    && Inv(q) && t < |q.threads| && u < |q.threads| && t != u
    && (forall i :: 0 <= i < |q.threads| && i != t && i != u ==> q.threads[i].Idle?)
    && DequeuePhase(q.threads[t], base) && DequeuePhase(q.threads[u], base)
    && base <= q.consHead.total && q.prodTail.total <= base + Window(q.size)
  }

  lemma DequeueStep<T>(q: Queue<T>, i: nat, base: nat)
    requires Enabled(q, i) && DequeuePhase(q.threads[i], base) && base <= q.consHead.total
    ensures var r := Advance(q, i);
            && r.threads == q.threads[i := r.threads[i]] && DequeuePhase(r.threads[i], base)
            && r.size == q.size && r.prodTail == q.prodTail && q.consHead.total <= r.consHead.total
  {
  }

  lemma DequeueStepKeeps<T>(q: Queue<T>, t: nat, u: nat, base: nat, i: nat)
    requires TwoDequeues(q, t, u, base) && Enabled(q, i)
    ensures TwoDequeues(Advance(q, i), t, u, base)
  {
    DequeueStep(q, i, base);
    assert Legal(q, Step(i));
    StepKeepsInv(q, Step(i));
  }

  lemma {:induction false} DequeuesEndWhole<T>(q: Queue<T>, t: nat, u: nat, base: nat, ts: seq<nat>, r: Queue<T>)
    requires TwoDequeues(q, t, u, base) && Reaches(q, ts, r) && AllIdle(r)
    ensures Inv(r) && r.consTail == r.consHead
    decreases |ts|
  {
    if ts == [] {
      IdleIsWhole(q);
    } else {
      DequeueStepKeeps(q, t, u, base, ts[0]);
      DequeuesEndWhole(Advance(q, ts[0]), t, u, base, ts[1..], r);
    }
  }

  /** Every schedule of the two calls that runs to the end gives all taken slots back. */
  ghost predicate DequeuesSafe<T(!new)>(q: Queue<T>) {
    forall ts: seq<nat>, r: Queue<T> :: Reaches(q, ts, r) && AllIdle(r) ==> r.consTail == r.consHead
  }

  /** Two concurrent dequeues on any idle queue that is not empty: every schedule ends with all
      taken slots given back if and only if the first asks for at least one element, as the
      second does. */
  lemma DequeuesSafeIff<T(!new)>(b: Queue<T>, t: nat, u: nat, n: nat, want: nat)
    requires TwoTake(b, t, u) && want >= 1
    ensures DequeuesSafe(Pair(b, t, u, DeqStart(n), DeqStart(want))) <==> n >= 1
  {
    var q := Pair(b, t, u, DeqStart(n), DeqStart(want));
    IdleIsWhole(b);
    if n >= 1 {
      TwoCallsHaveInv(b, t, u, DeqStart(n), DeqStart(want));
      forall ts: seq<nat>, r: Queue<T> | Reaches(q, ts, r) && AllIdle(r)
        ensures r.consTail == r.consHead
      {
        DequeuesEndWhole(q, t, u, b.consHead.total, ts, r);
      }
    } else {
      var ts, r := EmptyDequeueKeepsSlots(b, t, u, want);
      assert r.consTail != r.consHead;
    }
  }
}
