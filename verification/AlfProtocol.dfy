/** The multi-producer, multi-consumer protocol of the array queue, as interleaved atomic
    steps of any number of threads. A step touches shared memory at most once. */
module AlfProtocol {
  import opened Config
  import opened Words
  import opened Claims

  /** A shared 32-bit field. `word` is what the code reads and writes; `total` is its
      unbounded history, which no guard below ever reads. */
  datatype Counter = Counter(word: nat, total: nat) {
    ghost predicate Ok() {
      word == total % TWO32
    }

    function Plus(n: nat): Counter {
      Counter((word + n) % TWO32, total + n)
    }
  }

  /** Where a thread is inside `alf_mp_enqueue` or `alf_mc_dequeue`. `turn` is set once the
      thread has read the tail it waits for; publishing is a later, separate write. */
  datatype Phase<T> =
    | Idle
    | EnqStart(items: seq<T>)
    | EnqHead(items: seq<T>, head: Counter)
    | EnqSpace(items: seq<T>, head: Counter)
    | Storing(items: seq<T>, head: Counter, done: nat, turn: bool)
    | DeqStart(want: nat)
    | DeqHead(want: nat, head: Counter)
    | DeqElems(want: nat, head: Counter, elems: nat)
    | Loading(want: nat, head: Counter, elems: nat, got: seq<T>, turn: bool)

  /** The queue, its threads, and two histories: `log`, everything reserved for enqueue in
      order of reservation, and `out`, everything handed to consumers in order of release. */
  datatype Queue<T> = Queue(
    size: nat,
    prodHead: Counter, prodTail: Counter, consHead: Counter, consTail: Counter,
    ring: seq<T>, threads: seq<Phase<T>>, log: seq<T>, out: seq<T>)

  /** `q->size + c_tail - p_head` and `p_tail - c_head` in 32-bit arithmetic. */
  function SpaceWord(size: nat, cTail: nat, pHead: nat): (r: nat) {
    (size + cTail - pHead) % TWO32
  }

  function ElemsWord(pTail: nat, cHead: nat): (r: nat) {
    (pTail - cHead) % TWO32
  }

  predicate WellSized<T>(q: Queue<T>) {
    1 <= q.size <= 0x4000_0000 && |q.ring| == q.size
  }

  /** A thread can move unless it is idle or waiting for earlier calls to publish. */
  predicate Enabled<T>(q: Queue<T>, t: nat) {
    && WellSized(q) && t < |q.threads|
    && match q.threads[t] {
         case Idle => false
         case Storing(items, head, done, turn) => done < |items| || turn || q.prodTail.word == head.word
         case Loading(_, head, elems, got, turn) => |got| < elems || turn || q.consTail.word == head.word
         case _ => true
       }
  }

  /** One atomic step of thread `t`. */
  function Advance<T>(q: Queue<T>, t: nat): (r: Queue<T>)
    requires Enabled(q, t)
  {
    match q.threads[t] {
      case EnqStart(items) => Enter(q, t, EnqHead(items, q.prodHead))
      case EnqHead(items, head) =>
        if |items| > SpaceWord(q.size, q.consTail.word, head.word) then Enter(q, t, Idle)
        else Enter(q, t, EnqSpace(items, head))
      case EnqSpace(items, head) =>
        if q.prodHead.word != head.word then Enter(q, t, EnqStart(items))
        else Enter(q, t, Storing(items, q.prodHead, 0, false)).(
             prodHead := q.prodHead.Plus(|items|), log := q.log + items)
      case Storing(items, head, done, turn) =>
        if done < |items| then
          Enter(q, t, Storing(items, head, done + 1, turn)).(
          ring := q.ring[Slot(head.word + done, q.size) := items[done]])
        else if !turn then Enter(q, t, Storing(items, head, done, true))
        else Enter(q, t, Idle).(prodTail := head.Plus(|items|))
      case DeqStart(want) => Enter(q, t, DeqHead(want, q.consHead))
      case DeqHead(want, head) =>
        var elems := ElemsWord(q.prodTail.word, head.word);
        if elems == 0 then Enter(q, t, Idle) else Enter(q, t, DeqElems(want, head, Min(elems, want)))
      case DeqElems(want, head, elems) =>
        if q.consHead.word != head.word then Enter(q, t, DeqStart(want))
        else Enter(q, t, Loading(want, q.consHead, elems, [], false)).(consHead := q.consHead.Plus(elems))
      case Loading(want, head, elems, got, turn) =>
        if |got| < elems then
          Enter(q, t, Loading(want, head, elems, got + [q.ring[Slot(head.word + |got|, q.size)]], turn))
        else if !turn then Enter(q, t, Loading(want, head, elems, got, true))
        else Enter(q, t, Idle).(consTail := head.Plus(elems), out := q.out + got)
    }
  }

  function Enter<T>(q: Queue<T>, t: nat, p: Phase<T>): (r: Queue<T>)
    requires t < |q.threads|
  {
    q.(threads := q.threads[t := p])
  }

  datatype Action<T> = CallEnqueue(t: nat, items: seq<T>) | CallDequeue(t: nat, want: nat) | Step(t: nat)

  /** What the code relies on: at least one element per call, and a bulk call only on a
      power-of-two ring; a head moves fewer than 2^32 positions between a thread's read and
      its compare-and-swap; the reserved span never exceeds the collision-free window.
      The last is implied by the invariant when the size is a power of two. */
  ghost predicate Legal<T>(q: Queue<T>, a: Action<T>) {
    match a {
      case CallEnqueue(t, items) =>
        && t < |q.threads| && q.threads[t].Idle?
        && 1 <= |items| < TWO32 && (|items| == 1 || IsPow2(q.size))
      case CallDequeue(t, want) =>
        && t < |q.threads| && q.threads[t].Idle?
        && 1 <= want < TWO32 && (want == 1 || IsPow2(q.size))
      case Step(t) => Enabled(q, t) && NoAba(q, t) && Fits(q, t)
    }
  }

  ghost predicate NoAba<T>(q: Queue<T>, t: nat)
    requires Enabled(q, t)
  {
    match q.threads[t] {
      case EnqSpace(_, head) => q.prodHead.total - head.total < TWO32
      case DeqElems(_, head, _) => q.consHead.total - head.total < TWO32
      case _ => true
    }
  }

  ghost predicate Fits<T>(q: Queue<T>, t: nat)
    requires Enabled(q, t)
  {
    match q.threads[t] {
      case EnqSpace(items, head) =>
        q.prodHead.word == head.word ==>
          q.prodHead.total + |items| <= q.consTail.total + Window(q.size)
      case _ => true
    }
  }

  ghost function Next<T>(q: Queue<T>, a: Action<T>): (r: Queue<T>)
    requires Legal(q, a)
  {
    match a {
      case CallEnqueue(t, items) => Enter(q, t, EnqStart(items))
      case CallDequeue(t, want) => Enter(q, t, DeqStart(want))
      case Step(t) => Advance(q, t)
    }
  }

  ghost predicate LegalRun<T>(q: Queue<T>, acts: seq<Action<T>>)
    decreases |acts|
  {
    acts == [] || (Legal(q, acts[0]) && LegalRun(Next(q, acts[0]), acts[1..]))
  }

  ghost function Exec<T>(q: Queue<T>, acts: seq<Action<T>>): (r: Queue<T>)
    requires LegalRun(q, acts)
    decreases |acts|
  {
    if acts == [] then q else Exec(Next(q, acts[0]), acts[1..])
  }

  /** `alf_queue_alloc`: zeroed counters, no thread inside a call. */
  ghost predicate Init<T>(q: Queue<T>) {
    && WellSized(q)
    && q.prodHead == q.prodTail == q.consHead == q.consTail == Counter(0, 0)
    && q.log == q.out == []
    && forall i :: 0 <= i < |q.threads| ==> q.threads[i].Idle?
  }

  // ----- The invariant -----

  function ProdClaim<T>(p: Phase<T>): (c: Claim) {
    if p.Storing? && |p.items| >= 1 then Claim(p.head.total, p.head.total + |p.items|) else NoClaim
  }

  function ConsClaim<T>(p: Phase<T>): (c: Claim) {
    if p.Loading? && p.elems >= 1 then Claim(p.head.total, p.head.total + p.elems) else NoClaim
  }

  function ProdClaims<T>(ts: seq<Phase<T>>): (cs: seq<Claim>)
    ensures |cs| == |ts|
    ensures forall i :: 0 <= i < |ts| ==> cs[i] == ProdClaim(ts[i])
  {
    seq(|ts|, i requires 0 <= i < |ts| => ProdClaim(ts[i]))
  }

  function ConsClaims<T>(ts: seq<Phase<T>>): (cs: seq<Claim>)
    ensures |cs| == |ts|
    ensures forall i :: 0 <= i < |ts| ==> cs[i] == ConsClaim(ts[i])
  {
    seq(|ts|, i requires 0 <= i < |ts| => ConsClaim(ts[i]))
  }

  /** consumer.tail <= consumer.head <= producer.tail <= producer.head <= consumer.tail + size,
      with every stored word the counter modulo 2^32. */
  ghost predicate Ordered<T>(q: Queue<T>) {
    && WellSized(q)
    && q.prodHead.Ok() && q.prodTail.Ok() && q.consHead.Ok() && q.consTail.Ok()
    && q.consTail.total <= q.consHead.total <= q.prodTail.total <= q.prodHead.total
    && q.prodHead.total <= q.consTail.total + Window(q.size)
    && |q.log| == q.prodHead.total
    && q.out == q.log[..q.consTail.total]
  }

  ghost predicate Reserved<T>(q: Queue<T>)
  {
    && Partition(ProdClaims(q.threads), q.prodTail.total, q.prodHead.total)
    && Partition(ConsClaims(q.threads), q.consTail.total, q.consHead.total)
  }

  ghost predicate HeldAt<T>(q: Queue<T>, p: nat) {
    WellSized(q) && p < |q.log| && q.ring[Slot(p, q.size)] == q.log[p]
  }

  ghost predicate PhaseOk<T>(q: Queue<T>, p: Phase<T>)
    requires Ordered(q)
  {
    match p {
      case Idle => true
      case EnqStart(items) => 1 <= |items| < TWO32
      case EnqHead(items, head) =>
        1 <= |items| < TWO32 && head.Ok() && head.total <= q.prodHead.total
      case EnqSpace(items, head) =>
        && 1 <= |items| < TWO32 && head.Ok() && head.total <= q.prodHead.total
        && (head.total == q.prodHead.total ==> head.total + |items| <= q.consTail.total + q.size)
      case Storing(items, head, done, turn) =>
        && 1 <= |items| && done <= |items| && head.Ok()
        && (turn ==> done == |items| && head.total == q.prodTail.total)
        && q.prodTail.total <= head.total && head.total + |items| <= q.prodHead.total
        && q.log[head.total..head.total + |items|] == items
        && forall p: nat :: head.total <= p < head.total + done ==> HeldAt(q, p)
      case DeqStart(want) => 1 <= want
      case DeqHead(want, head) => 1 <= want && head.Ok() && head.total <= q.consHead.total
      case DeqElems(want, head, elems) =>
        && 1 <= elems <= want && head.Ok() && head.total <= q.consHead.total
        && (head.total == q.consHead.total ==> head.total + elems <= q.prodTail.total)
      case Loading(want, head, elems, got, turn) =>
        && 1 <= elems <= want && |got| <= elems && head.Ok()
        && (turn ==> |got| == elems && head.total == q.consTail.total)
        && q.consTail.total <= head.total && head.total + elems <= q.consHead.total
        && q.log[head.total..head.total + |got|] == got
    }
  }

  ghost predicate Inv<T>(q: Queue<T>) {
    && Ordered(q)
    && Reserved(q)
    && (forall i :: 0 <= i < |q.threads| ==> PhaseOk(q, q.threads[i]))
    && (forall p: nat :: q.consTail.total <= p < q.prodTail.total ==> HeldAt(q, p))
  }

  // ----- 32-bit comparisons decide what the unbounded ones would -----

  lemma SpaceExact(size: nat, cTail: Counter, pHead: Counter)
    requires cTail.Ok() && pHead.Ok()
    requires pHead.total <= size + cTail.total < pHead.total + TWO32
    ensures SpaceWord(size, cTail.word, pHead.word) == size + cTail.total - pHead.total
  {
  }

  lemma ElemsExact(pTail: Counter, cHead: Counter)
    requires cHead.Ok() && pTail.Ok() && cHead.total <= pTail.total < cHead.total + TWO32
    ensures ElemsWord(pTail.word, cHead.word) == pTail.total - cHead.total
  {
  }

  lemma WordsEqual(a: Counter, b: Counter)
    requires a.Ok() && b.Ok() && a.total < b.total + TWO32 && b.total < a.total + TWO32
    ensures a.word == b.word <==> a.total == b.total
  {
  }

  lemma PlusOk(c: Counter, n: nat)
    requires c.Ok()
    ensures c.Plus(n).Ok()
  {
  }

  lemma SlotOfWord(c: Counter, i: nat, size: nat)
    requires c.Ok() && size >= 1
    ensures Slot(c.word + i, size) == Slot(c.total + i, size)
  {
    assert (c.word + i) % TWO32 == (c.total + i) % TWO32;
  }

  // ----- Every step keeps the invariant -----

  lemma SetClaim<T>(q: Queue<T>, t: nat, p: Phase<T>)
    requires t < |q.threads|
    ensures ProdClaims(q.threads[t := p]) == ProdClaims(q.threads)[t := ProdClaim(p)]
    ensures ConsClaims(q.threads[t := p]) == ConsClaims(q.threads)[t := ConsClaim(p)]
  {
  }

  /** Moving to a phase with the same claims, with no shared field changed. */
  lemma LocalStep<T>(q: Queue<T>, t: nat, p: Phase<T>)
    requires Inv(q) && t < |q.threads| && PhaseOk(q, p)
    requires ProdClaim(p) == ProdClaim(q.threads[t]) && ConsClaim(p) == ConsClaim(q.threads[t])
    ensures Inv(Enter(q, t, p))
  {
    var r := Enter(q, t, p);
    SetClaim(q, t, p);
    assert ProdClaims(r.threads) == ProdClaims(q.threads);
    assert ConsClaims(r.threads) == ConsClaims(q.threads);
    forall i | 0 <= i < |r.threads|
      ensures PhaseOk(r, r.threads[i])
    {
      SamePhase(q, r, r.threads[i]);
    }
    forall x: nat | r.consTail.total <= x < r.prodTail.total
      ensures HeldAt(r, x)
    {
      assert HeldAt(q, x);
    }
  }

  lemma SamePhase<T>(q: Queue<T>, r: Queue<T>, p: Phase<T>)
    requires Ordered(q) && Ordered(r) && PhaseOk(q, p) && r == q.(threads := r.threads)
    ensures PhaseOk(r, p)
  {
    if p.Storing? {
      forall x: nat | p.head.total <= x < p.head.total + p.done
        ensures HeldAt(r, x)
      {
        assert HeldAt(q, x);
      }
    }
  }

  lemma CallKeepsInv<T>(q: Queue<T>, a: Action<T>)
    requires Inv(q) && Legal(q, a) && !a.Step?
    ensures Inv(Next(q, a))
  {
    LocalStep(q, a.t, if a.CallEnqueue? then EnqStart(a.items) else DeqStart(a.want));
  }

  lemma ReadSpaceKeepsInv<T>(q: Queue<T>, t: nat)
    requires Inv(q) && Enabled(q, t) && q.threads[t].EnqHead?
    ensures Inv(Advance(q, t))
  {
    var EnqHead(items, head) := q.threads[t];
    assert PhaseOk(q, q.threads[t]);
    var space := SpaceWord(q.size, q.consTail.word, head.word);
    if head.total == q.prodHead.total {
      SpaceExact(q.size, q.consTail, head);
    }
    LocalStep(q, t, if |items| > space then Idle else EnqSpace(items, head));
  }

  lemma ReadElemsKeepsInv<T>(q: Queue<T>, t: nat)
    requires Inv(q) && Enabled(q, t) && q.threads[t].DeqHead?
    ensures Inv(Advance(q, t))
  {
    var DeqHead(want, head) := q.threads[t];
    assert PhaseOk(q, q.threads[t]);
    var elems := ElemsWord(q.prodTail.word, head.word);
    if head.total == q.consHead.total {
      ElemsExact(q.prodTail, head);
    }
    LocalStep(q, t, if elems == 0 then Idle else DeqElems(want, head, Min(elems, want)));
  }

  /** A phase stays good when a counter it only bounds from below moves up. */
  lemma PhaseMonotone<T>(q: Queue<T>, r: Queue<T>, p: Phase<T>)
    requires Ordered(q) && Ordered(r) && PhaseOk(q, p)
    requires r.size == q.size && r.ring == q.ring
    requires q.log <= r.log
    requires q.prodHead.total <= r.prodHead.total && q.consHead.total <= r.consHead.total
    requires q.consTail.total <= r.consTail.total && q.prodTail.total <= r.prodTail.total
    requires p.Storing? ==> r.prodTail.total <= p.head.total
    requires p.Loading? ==> r.consTail.total <= p.head.total
    ensures PhaseOk(r, p)
  {
    if p.Storing? {
      forall x: nat | p.head.total <= x < p.head.total + p.done
        ensures HeldAt(r, x)
      {
        assert HeldAt(q, x);
      }
      assert r.log[p.head.total..p.head.total + |p.items|] == q.log[p.head.total..p.head.total + |p.items|];
    } else if p.Loading? {
      assert r.log[p.head.total..p.head.total + |p.got|] == q.log[p.head.total..p.head.total + |p.got|];
    }
  }

  /** The other threads' phases survive a step of thread `t` that only moves counters up. */
  lemma OthersMonotone<T>(q: Queue<T>, r: Queue<T>, t: nat)
    requires Inv(q) && Ordered(r) && Reserved(r) && t < |q.threads| == |r.threads|
    requires forall i :: 0 <= i < |q.threads| && i != t ==> r.threads[i] == q.threads[i]
    requires r.size == q.size && r.ring == q.ring && q.log <= r.log
    requires q.prodHead.total <= r.prodHead.total && q.consHead.total <= r.consHead.total
    requires q.consTail.total <= r.consTail.total && q.prodTail.total <= r.prodTail.total
    ensures forall i :: 0 <= i < |q.threads| && i != t ==> PhaseOk(r, r.threads[i])
  {
    forall i | 0 <= i < |q.threads| && i != t
      ensures PhaseOk(r, r.threads[i])
    {
      var p := q.threads[i];
      assert PhaseOk(q, p);
      assert p.Storing? ==> ProdClaims(r.threads)[i].Claim?;
      assert p.Loading? ==> ConsClaims(r.threads)[i].Claim?;
      PhaseMonotone(q, r, p);
    }
  }

  /** A successful compare-and-swap of producer.head: the thread owns fresh positions. */
  lemma ReserveProdOrdered<T>(q: Queue<T>, t: nat)
    requires Inv(q) && Enabled(q, t) && q.threads[t].EnqSpace? && NoAba(q, t) && Fits(q, t)
    requires q.prodHead.word == q.threads[t].head.word
    ensures Ordered(Advance(q, t)) && PhaseOk(Advance(q, t), Advance(q, t).threads[t])
    ensures q.threads[t].head.total == q.prodHead.total
  {
    var EnqSpace(items, head) := q.threads[t];
    assert PhaseOk(q, q.threads[t]);
    WordsEqual(q.prodHead, head);
    PlusOk(q.prodHead, |items|);
    var r := Advance(q, t);
    assert r.log[..q.consTail.total] == q.log[..q.consTail.total];
    assert r.log[q.prodHead.total..q.prodHead.total + |items|] == items;
  }

  lemma ReserveProdKeepsInv<T>(q: Queue<T>, t: nat)
    requires Inv(q) && Enabled(q, t) && q.threads[t].EnqSpace? && NoAba(q, t) && Fits(q, t)
    requires q.prodHead.word == q.threads[t].head.word
    ensures Inv(Advance(q, t))
  {
    ReserveProdOrdered(q, t);
    assert PhaseOk(q, q.threads[t]);
    var r := Advance(q, t);
    SetClaim(q, t, r.threads[t]);
    Reserve(ProdClaims(q.threads), q.prodTail.total, q.prodHead.total, t, |q.threads[t].items|);
    assert ConsClaims(r.threads) == ConsClaims(q.threads);
    OthersMonotone(q, r, t);
    KeepHeld(q, r);
  }

  lemma KeepHeld<T>(q: Queue<T>, r: Queue<T>)
    requires Inv(q) && WellSized(r)
    requires r.size == q.size && r.ring == q.ring && q.log <= r.log
    requires q.consTail.total <= r.consTail.total && r.prodTail == q.prodTail
    ensures forall p: nat :: r.consTail.total <= p < r.prodTail.total ==> HeldAt(r, p)
  {
    forall p: nat | r.consTail.total <= p < r.prodTail.total
      ensures HeldAt(r, p)
    {
      assert HeldAt(q, p);
    }
  }

  lemma ReserveConsOrdered<T>(q: Queue<T>, t: nat)
    requires Inv(q) && Enabled(q, t) && q.threads[t].DeqElems? && NoAba(q, t)
    requires q.consHead.word == q.threads[t].head.word
    ensures Ordered(Advance(q, t)) && PhaseOk(Advance(q, t), Advance(q, t).threads[t])
    ensures q.threads[t].head.total == q.consHead.total
  {
    assert PhaseOk(q, q.threads[t]);
    WordsEqual(q.consHead, q.threads[t].head);
    PlusOk(q.consHead, q.threads[t].elems);
  }

  lemma ReserveConsKeepsInv<T>(q: Queue<T>, t: nat)
    requires Inv(q) && Enabled(q, t) && q.threads[t].DeqElems? && NoAba(q, t)
    requires q.consHead.word == q.threads[t].head.word
    ensures Inv(Advance(q, t))
  {
    ReserveConsOrdered(q, t);
    assert PhaseOk(q, q.threads[t]);
    var r := Advance(q, t);
    SetClaim(q, t, r.threads[t]);
    Reserve(ConsClaims(q.threads), q.consTail.total, q.consHead.total, t, q.threads[t].elems);
    assert ProdClaims(r.threads) == ProdClaims(q.threads);
    OthersMonotone(q, r, t);
    KeepHeld(q, r);
  }

  /** Storing position x disturbs no other position between consumer.tail and producer.head. */
  lemma StoreMissesOthers<T>(q: Queue<T>, r: Queue<T>, x: nat, p: nat)
    requires Ordered(q) && WellSized(r) && r.size == q.size && r.log == q.log
    requires q.consTail.total <= x < q.prodHead.total && q.consTail.total <= p < q.prodHead.total
    requires r.ring == q.ring[Slot(x, q.size) := q.log[x]]
    ensures HeldAt(r, x)
    ensures HeldAt(q, p) ==> HeldAt(r, p)
  {
    if p < x {
      SlotsDistinct(p, x, q.size);
    } else if x < p {
      SlotsDistinct(x, p, q.size);
    }
  }

  /** A store writes the logged value of its position into that position's slot. */
  lemma StoreEffect<T>(q: Queue<T>, t: nat, x: nat)
    requires Inv(q) && Enabled(q, t) && q.threads[t].Storing?
    requires q.threads[t].done < |q.threads[t].items|
    requires x == q.threads[t].head.total + q.threads[t].done
    ensures q.prodTail.total <= x < q.prodHead.total
    ensures Advance(q, t) ==
            Enter(q, t, q.threads[t].(done := q.threads[t].done + 1)).(
            ring := q.ring[Slot(x, q.size) := q.log[x]])
  {
    var Storing(items, head, done, turn) := q.threads[t];
    assert PhaseOk(q, q.threads[t]);
    SliceAt(q.log, head.total, items, done);
    SlotOfWord(head, done, q.size);
  }

  lemma SliceAt<T>(s: seq<T>, lo: nat, items: seq<T>, i: nat)
    requires lo + |items| <= |s| && s[lo..lo + |items|] == items && i < |items|
    ensures s[lo + i] == items[i]
  {
  }

  lemma StoreKeepsInv<T>(q: Queue<T>, t: nat)
    requires Inv(q) && Enabled(q, t) && q.threads[t].Storing?
    requires q.threads[t].done < |q.threads[t].items|
    ensures Inv(Advance(q, t))
  {
    var x := q.threads[t].head.total + q.threads[t].done;
    StoreEffect(q, t, x);
    AfterStore(q, Advance(q, t), t, x);
  }

  lemma AfterStore<T>(q: Queue<T>, r: Queue<T>, t: nat, x: nat)
    requires Inv(q) && t < |q.threads| && q.threads[t].Storing?
    requires q.threads[t].done < |q.threads[t].items|
    requires x == q.threads[t].head.total + q.threads[t].done && x < |q.log|
    requires r == Enter(q, t, q.threads[t].(done := q.threads[t].done + 1)).(
                  ring := q.ring[Slot(x, q.size) := q.log[x]])
    ensures Inv(r)
  {
    assert PhaseOk(q, q.threads[t]);
    SetClaim(q, t, r.threads[t]);
    assert ProdClaims(r.threads) == ProdClaims(q.threads);
    assert ConsClaims(r.threads) == ConsClaims(q.threads);
    forall i | 0 <= i < |r.threads|
      ensures PhaseOk(r, r.threads[i])
    {
      AfterStorePhase(q, r, t, x, i);
    }
    StoreKeepsPublished(q, r, x);
  }

  lemma AfterStorePhase<T>(q: Queue<T>, r: Queue<T>, t: nat, x: nat, i: nat)
    requires Inv(q) && t < |q.threads| && q.threads[t].Storing?
    requires q.threads[t].done < |q.threads[t].items|
    requires x == q.threads[t].head.total + q.threads[t].done && x < |q.log|
    requires r == Enter(q, t, q.threads[t].(done := q.threads[t].done + 1)).(
                  ring := q.ring[Slot(x, q.size) := q.log[x]])
    requires i < |r.threads|
    ensures Ordered(r) && PhaseOk(r, r.threads[i])
  {
    assert PhaseOk(q, q.threads[t]);
    assert PhaseOk(q, q.threads[i]);
    if r.threads[i].Storing? {
      StoredStays(q, r, x, q.threads[i], r.threads[i]);
    }
  }

  lemma StoreKeepsPublished<T>(q: Queue<T>, r: Queue<T>, x: nat)
    requires Inv(q) && WellSized(r) && r == q.(ring := r.ring, threads := r.threads)
    requires q.prodTail.total <= x < q.prodHead.total
    requires r.ring == q.ring[Slot(x, q.size) := q.log[x]]
    ensures forall p: nat :: r.consTail.total <= p < r.prodTail.total ==> HeldAt(r, p)
  {
    forall p: nat | r.consTail.total <= p < r.prodTail.total
      ensures HeldAt(r, p)
    {
      assert HeldAt(q, p);
      StoreMissesOthers(q, r, x, p);
    }
  }

  /** Positions already stored stay stored, and `x` joins them. */
  lemma HeldStays<T>(q: Queue<T>, r: Queue<T>, x: nat, lo: nat, hi: nat)
    requires Ordered(q) && WellSized(r) && r.size == q.size && r.log == q.log
    requires q.consTail.total <= x < q.prodHead.total && q.consTail.total <= lo && hi <= q.prodHead.total
    requires r.ring == q.ring[Slot(x, q.size) := q.log[x]]
    requires forall y: nat :: lo <= y < hi && y != x ==> HeldAt(q, y)
    ensures forall y: nat :: lo <= y < hi ==> HeldAt(r, y)
  {
    forall y: nat | lo <= y < hi
      ensures HeldAt(r, y)
    {
      StoreMissesOthers(q, r, x, y);
    }
  }

  lemma StoredStays<T>(q: Queue<T>, r: Queue<T>, x: nat, p: Phase<T>, p': Phase<T>)
    requires Ordered(q) && Ordered(r) && p.Storing? && PhaseOk(q, p)
    requires r.size == q.size && r.log == q.log && r.prodTail == q.prodTail && r.prodHead == q.prodHead
    requires q.consTail.total <= x < q.prodHead.total
    requires r.ring == q.ring[Slot(x, q.size) := q.log[x]]
    requires p' == p || (p' == p.(done := p.done + 1) && x == p.head.total + p.done && p.done < |p.items|)
    ensures PhaseOk(r, p')
  {
    HeldStays(q, r, x, p.head.total, p'.head.total + p'.done);
  }

  lemma PublishProdKeepsInv<T>(q: Queue<T>, t: nat)
    requires Inv(q) && Enabled(q, t) && q.threads[t].Storing?
    requires q.threads[t].turn
    ensures Inv(Advance(q, t))
    ensures q.threads[t].head.total == q.prodTail.total
  {
    var Storing(items, head, done, turn) := q.threads[t];
    assert PhaseOk(q, q.threads[t]);
    PlusOk(head, |items|);
    var r := Advance(q, t);
    assert Ordered(r);
    SetClaim(q, t, r.threads[t]);
    Publish(ProdClaims(q.threads), q.prodTail.total, q.prodHead.total, t);
    assert ConsClaims(r.threads) == ConsClaims(q.threads);
    OthersMonotone(q, r, t);
    forall p: nat | r.consTail.total <= p < r.prodTail.total
      ensures HeldAt(r, p)
    {
      assert HeldAt(q, p);
    }
  }

  /** A load returns the logged value of its position. */
  lemma LoadEffect<T>(q: Queue<T>, t: nat, x: nat)
    requires Inv(q) && Enabled(q, t) && q.threads[t].Loading?
    requires |q.threads[t].got| < q.threads[t].elems
    requires x == q.threads[t].head.total + |q.threads[t].got|
    ensures x < |q.log|
    ensures Advance(q, t) == Enter(q, t, q.threads[t].(got := q.threads[t].got + [q.log[x]]))
  {
    assert PhaseOk(q, q.threads[t]);
    SlotOfWord(q.threads[t].head, |q.threads[t].got|, q.size);
    assert HeldAt(q, x);
  }

  lemma LoadKeepsInv<T>(q: Queue<T>, t: nat)
    requires Inv(q) && Enabled(q, t) && q.threads[t].Loading?
    requires |q.threads[t].got| < q.threads[t].elems
    ensures Inv(Advance(q, t))
  {
    var Loading(want, head, elems, got, turn) := q.threads[t];
    assert PhaseOk(q, q.threads[t]);
    var x := head.total + |got|;
    LoadEffect(q, t, x);
    assert q.log[head.total..x + 1] == q.log[head.total..x] + [q.log[x]];
    LocalStep(q, t, Loading(want, head, elems, got + [q.log[x]], turn));
  }

  lemma PublishConsOrdered<T>(q: Queue<T>, t: nat)
    requires Inv(q) && Enabled(q, t) && q.threads[t].Loading?
    requires q.threads[t].turn
    ensures Ordered(Advance(q, t))
    ensures q.threads[t].head.total == q.consTail.total
  {
    var Loading(want, head, elems, got, turn) := q.threads[t];
    assert PhaseOk(q, q.threads[t]);
    PlusOk(head, elems);
    assert q.log[..head.total + elems] == q.log[..head.total] + q.log[head.total..head.total + elems];
  }

  lemma PublishConsKeepsInv<T>(q: Queue<T>, t: nat)
    requires Inv(q) && Enabled(q, t) && q.threads[t].Loading?
    requires q.threads[t].turn
    ensures Inv(Advance(q, t))
  {
    PublishConsOrdered(q, t);
    assert PhaseOk(q, q.threads[t]);
    var r := Advance(q, t);
    SetClaim(q, t, r.threads[t]);
    Publish(ConsClaims(q.threads), q.consTail.total, q.consHead.total, t);
    assert ProdClaims(r.threads) == ProdClaims(q.threads);
    OthersMonotone(q, r, t);
    KeepHeld(q, r);
  }

  lemma ProducerStepKeepsInv<T>(q: Queue<T>, t: nat)
    requires Inv(q) && Legal(q, Step(t))
    requires q.threads[t].EnqStart? || q.threads[t].EnqHead? || q.threads[t].EnqSpace? || q.threads[t].Storing?
    ensures Inv(Advance(q, t))
  {
    var p := q.threads[t];
    assert PhaseOk(q, p);
    match p {
      case EnqStart(items) => LocalStep(q, t, EnqHead(items, q.prodHead));
      case EnqHead(_, _) => ReadSpaceKeepsInv(q, t);
      case EnqSpace(items, head) =>
        if q.prodHead.word == head.word {
          ReserveProdKeepsInv(q, t);
        } else {
          LocalStep(q, t, EnqStart(items));
        }
      case Storing(items, head, done, turn) =>
        if done < |items| {
          StoreKeepsInv(q, t);
        } else if turn {
          PublishProdKeepsInv(q, t);
        } else {
          WordsEqual(q.prodTail, head);
          LocalStep(q, t, Storing(items, head, done, true));
        }
    }
  }

  lemma ConsumerStepKeepsInv<T>(q: Queue<T>, t: nat)
    requires Inv(q) && Legal(q, Step(t))
    requires q.threads[t].DeqStart? || q.threads[t].DeqHead? || q.threads[t].DeqElems? || q.threads[t].Loading?
    ensures Inv(Advance(q, t))
  {
    var p := q.threads[t];
    assert PhaseOk(q, p);
    match p {
      case DeqStart(want) => LocalStep(q, t, DeqHead(want, q.consHead));
      case DeqHead(_, _) => ReadElemsKeepsInv(q, t);
      case DeqElems(want, head, elems) =>
        if q.consHead.word == head.word {
          ReserveConsKeepsInv(q, t);
        } else {
          LocalStep(q, t, DeqStart(want));
        }
      case Loading(want, head, elems, got, turn) =>
        if |got| < elems {
          LoadKeepsInv(q, t);
        } else if turn {
          PublishConsKeepsInv(q, t);
        } else {
          WordsEqual(q.consTail, head);
          LocalStep(q, t, Loading(want, head, elems, got, true));
        }
    }
  }

  /** Every atomic step of every thread keeps the invariant. */
  lemma StepKeepsInv<T>(q: Queue<T>, a: Action<T>)
    requires Inv(q) && Legal(q, a)
    ensures Inv(Next(q, a))
  {
    if !a.Step? {
      CallKeepsInv(q, a);
    } else if q.threads[a.t].DeqStart? || q.threads[a.t].DeqHead? || q.threads[a.t].DeqElems?
              || q.threads[a.t].Loading? {
      ConsumerStepKeepsInv(q, a.t);
    } else {
      ProducerStepKeepsInv(q, a.t);
    }
  }
}
