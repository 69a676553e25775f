/** What holds of every run of the array queue: FIFO order, the 32-bit comparisons,
    the observers, and termination of every call once no new call starts. */
module AlfTheorems {
  import opened Config
  import opened Words
  import opened Claims
  import opened AlfProtocol

  lemma InitHasInv<T>(q: Queue<T>)
    requires Init(q)
    ensures Inv(q)
  {
    assert forall i :: 0 <= i < |q.threads| ==> PhaseOk(q, q.threads[i]);
  }

  lemma {:induction false} RunKeepsInv<T>(q: Queue<T>, acts: seq<Action<T>>)
    requires Inv(q) && LegalRun(q, acts)
    ensures Inv(Exec(q, acts))
    decreases |acts|
  {
    if acts != [] {
      StepKeepsInv(q, acts[0]);
      RunKeepsInv(Next(q, acts[0]), acts[1..]);
    }
  }

  /** On a power-of-two ring the window condition of `Legal` never excludes a step. */
  lemma PowerOfTwoFits<T>(q: Queue<T>, t: nat)
    requires Inv(q) && Enabled(q, t) && NoAba(q, t) && IsPow2(q.size)
    ensures Fits(q, t)
  {
    assert PhaseOk(q, q.threads[t]);
    if q.threads[t].EnqSpace? {
      HeadUnmoved(q, t);
    }
  }

  lemma HeadUnmoved<T>(q: Queue<T>, t: nat)
    requires Inv(q) && Enabled(q, t) && NoAba(q, t) && q.threads[t].EnqSpace?
    ensures q.prodHead.word == q.threads[t].head.word <==> q.prodHead.total == q.threads[t].head.total
  {
    assert PhaseOk(q, q.threads[t]);
    WordsEqual(q.prodHead, q.threads[t].head);
  }

  // ----- Refinement of an abstract FIFO -----

  datatype FifoOp<T> = Stutter | Put(items: seq<T>) | Take(items: seq<T>)

  ghost predicate FifoStep<T>(before: seq<T>, op: FifoOp<T>, after: seq<T>) {
    match op {
      case Stutter => after == before
      case Put(items) => items != [] && after == before + items
      case Take(items) => items != [] && before == items + after
    }
  }

  /** The abstract queue: published and not yet reserved by a consumer. */
  ghost function Available<T>(q: Queue<T>): (r: seq<T>)
    requires Ordered(q)
  {
    q.log[q.consHead.total..q.prodTail.total]
  }

  /** Publishing puts the call's own items; a consumer's successful compare-and-swap takes
      the items its call will return. */
  ghost function Effect<T>(q: Queue<T>, a: Action<T>): (r: FifoOp<T>)
    requires Inv(q) && Legal(q, a)
  {
    if !a.Step? then Stutter else
      assert PhaseOk(q, q.threads[a.t]);
      match q.threads[a.t] {
        case Storing(items, _, _, turn) => if turn then Put(items) else Stutter
        case DeqElems(_, head, elems) =>
          if q.consHead.word != head.word then Stutter else
            (ReserveConsOrdered(q, a.t); Take(q.log[head.total..head.total + elems]))
        case _ => Stutter
      }
  }

  lemma StepRefinesFifo<T>(q: Queue<T>, a: Action<T>)
    requires Inv(q) && Legal(q, a)
    ensures Inv(Next(q, a))
    ensures FifoStep(Available(q), Effect(q, a), Available(Next(q, a)))
  {
    StepKeepsInv(q, a);
    if a.Step? {
      assert PhaseOk(q, q.threads[a.t]);
      if q.threads[a.t].Storing? {
        StoringRefines(q, a.t);
      } else if q.threads[a.t].DeqElems? {
        DeqElemsRefines(q, a.t);
      } else {
        OtherRefines(q, a.t);
      }
    }
  }

  lemma StoringRefines<T>(q: Queue<T>, t: nat)
    requires Inv(q) && Legal(q, Step(t)) && q.threads[t].Storing? && Inv(Advance(q, t))
    ensures FifoStep(Available(q), Effect(q, Step(t)), Available(Advance(q, t)))
  {
    assert PhaseOk(q, q.threads[t]);
    if q.threads[t].turn {
      PublishProdKeepsInv(q, t);
      JoinSlices(q.log, q.consHead.total, q.prodTail.total, Advance(q, t).prodTail.total);
    }
  }

  lemma DeqElemsRefines<T>(q: Queue<T>, t: nat)
    requires Inv(q) && Legal(q, Step(t)) && q.threads[t].DeqElems? && Inv(Advance(q, t))
    ensures FifoStep(Available(q), Effect(q, Step(t)), Available(Advance(q, t)))
  {
    assert PhaseOk(q, q.threads[t]);
    if q.consHead.word == q.threads[t].head.word {
      ReserveConsOrdered(q, t);
      JoinSlices(q.log, q.consHead.total, Advance(q, t).consHead.total, q.prodTail.total);
    }
  }

  lemma OtherRefines<T>(q: Queue<T>, t: nat)
    requires Inv(q) && Legal(q, Step(t)) && Inv(Advance(q, t))
    requires !q.threads[t].Storing? && !q.threads[t].DeqElems?
    ensures Available(Advance(q, t)) == Available(q)
  {
    OtherMoves(q, t);
    SliceOfPrefix(q.log, Advance(q, t).log, q.consHead.total, q.prodTail.total);
  }

  lemma OtherMoves<T>(q: Queue<T>, t: nat)
    requires Inv(q) && Legal(q, Step(t))
    requires !q.threads[t].Storing? && !q.threads[t].DeqElems?
    ensures Advance(q, t).consHead == q.consHead && Advance(q, t).prodTail == q.prodTail
    ensures q.log <= Advance(q, t).log
  {
  }

  lemma SliceOfPrefix<T>(s: seq<T>, r: seq<T>, a: nat, b: nat)
    requires s <= r && a <= b <= |s|
    ensures r[a..b] == s[a..b]
  {
  }

  lemma JoinSlices<T>(s: seq<T>, a: nat, b: nat, c: nat)
    requires a <= b <= c <= |s|
    ensures s[a..c] == s[a..b] + s[b..c]
  {
  }

  /** All items put, respectively taken, by a run. */
  ghost function PutBy<T>(q: Queue<T>, acts: seq<Action<T>>): (r: seq<T>)
    requires Inv(q) && LegalRun(q, acts)
    decreases |acts|
  {
    if acts == [] then [] else
      StepKeepsInv(q, acts[0]);
      var op := Effect(q, acts[0]);
      (if op.Put? then op.items else []) + PutBy(Next(q, acts[0]), acts[1..])
  }

  ghost function TakenBy<T>(q: Queue<T>, acts: seq<Action<T>>): (r: seq<T>)
    requires Inv(q) && LegalRun(q, acts)
    decreases |acts|
  {
    if acts == [] then [] else
      StepKeepsInv(q, acts[0]);
      var op := Effect(q, acts[0]);
      (if op.Take? then op.items else []) + TakenBy(Next(q, acts[0]), acts[1..])
  }

  lemma {:induction false} RunConserves<T>(q: Queue<T>, acts: seq<Action<T>>)
    requires Inv(q) && LegalRun(q, acts)
    ensures Inv(Exec(q, acts))
    ensures Available(q) + PutBy(q, acts) == TakenBy(q, acts) + Available(Exec(q, acts))
    decreases |acts|
  {
    if acts != [] {
      var a := acts[0];
      StepRefinesFifo(q, a);
      var r := Next(q, a);
      RunConserves(r, acts[1..]);
      FifoGlue(Available(q), Effect(q, a), Available(r), PutBy(r, acts[1..]), TakenBy(r, acts[1..]),
               Available(Exec(r, acts[1..])));
    } else {
      assert Available(q) + [] == [] + Available(q);
    }
  }

  lemma FifoGlue<T>(before: seq<T>, op: FifoOp<T>, after: seq<T>, puts: seq<T>, takes: seq<T>, final: seq<T>)
    requires FifoStep(before, op, after) && after + puts == takes + final
    ensures before + ((if op.Put? then op.items else []) + puts)
            == ((if op.Take? then op.items else []) + takes) + final
  {
    assert [] + puts == puts && [] + takes == takes;
    if op.Put? {
      assert before + (op.items + puts) == (before + op.items) + puts;
    } else if op.Take? {
      assert (op.items + after) + puts == op.items + (after + puts);
      assert op.items + (takes + final) == (op.items + takes) + final;
    }
  }

  lemma CountersGrow1<T>(q: Queue<T>, a: Action<T>)
    requires Inv(q) && Legal(q, a)
    ensures Grows(q, Next(q, a))
  {
    if a.Step? {
      var p := q.threads[a.t];
      assert PhaseOk(q, p);
      if p.Storing? {
        assert q.prodTail.total <= p.head.total;
      } else if p.Loading? {
        assert q.consTail.total <= p.head.total;
      }
    }
  }

  /** Counters never go back and the log only grows. */
  ghost predicate Grows<T>(q: Queue<T>, r: Queue<T>) {
    && r.size == q.size && q.log <= r.log && |r.threads| == |q.threads|
    && q.prodHead.total <= r.prodHead.total && q.prodTail.total <= r.prodTail.total
    && q.consHead.total <= r.consHead.total && q.consTail.total <= r.consTail.total
  }

  lemma {:induction false} RunGrows<T>(q: Queue<T>, acts: seq<Action<T>>)
    requires Inv(q) && LegalRun(q, acts)
    ensures Grows(q, Exec(q, acts))
    decreases |acts|
  {
    if acts != [] {
      CountersGrow1(q, acts[0]);
      StepKeepsInv(q, acts[0]);
      RunGrows(Next(q, acts[0]), acts[1..]);
    }
  }

  /** FIFO over whole runs. Starting from an empty queue, what consumers were handed
      (`out`), what was taken and what was put are, in this order, prefixes of what producers
      reserved: nothing is lost, duplicated, reordered or overwritten. Everything put is either
      taken or still available. */
  lemma FifoOrder<T>(q: Queue<T>, acts: seq<Action<T>>)
    requires Init(q) && LegalRun(q, acts)
    ensures Inv(q) && Inv(Exec(q, acts))
    ensures var r := Exec(q, acts);
            && r.out <= TakenBy(q, acts) <= PutBy(q, acts) <= r.log
            && PutBy(q, acts) == TakenBy(q, acts) + Available(r)
            && |r.out| == r.consTail.total && |TakenBy(q, acts)| == r.consHead.total
  {
    InitHasInv(q);
    RunKeepsInv(q, acts);
    RunConserves(q, acts);
    TakenIsLogged(q, acts);
    var r := Exec(q, acts);
    assert Available(q) + PutBy(q, acts) == PutBy(q, acts);
    assert r.log[0..r.consHead.total] == r.log[..r.consHead.total];
    JoinSlices(r.log, 0, r.consHead.total, r.prodTail.total);
    assert PutBy(q, acts) == r.log[..r.prodTail.total];
  }

  lemma {:induction false} TakenIsLogged<T>(q: Queue<T>, acts: seq<Action<T>>)
    requires Inv(q) && LegalRun(q, acts)
    ensures Inv(Exec(q, acts)) && q.consHead.total <= Exec(q, acts).consHead.total
    ensures TakenBy(q, acts) == Exec(q, acts).log[q.consHead.total..Exec(q, acts).consHead.total]
    decreases |acts|
  {
    if acts != [] {
      var a := acts[0];
      StepKeepsInv(q, a);
      var r := Next(q, a);
      CountersGrow1(q, a);
      RunGrows(r, acts[1..]);
      TakenIsLogged(r, acts[1..]);
      var z := Exec(r, acts[1..]);
      TakeMovesHead(q, a);
      SliceOfPrefix(q.log, z.log, q.consHead.total, r.consHead.total);
      JoinSlices(z.log, q.consHead.total, r.consHead.total, z.consHead.total);
    }
  }

  ghost predicate Reserves<T>(q: Queue<T>, a: Action<T>)
    requires Legal(q, a)
  {
    a.Step? && q.threads[a.t].DeqElems? && q.consHead.word == q.threads[a.t].head.word
  }

  /** Only a consumer's successful compare-and-swap moves the consumer head. */
  lemma OthersLeaveHead<T>(q: Queue<T>, a: Action<T>)
    requires Inv(q) && Legal(q, a) && !Reserves(q, a)
    ensures !Effect(q, a).Take? && Next(q, a).consHead == q.consHead
  {
  }

  lemma ReserveTakes<T>(q: Queue<T>, a: Action<T>)
    requires Inv(q) && Legal(q, a) && Reserves(q, a)
    ensures q.consHead.total <= Next(q, a).consHead.total <= |q.log|
    ensures Effect(q, a) == Take(q.log[q.consHead.total..Next(q, a).consHead.total])
  {
    ReserveConsOrdered(q, a.t);
  }

  lemma TakeMovesHead<T>(q: Queue<T>, a: Action<T>)
    requires Inv(q) && Legal(q, a)
    ensures Inv(Next(q, a)) && q.consHead.total <= Next(q, a).consHead.total <= |q.log|
    ensures (if Effect(q, a).Take? then Effect(q, a).items else [])
            == q.log[q.consHead.total..Next(q, a).consHead.total]
  {
    StepKeepsInv(q, a);
    if Reserves(q, a) {
      ReserveTakes(q, a);
    } else {
      OthersLeaveHead(q, a);
    }
  }

  /** When a consumer has loaded all it reserved, it holds exactly the logged items of its
      positions, whichever producer reserved them. */
  lemma ConsumerHoldsItsPositions<T>(q: Queue<T>, acts: seq<Action<T>>, t: nat)
    requires Init(q) && LegalRun(q, acts)
    requires t < |Exec(q, acts).threads| && Exec(q, acts).threads[t].Loading?
    requires |Exec(q, acts).threads[t].got| == Exec(q, acts).threads[t].elems
    ensures var r := Exec(q, acts); var p := r.threads[t];
            p.head.total + p.elems <= |r.log| && p.got == r.log[p.head.total..p.head.total + p.elems]
  {
    InitHasInv(q);
    RunKeepsInv(q, acts);
    assert PhaseOk(Exec(q, acts), Exec(q, acts).threads[t]);
  }

  // ----- Rejections and observers -----

  /** An enqueue decides by the head it read, however far other producers have moved it since,
      as long as that is less than 2^32 minus the size. So one that gives up found the queue too
      full at that moment, and with a head that is still current one that goes on found room. */
  lemma SpaceCheckDecides<T>(q: Queue<T>, t: nat)
    requires Inv(q) && Enabled(q, t) && q.threads[t].EnqHead?
    requires q.prodHead.total - q.threads[t].head.total < TWO32 - q.size
    ensures var gaveUp, n := Advance(q, t).threads[t].Idle?, |q.threads[t].items|;
            && (gaveUp <==> q.threads[t].head.total + n > q.consTail.total + q.size)
            && (gaveUp ==> q.prodHead.total + n > q.consTail.total + q.size)
            && (q.threads[t].head == q.prodHead ==> (gaveUp <==> q.prodHead.total + n > q.consTail.total + q.size))
  {
    assert PhaseOk(q, q.threads[t]);
    SpaceExact(q.size, q.consTail, q.threads[t].head);
  }

  /** A dequeue returns nothing exactly when the head it read equals producer.tail, and then
      nothing is available; with a head that is still current, exactly when nothing is. Otherwise
      it goes on with the smaller of what it sees and what it wants. */
  lemma ElemsCheckDecides<T>(q: Queue<T>, t: nat)
    requires Inv(q) && Enabled(q, t) && q.threads[t].DeqHead?
    requires q.prodTail.total - q.threads[t].head.total < TWO32
    ensures var gaveUp, seen := Advance(q, t).threads[t].Idle?, q.prodTail.total - q.threads[t].head.total;
            && (gaveUp <==> seen == 0)
            && (gaveUp ==> Available(q) == [])
            && (q.threads[t].head == q.consHead ==> (gaveUp <==> Available(q) == []))
            && (!gaveUp ==> Advance(q, t).threads[t] ==
                              DeqElems(q.threads[t].want, q.threads[t].head, Min(seen, q.threads[t].want)))
  {
    assert PhaseOk(q, q.threads[t]);
    ElemsExact(q.prodTail, q.threads[t].head);
  }

  /** `alf_queue_empty` reads consumer.tail, then, after any run of other steps,
      producer.tail. It answers true exactly when no element was ever between the two. */
  lemma EmptyObserver<T>(q: Queue<T>, acts: seq<Action<T>>)
    requires Inv(q) && LegalRun(q, acts)
    requires Exec(q, acts).prodTail.total < q.consTail.total + TWO32
    ensures var r := Exec(q, acts);
            q.consTail.word == r.prodTail.word
            <==> q.consTail.total == q.consHead.total == q.prodTail.total == r.prodTail.total
  {
    RunKeepsInv(q, acts);
    RunGrows(q, acts);
    WordsEqual(q.consTail, Exec(q, acts).prodTail);
  }

  /** `alf_queue_count`, likewise with two separate reads. */
  lemma CountObserver<T>(q: Queue<T>, acts: seq<Action<T>>)
    requires Inv(q) && LegalRun(q, acts)
    requires Exec(q, acts).prodTail.total < q.consHead.total + TWO32
    ensures ElemsWord(Exec(q, acts).prodTail.word, q.consHead.word)
            == Exec(q, acts).prodTail.total - q.consHead.total >= |Available(q)|
  {
    RunKeepsInv(q, acts);
    RunGrows(q, acts);
    ElemsExact(Exec(q, acts).prodTail, q.consHead);
  }

  /** `alf_queue_avail_space` reads producer.head first, so it never reports less than the
      space that was free at that moment. */
  lemma AvailSpaceObserver<T>(q: Queue<T>, acts: seq<Action<T>>)
    requires Inv(q) && LegalRun(q, acts)
    requires q.size + Exec(q, acts).consTail.total < q.prodHead.total + TWO32
    ensures SpaceWord(q.size, Exec(q, acts).consTail.word, q.prodHead.word)
            == q.size + Exec(q, acts).consTail.total - q.prodHead.total
            >= q.size - (q.prodHead.total - q.consTail.total)
  {
    RunKeepsInv(q, acts);
    RunGrows(q, acts);
    SpaceExact(q.size, Exec(q, acts).consTail, q.prodHead);
  }

  // ----- Every call finishes -----

  /** Some call can always move: whoever owns the first unpublished position never waits. */
  lemma SomeCallCanMove<T>(q: Queue<T>, t0: nat) returns (t: nat)
    requires Inv(q) && t0 < |q.threads| && !q.threads[t0].Idle?
    ensures Enabled(q, t)
  {
    t := t0;
    assert PhaseOk(q, q.threads[t0]);
    if q.threads[t0].Storing? {
      t := FirstOwner(ProdClaims(q.threads), q.prodTail.total, q.prodHead.total);
      assert PhaseOk(q, q.threads[t]);
    } else if q.threads[t0].Loading? {
      t := FirstOwner(ConsClaims(q.threads), q.consTail.total, q.consHead.total);
      assert PhaseOk(q, q.threads[t]);
    }
  }

  /** What a call still has to do. A call that has not reserved yet may be sent round its
      loop once more by each other call that reserves, which the constant pays for. */
  ghost function Work<T>(q: Queue<T>, p: Phase<T>): (w: nat) {
    var retry := 5 * |q.threads| + 1;
    match p {
      case Idle => 0
      case EnqStart(items) => retry + |items| + 5
      case EnqHead(items, head) => retry + |items| + (if head.total == q.prodHead.total then 4 else 7)
      case EnqSpace(items, head) => retry + |items| + (if head.total == q.prodHead.total then 3 else 6)
      case Storing(items, _, done, turn) => if done <= |items| then |items| - done + (if turn then 1 else 2) else 0
      case DeqStart(want) => retry + want + 5
      case DeqHead(want, head) => retry + want + (if head.total == q.consHead.total then 4 else 7)
      case DeqElems(want, head, _) => retry + want + (if head.total == q.consHead.total then 3 else 6)
      case Loading(_, _, elems, got, turn) => if |got| <= elems then elems - |got| + (if turn then 1 else 2) else 0
    }
  }

  ghost function Measure<T>(q: Queue<T>, n: nat): (m: nat)
    requires n <= |q.threads|
  {
    if n == 0 then 0 else Measure(q, n - 1) + Work(q, q.threads[n - 1])
  }

  lemma {:induction false} MeasureBound<T>(q: Queue<T>, r: Queue<T>, t: nat, drop: nat, bump: nat, n: nat)
    requires t < |q.threads| == |r.threads| && n <= |q.threads| && bump <= 3
    requires forall i :: 0 <= i < |q.threads| && i != t ==> Work(r, r.threads[i]) <= Work(q, q.threads[i]) + bump
    requires Work(r, r.threads[t]) + drop <= Work(q, q.threads[t])
    ensures Measure(r, n) + (if t < n then drop else 0) <= Measure(q, n) + (if bump == 0 then 0 else 3 * n)
  {
    if n > 0 {
      MeasureBound(q, r, t, drop, bump, n - 1);
    }
  }

  lemma ReserveWork<T>(q: Queue<T>, t: nat)
    requires Inv(q) && Legal(q, Step(t))
    requires (q.threads[t].EnqSpace? && q.prodHead.word == q.threads[t].head.word)
          || (q.threads[t].DeqElems? && q.consHead.word == q.threads[t].head.word)
    ensures Work(Advance(q, t), Advance(q, t).threads[t]) + 5 * |q.threads| + 1 <= Work(q, q.threads[t])
  {
    assert PhaseOk(q, q.threads[t]);
  }

  lemma OthersWork<T>(q: Queue<T>, t: nat, i: nat)
    requires Inv(q) && Legal(q, Step(t)) && i < |q.threads| && i != t
    ensures Work(Advance(q, t), q.threads[i]) <= Work(q, q.threads[i]) + 3
    ensures Advance(q, t).prodHead == q.prodHead && Advance(q, t).consHead == q.consHead
            ==> Work(Advance(q, t), q.threads[i]) == Work(q, q.threads[i])
  {
    assert PhaseOk(q, q.threads[i]);
  }

  lemma LocalWork<T>(q: Queue<T>, t: nat)
    requires Inv(q) && Legal(q, Step(t))
    requires Advance(q, t).prodHead == q.prodHead && Advance(q, t).consHead == q.consHead
    ensures Work(Advance(q, t), Advance(q, t).threads[t]) + 1 <= Work(q, q.threads[t])
  {
    var p := q.threads[t];
    assert PhaseOk(q, p);
    if p.EnqSpace? {
      WordsEqual(q.prodHead, p.head);
    } else if p.DeqElems? {
      WordsEqual(q.consHead, p.head);
    }
  }

  /** Every step of a call in progress lowers the measure. */
  lemma StepLowersMeasure<T>(q: Queue<T>, t: nat)
    requires Inv(q) && Legal(q, Step(t))
    ensures |Advance(q, t).threads| == |q.threads|
    ensures Measure(Advance(q, t), |q.threads|) < Measure(q, |q.threads|)
  {
    var r := Advance(q, t);
    forall i | 0 <= i < |q.threads| && i != t
      ensures Work(r, r.threads[i]) <= Work(q, q.threads[i]) + 3
      ensures r.prodHead == q.prodHead && r.consHead == q.consHead ==> Work(r, r.threads[i]) == Work(q, q.threads[i])
    {
      OthersWork(q, t, i);
    }
    if r.prodHead == q.prodHead && r.consHead == q.consHead {
      LocalWork(q, t);
      MeasureBound(q, r, t, 1, 0, |q.threads|);
    } else {
      ReserveWork(q, t);
      MeasureBound(q, r, t, 5 * |q.threads| + 1, 3, |q.threads|);
    }
  }

  ghost predicate NoNewCalls<T>(acts: seq<Action<T>>) {
    forall i :: 0 <= i < |acts| ==> acts[i].Step?
  }

  /** With no new calls, every schedule ends within the measure; and by `SomeCallCanMove` it
      can only end when all calls have returned. */
  lemma {:induction false} CallsFinish<T>(q: Queue<T>, acts: seq<Action<T>>)
    requires Inv(q) && LegalRun(q, acts) && NoNewCalls(acts)
    ensures |Exec(q, acts).threads| == |q.threads|
    ensures |acts| + Measure(Exec(q, acts), |q.threads|) <= Measure(q, |q.threads|)
    decreases |acts|
  {
    if acts != [] {
      StepKeepsInv(q, acts[0]);
      StepLowersMeasure(q, acts[0].t);
      CallsFinish(Next(q, acts[0]), acts[1..]);
    }
  }
}
