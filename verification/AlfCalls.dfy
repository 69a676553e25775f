/** What one call achieves, whatever the other threads do between its steps: an enqueue stores its
    whole bulk unless it met a queue too full for it, a dequeue returns the front of the queue as it
    was at some moment of the call, and nothing only if the queue was empty at such a moment. */
module AlfCalls {
  import opened Config
  import opened Words
  import opened AlfProtocol
  import opened AlfTheorems

  /** The checks of a call use the head it has read before the counters have gone round. */
  ghost predicate Timely<T>(q: Queue<T>, a: Action<T>) {
    a.Step? && a.t < |q.threads| ==>
      match q.threads[a.t] {
        case EnqHead(_, head) => q.prodHead.total - head.total < TWO32 - q.size
        case DeqHead(_, head) => q.prodTail.total - head.total < TWO32
        case _ => true
      }
  }

  /** A run from inside a call of thread `t` up to its return. */
  ghost predicate CallRun<T>(q: Queue<T>, acts: seq<Action<T>>, t: nat)
    decreases |acts|
  {
    && t < |q.threads|
    && if acts == [] then q.threads[t].Idle?
       else && !q.threads[t].Idle? && Legal(q, acts[0]) && Timely(q, acts[0])
            && CallRun(Next(q, acts[0]), acts[1..], t)
  }

  /** Where thread `t` is before the last step of the call. */
  ghost function LastPhase<T>(q: Queue<T>, acts: seq<Action<T>>, t: nat): (p: Phase<T>)
    requires CallRun(q, acts, t) && acts != []
    decreases |acts|
  {
    if |acts| == 1 then q.threads[t] else LastPhase(Next(q, acts[0]), acts[1..], t)
  }

  ghost function EndOf<T>(q: Queue<T>, acts: seq<Action<T>>, t: nat): (r: Queue<T>)
    requires CallRun(q, acts, t)
    decreases |acts|
  {
    if acts == [] then q else EndOf(Next(q, acts[0]), acts[1..], t)
  }

  lemma {:induction false} EndIsExec<T>(q: Queue<T>, acts: seq<Action<T>>, t: nat)
    requires CallRun(q, acts, t)
    ensures LegalRun(q, acts) && EndOf(q, acts, t) == Exec(q, acts)
    decreases |acts|
  {
    if acts != [] {
      EndIsExec(Next(q, acts[0]), acts[1..], t);
    }
  }

  lemma EndGrows<T>(q: Queue<T>, acts: seq<Action<T>>, t: nat)
    requires Inv(q) && CallRun(q, acts, t)
    ensures Inv(EndOf(q, acts, t)) && Grows(q, EndOf(q, acts, t))
  {
    EndIsExec(q, acts, t);
    RunKeepsInv(q, acts);
    RunGrows(q, acts);
  }

  /** The others leave a call in progress alone. */
  lemma OthersLeave<T>(q: Queue<T>, a: Action<T>, t: nat)
    requires Legal(q, a) && t < |q.threads| && !q.threads[t].Idle? && a != Step(t)
    ensures t < |Next(q, a).threads| && Next(q, a).threads[t] == q.threads[t]
  {
  }

  // ----- Enqueue -----

  ghost predicate Enqueuing<T>(p: Phase<T>, items: seq<T>) {
    match p {
      case EnqStart(xs) => xs == items
      case EnqHead(xs, _) => xs == items
      case EnqSpace(xs, _) => xs == items
      case Storing(xs, _, _, _) => xs == items
      case _ => false
    }
  }

  ghost predicate TooFull<T>(q: Queue<T>, n: nat) {
    q.prodHead.total + n > q.consTail.total + q.size
  }

  /** At some moment of the run. */
  ghost predicate SometimeFull<T>(q: Queue<T>, acts: seq<Action<T>>, n: nat)
    decreases |acts|
  {
    TooFull(q, n) || (acts != [] && Legal(q, acts[0]) && SometimeFull(Next(q, acts[0]), acts[1..], n))
  }

  lemma EnqueueStep<T>(q: Queue<T>, t: nat, items: seq<T>)
    requires Inv(q) && Legal(q, Step(t)) && Timely(q, Step(t)) && Enqueuing(q.threads[t], items)
    ensures var r, p := Advance(q, t), q.threads[t];
            var p' := r.threads[t];
            && (p'.Idle? ==> p.Storing? || TooFull(q, |items|))
            && (p'.Idle? && p.Storing? ==> r.prodTail.total == p.head.total + |items|)
            && (!p'.Idle? ==> Enqueuing(p', items))
            && (p'.Storing? ==> p'.head.total == if p.Storing? then p.head.total else |q.log|)
  {
    var p := q.threads[t];
    assert PhaseOk(q, p);
    if p.EnqHead? {
      SpaceCheckDecides(q, t);
    } else if p.EnqSpace? && q.prodHead.word == p.head.word {
      ReserveProdOrdered(q, t);
    }
  }

  /** The items are in the log at `at`, and published. */
  ghost predicate StoredAt<T>(r: Queue<T>, items: seq<T>, at: nat) {
    at + |items| <= |r.log| && at + |items| <= r.prodTail.total && r.log[at..at + |items|] == items
  }

  lemma PublishedStays<T>(q: Queue<T>, r: Queue<T>, items: seq<T>, at: nat)
    requires Grows(q, r) && StoredAt(q, items, at)
    ensures StoredAt(r, items, at)
  {
    SliceOfPrefix(q.log, r.log, at, at + |items|);
  }

  lemma PublishStores<T>(q: Queue<T>, t: nat, items: seq<T>)
    requires Inv(q) && Legal(q, Step(t)) && Timely(q, Step(t)) && Enqueuing(q.threads[t], items)
    requires q.threads[t].Storing? && Advance(q, t).threads[t].Idle?
    ensures StoredAt(Advance(q, t), items, q.threads[t].head.total)
  {
    assert PhaseOk(q, q.threads[t]);
    EnqueueStep(q, t, items);
  }

  /** One step of anyone during an enqueue. */
  lemma EnqueueOneStep<T>(q: Queue<T>, a: Action<T>, t: nat, items: seq<T>)
    requires Inv(q) && Legal(q, a) && Timely(q, a) && t < |q.threads| && Enqueuing(q.threads[t], items)
    ensures var r, p := Next(q, a), q.threads[t];
            && Inv(r) && |q.log| <= |r.log| && t < |r.threads|
            && var p' := r.threads[t];
               if p'.Idle? then (if p.Storing? then StoredAt(r, items, p.head.total) else TooFull(q, |items|))
               else Enqueuing(p', items)
                    && (p'.Storing? ==> if p.Storing? then p'.head.total == p.head.total else p'.head.total == |q.log|)
                    && (p.Storing? ==> p'.Storing?)
  {
    StepKeepsInv(q, a);
    CountersGrow1(q, a);
    if a == Step(t) {
      EnqueueStep(q, t, items);
      if Advance(q, t).threads[t].Idle? && q.threads[t].Storing? {
        PublishStores(q, t, items);
      }
    } else {
      OthersLeave(q, a, t);
    }
  }

  lemma {:induction false} EnqueueRun<T>(q: Queue<T>, acts: seq<Action<T>>, t: nat, items: seq<T>) returns (at: nat)
    requires Inv(q) && CallRun(q, acts, t) && acts != [] && Enqueuing(q.threads[t], items)
    ensures LastPhase(q, acts, t).Storing? ==> StoredAt(EndOf(q, acts, t), items, at)
    ensures LastPhase(q, acts, t).Storing? ==>
              if q.threads[t].Storing? then at == q.threads[t].head.total else |q.log| <= at
    ensures !LastPhase(q, acts, t).Storing? ==> SometimeFull(q, acts, |items|)
    decreases |acts|
  {
    EnqueueOneStep(q, acts[0], t, items);
    at := if q.threads[t].Storing? then q.threads[t].head.total else 0;
    if |acts| > 1 {
      at := EnqueueRun(Next(q, acts[0]), acts[1..], t, items);
    } else {
      assert acts[1..] == [];
    }
  }

  /** An enqueue that returns its number of elements has appended them, next to each other and in
      order, behind everything reserved before the call, and they are visible when it returns; one
      that returns 0 met, at some moment of the call, a queue in which its bulk did not fit. */
  lemma EnqueueOutcome<T>(q: Queue<T>, acts: seq<Action<T>>, t: nat, items: seq<T>) returns (at: nat)
    requires Inv(q) && Legal(q, CallEnqueue(t, items))
    requires CallRun(Next(q, CallEnqueue(t, items)), acts, t)
    ensures acts != []
    ensures var start := Next(q, CallEnqueue(t, items));
            if LastPhase(start, acts, t).Storing? then |q.log| <= at && StoredAt(EndOf(start, acts, t), items, at)
            else SometimeFull(start, acts, |items|)
  {
    StepKeepsInv(q, CallEnqueue(t, items));
    at := EnqueueRun(Next(q, CallEnqueue(t, items)), acts, t, items);
  }

  // ----- Dequeue -----

  ghost predicate Dequeuing<T>(p: Phase<T>, want: nat) {
    match p {
      case DeqStart(n) => n == want
      case DeqHead(n, _) => n == want
      case DeqElems(n, _, _) => n == want
      case Loading(n, _, _, _, _) => n == want
      case _ => false
    }
  }

  ghost predicate SometimeEmpty<T>(q: Queue<T>, acts: seq<Action<T>>)
    decreases |acts|
  {
    Inv(q) && (Available(q) == []
               || (acts != [] && Legal(q, acts[0]) && SometimeEmpty(Next(q, acts[0]), acts[1..])))
  }

  /** `got` is the front of the queue: as many elements as wanted, or all there are. */
  ghost predicate Front<T>(q: Queue<T>, want: nat, got: seq<T>)
    requires Inv(q)
  {
    1 <= |got| == Min(|Available(q)|, want) && got == Available(q)[..|got|]
  }

  ghost predicate SometimeFront<T>(q: Queue<T>, acts: seq<Action<T>>, want: nat, got: seq<T>)
    decreases |acts|
  {
    Inv(q) && (Front(q, want, got)
               || (acts != [] && Legal(q, acts[0]) && SometimeFront(Next(q, acts[0]), acts[1..], want, got)))
  }

  /** What a call past its check will return. */
  ghost predicate Returns<T>(q: Queue<T>, p: Phase<T>, log: seq<T>, got: seq<T>) {
    match p {
      case DeqElems(_, head, elems) => q.consHead.total == head.total && Slice(log, head.total, elems, got)
      case Loading(_, head, elems, _, _) => Slice(log, head.total, elems, got)
      case _ => false
    }
  }

  ghost predicate Slice<T>(log: seq<T>, at: nat, n: nat, got: seq<T>) {
    at + n <= |log| && got == log[at..at + n]
  }

  lemma DequeueStep<T>(q: Queue<T>, t: nat, want: nat)
    requires Inv(q) && Legal(q, Step(t)) && Timely(q, Step(t)) && Dequeuing(q.threads[t], want)
    ensures var r, p := Advance(q, t), q.threads[t];
            var p' := r.threads[t];
            && (p'.Idle? ==> p.Loading? || Available(q) == [])
            && (p'.Idle? && p.Loading? ==> |p.got| == p.elems)
            && (!p'.Idle? ==> Dequeuing(p', want))
            && (p'.DeqElems? ==> p.DeqHead? && p'.head == p.head && r.consHead == q.consHead
                                 && p'.elems == Min(q.prodTail.total - p.head.total, want))
            && (p'.Loading? && p.DeqElems? ==>
                  q.consHead.total == p.head.total && p'.head.total == p.head.total && p'.elems == p.elems)
            && (p'.Loading? ==> p.DeqElems? || (p.Loading? && p'.head == p.head && p'.elems == p.elems))
  {
    var p := q.threads[t];
    assert PhaseOk(q, p);
    if p.DeqHead? {
      ElemsCheckDecides(q, t);
    } else if p.DeqElems? {
      WordsEqual(q.consHead, p.head);
    }
  }

  lemma SliceOfSlice<T>(s: seq<T>, a: nat, b: nat, n: nat)
    requires a + n <= b <= |s|
    ensures s[a..b][..n] == s[a..a + n]
  {
  }

  /** A call whose check saw the queue in state `q`, and whose compare-and-swap then succeeds. */
  lemma CheckedFront<T>(q: Queue<T>, head: Counter, want: nat, log: seq<T>, got: seq<T>)
    requires Inv(q) && q.log <= log && want >= 1 && q.consHead.total == head.total
    requires q.prodTail.total > head.total
    requires Slice(log, head.total, Min(q.prodTail.total - head.total, want), got)
    ensures Front(q, want, got)
  {
    var n := |got|;
    SliceOfPrefix(q.log, log, head.total, head.total + n);
    SliceOfSlice(q.log, head.total, q.prodTail.total, n);
  }

  /** One step of anyone during a dequeue, seen from its end: what the call will return from the
      state after the step it will return from the state before, or that is the moment. */
  lemma DequeueOneStep<T>(q: Queue<T>, a: Action<T>, t: nat, want: nat, log: seq<T>, got: seq<T>)
    requires Inv(q) && Legal(q, a) && Timely(q, a) && t < |q.threads| && Dequeuing(q.threads[t], want)
    requires Next(q, a).log <= log
    ensures var r := Next(q, a);
            && Inv(r) && t < |r.threads|
            && if r.threads[t].Idle?
               then (if q.threads[t].Loading? then Returns(q, q.threads[t], log, q.threads[t].got)
                     else Available(q) == [])
               else Dequeuing(r.threads[t], want)
                    && (Returns(r, r.threads[t], log, got) ==>
                          Returns(q, q.threads[t], log, got) || Front(q, want, got))
  {
    StepKeepsInv(q, a);
    CountersGrow1(q, a);
    assert PhaseOk(q, q.threads[t]);
    if a == Step(t) {
      OwnStep(q, t, want, log, got);
    } else {
      OthersLeave(q, a, t);
    }
  }

  lemma CheckStep<T>(q: Queue<T>, t: nat, want: nat, log: seq<T>, got: seq<T>)
    requires Inv(q) && Legal(q, Step(t)) && Timely(q, Step(t)) && Dequeuing(q.threads[t], want)
    requires q.log <= log && Advance(q, t).threads[t].DeqElems?
    requires Returns(Advance(q, t), Advance(q, t).threads[t], log, got)
    ensures Front(q, want, got)
  {
    var p := q.threads[t];
    assert PhaseOk(q, p);
    DequeueStep(q, t, want);
    ElemsCheckDecides(q, t);
    CheckedFront(q, p.head, want, log, got);
  }

  lemma ReturnStep<T>(q: Queue<T>, t: nat, want: nat, log: seq<T>)
    requires Inv(q) && Legal(q, Step(t)) && Timely(q, Step(t)) && Dequeuing(q.threads[t], want)
    requires q.log <= log && Advance(q, t).threads[t].Idle? && q.threads[t].Loading?
    ensures Returns(q, q.threads[t], log, q.threads[t].got)
  {
    var p := q.threads[t];
    assert PhaseOk(q, p);
    DequeueStep(q, t, want);
    SliceOfPrefix(q.log, log, p.head.total, p.head.total + p.elems);
  }

  lemma OwnStep<T>(q: Queue<T>, t: nat, want: nat, log: seq<T>, got: seq<T>)
    requires Inv(q) && Legal(q, Step(t)) && Timely(q, Step(t)) && Dequeuing(q.threads[t], want)
    requires q.log <= log
    ensures var r := Advance(q, t);
            if r.threads[t].Idle?
            then (if q.threads[t].Loading? then Returns(q, q.threads[t], log, q.threads[t].got) else Available(q) == [])
            else Dequeuing(r.threads[t], want)
                 && (Returns(r, r.threads[t], log, got) ==>
                       Returns(q, q.threads[t], log, got) || Front(q, want, got))
  {
    var p, r := q.threads[t], Advance(q, t);
    DequeueStep(q, t, want);
    if r.threads[t].Idle? && p.Loading? {
      ReturnStep(q, t, want, log);
    } else if r.threads[t].DeqElems? && Returns(r, r.threads[t], log, got) {
      CheckStep(q, t, want, log, got);
    }
  }

  lemma {:induction false} DequeueRun<T>(q: Queue<T>, acts: seq<Action<T>>, t: nat, want: nat)
    requires Inv(q) && CallRun(q, acts, t) && acts != [] && Dequeuing(q.threads[t], want)
    ensures var last, log := LastPhase(q, acts, t), EndOf(q, acts, t).log;
            if last.Loading? then Returns(q, q.threads[t], log, last.got) || SometimeFront(q, acts, want, last.got)
            else SometimeEmpty(q, acts)
    decreases |acts|
  {
    var r, last, log := Next(q, acts[0]), LastPhase(q, acts, t), EndOf(q, acts, t).log;
    StepKeepsInv(q, acts[0]);
    EndGrows(r, acts[1..], t);
    DequeueOneStep(q, acts[0], t, want, log, if last.Loading? then last.got else []);
    if |acts| > 1 {
      DequeueRun(r, acts[1..], t, want);
    } else {
      assert acts[1..] == [];
    }
  }

  /** A dequeue that returns elements returns the front of the queue as it was at some moment of the
      call, as many as wanted or all there were; one that returns 0 met an empty queue. */
  lemma DequeueOutcome<T>(q: Queue<T>, acts: seq<Action<T>>, t: nat, want: nat)
    requires Inv(q) && Legal(q, CallDequeue(t, want))
    requires CallRun(Next(q, CallDequeue(t, want)), acts, t)
    ensures acts != []
    ensures var start := Next(q, CallDequeue(t, want));
            if LastPhase(start, acts, t).Loading?
            then SometimeFront(start, acts, want, LastPhase(start, acts, t).got)
            else SometimeEmpty(start, acts)
  {
    StepKeepsInv(q, CallDequeue(t, want));
    DequeueRun(Next(q, CallDequeue(t, want)), acts, t, want);
  }
}
