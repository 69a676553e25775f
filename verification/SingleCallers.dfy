/** The single-producer and single-consumer calls, which neither compare nor wait: on a side of
    the queue that one thread has for itself they do what the general protocol does. */
module SingleCallers {
  import opened Words
  import opened Claims
  import opened AlfProtocol
  import opened AlfTheorems

  /** Who calls on one side of the queue: one thread, with the single variant, or any thread. */
  datatype Side = Single(owner: nat) | Multi

  predicate Enqueues<T>(p: Phase<T>) {
    p.EnqStart? || p.EnqHead? || p.EnqSpace? || p.Storing?
  }

  predicate Dequeues<T>(p: Phase<T>) {
    p.DeqStart? || p.DeqHead? || p.DeqElems? || p.Loading?
  }

  /** The single variants never wait. */
  predicate CanMove<T>(prod: Side, cons: Side, q: Queue<T>, t: nat) {
    && WellSized(q) && t < |q.threads|
    && ((prod.Single? && q.threads[t].Storing?) || (cons.Single? && q.threads[t].Loading?) || Enabled(q, t))
  }

  /** One atomic step. Where a side has one caller, a head is written without being compared and
      a tail without being read. */
  function Move<T>(prod: Side, cons: Side, q: Queue<T>, t: nat): (r: Queue<T>)
    requires CanMove(prod, cons, q, t)
  {
    var p := q.threads[t];
    if prod.Single? && p.EnqSpace? then
      Enter(q, t, Storing(p.items, p.head, 0, false)).(prodHead := p.head.Plus(|p.items|), log := q.log + p.items)
    else if prod.Single? && p.Storing? && p.done >= |p.items| then
      Enter(q, t, Idle).(prodTail := p.head.Plus(|p.items|))
    else if cons.Single? && p.DeqElems? then
      Enter(q, t, Loading(p.want, p.head, p.elems, [], false)).(consHead := p.head.Plus(p.elems))
    else if cons.Single? && p.Loading? && |p.got| >= p.elems then
      Enter(q, t, Idle).(consTail := p.head.Plus(p.elems), out := q.out + p.got)
    else Advance(q, t)
  }

  /** On a single side only the owner calls, which is all the code asks of it; the hypothesis about
      2^32 positions is needed on the other kind of side only. */
  ghost predicate Allowed<T>(prod: Side, cons: Side, q: Queue<T>, a: Action<T>) {
    match a {
      case CallEnqueue(t, _) => Legal(q, a) && (prod.Single? ==> t == prod.owner)
      case CallDequeue(t, _) => Legal(q, a) && (cons.Single? ==> t == cons.owner)
      case Step(t) =>
        && CanMove(prod, cons, q, t)
        && match q.threads[t] {
             case EnqSpace(items, head) =>
               if prod.Single? then head.total + |items| <= q.consTail.total + Window(q.size)
               else NoAba(q, t) && Fits(q, t)
             case DeqElems(_, _, _) => cons.Single? || NoAba(q, t)
             case _ => true
           }
    }
  }

  ghost function After<T>(prod: Side, cons: Side, q: Queue<T>, a: Action<T>): (r: Queue<T>)
    requires Allowed(prod, cons, q, a)
  {
    if a.Step? then Move(prod, cons, q, a.t) else Next(q, a)
  }

  ghost predicate AllowedRun<T>(prod: Side, cons: Side, q: Queue<T>, acts: seq<Action<T>>)
    decreases |acts|
  {
    acts == []
    || (Allowed(prod, cons, q, acts[0]) && AllowedRun(prod, cons, After(prod, cons, q, acts[0]), acts[1..]))
  }

  ghost function End<T>(prod: Side, cons: Side, q: Queue<T>, acts: seq<Action<T>>): (r: Queue<T>)
    requires AllowedRun(prod, cons, q, acts)
    decreases |acts|
  {
    if acts == [] then q else End(prod, cons, After(prod, cons, q, acts[0]), acts[1..])
  }

  // ----- A side with one caller -----

  ghost predicate OwnEnqueue<T>(q: Queue<T>, p: Phase<T>) {
    match p {
      case EnqHead(_, head) => head == q.prodHead
      case EnqSpace(_, head) => head == q.prodHead
      case Storing(_, head, _, turn) => head == q.prodTail && !turn
      case _ => true
    }
  }

  ghost predicate OwnDequeue<T>(q: Queue<T>, p: Phase<T>) {
    match p {
      case DeqHead(_, head) => head == q.consHead
      case DeqElems(_, head, _) => head == q.consHead
      case Loading(_, head, _, _, turn) => head == q.consTail && !turn
      case _ => true
    }
  }

  /** Only the owner is inside an enqueue, with the current head, and between its stores and its
      publishing nothing else is reserved. */
  ghost predicate SoleProducer<T>(q: Queue<T>, owner: nat) {
    && (forall i :: 0 <= i < |q.threads| && i != owner ==> !Enqueues(q.threads[i]))
    && (owner < |q.threads| ==> OwnEnqueue(q, q.threads[owner]))
    && ((owner < |q.threads| && q.threads[owner].Storing?) || q.prodTail == q.prodHead)
  }

  ghost predicate SoleConsumer<T>(q: Queue<T>, owner: nat) {
    && (forall i :: 0 <= i < |q.threads| && i != owner ==> !Dequeues(q.threads[i]))
    && (owner < |q.threads| ==> OwnDequeue(q, q.threads[owner]))
    && ((owner < |q.threads| && q.threads[owner].Loading?) || q.consTail == q.consHead)
  }

  ghost predicate Alone<T>(prod: Side, cons: Side, q: Queue<T>) {
    (prod.Single? ==> SoleProducer(q, prod.owner)) && (cons.Single? ==> SoleConsumer(q, cons.owner))
  }

  // ----- Each step keeps the sides to their owners -----

  /** A step of a call on the other side. */
  lemma OtherSide<T>(prod: Side, cons: Side, q: Queue<T>, t: nat)
    requires CanMove(prod, cons, q, t)
    ensures var r := Move(prod, cons, q, t);
            && r.threads == q.threads[t := r.threads[t]]
            && (!Enqueues(q.threads[t]) ==>
                  !Enqueues(r.threads[t]) && r.prodHead == q.prodHead && r.prodTail == q.prodTail)
            && (!Dequeues(q.threads[t]) ==>
                  !Dequeues(r.threads[t]) && r.consHead == q.consHead && r.consTail == q.consTail)
  {
  }

  /** What the only producer has reserved is all that is reserved. */
  lemma StoringIsAll<T>(q: Queue<T>, t: nat)
    requires Inv(q) && SoleProducer(q, t) && t < |q.threads| && q.threads[t].Storing?
    ensures q.threads[t].head.Plus(|q.threads[t].items|) == q.prodHead
  {
    var p, claims := q.threads[t], ProdClaims(q.threads);
    assert PhaseOk(q, p);
    var x := p.head.total + |p.items|;
    assert x < q.prodHead.total ==> Covered(claims, x);
    PlusOk(p.head, |p.items|);
  }

  lemma LoadingIsAll<T>(q: Queue<T>, t: nat)
    requires Inv(q) && SoleConsumer(q, t) && t < |q.threads| && q.threads[t].Loading?
    ensures q.threads[t].head.Plus(q.threads[t].elems) == q.consHead
  {
    var p, claims := q.threads[t], ConsClaims(q.threads);
    assert PhaseOk(q, p);
    var x := p.head.total + p.elems;
    assert x < q.consHead.total ==> Covered(claims, x);
    PlusOk(p.head, p.elems);
  }

  lemma ProducerMove<T>(prod: Side, cons: Side, q: Queue<T>)
    requires Inv(q) && prod.Single? && SoleProducer(q, prod.owner) && CanMove(prod, cons, q, prod.owner)
    requires Enqueues(q.threads[prod.owner])
    ensures SoleProducer(Move(prod, cons, q, prod.owner), prod.owner)
  {
    var t := prod.owner;
    assert PhaseOk(q, q.threads[t]);
    OtherSide(prod, cons, q, t);
    if q.threads[t].Storing? {
      StoringIsAll(q, t);
    }
  }

  lemma ConsumerMove<T>(prod: Side, cons: Side, q: Queue<T>)
    requires Inv(q) && cons.Single? && SoleConsumer(q, cons.owner) && CanMove(prod, cons, q, cons.owner)
    requires Dequeues(q.threads[cons.owner])
    ensures SoleConsumer(Move(prod, cons, q, cons.owner), cons.owner)
  {
    var t := cons.owner;
    assert PhaseOk(q, q.threads[t]);
    OtherSide(prod, cons, q, t);
    if q.threads[t].Loading? {
      LoadingIsAll(q, t);
    }
  }

  lemma StepKeepsProducer<T>(prod: Side, cons: Side, q: Queue<T>, a: Action<T>)
    requires Inv(q) && prod.Single? && SoleProducer(q, prod.owner) && Allowed(prod, cons, q, a)
    ensures SoleProducer(After(prod, cons, q, a), prod.owner)
  {
    if a.Step? {
      if Enqueues(q.threads[a.t]) {
        ProducerMove(prod, cons, q);
      } else {
        OtherSide(prod, cons, q, a.t);
      }
    }
  }

  lemma StepKeepsConsumer<T>(prod: Side, cons: Side, q: Queue<T>, a: Action<T>)
    requires Inv(q) && cons.Single? && SoleConsumer(q, cons.owner) && Allowed(prod, cons, q, a)
    ensures SoleConsumer(After(prod, cons, q, a), cons.owner)
  {
    if a.Step? {
      if Dequeues(q.threads[a.t]) {
        ConsumerMove(prod, cons, q);
      } else {
        OtherSide(prod, cons, q, a.t);
      }
    }
  }

  // ----- The single calls refine the general protocol -----

  /** One step of the general protocol, or for publishing two: reading the tail and writing it. */
  ghost function General<T>(prod: Side, cons: Side, q: Queue<T>, a: Action<T>): (acts: seq<Action<T>>)
    requires Allowed(prod, cons, q, a)
  {
    if a.Step? && ((prod.Single? && q.threads[a.t].Storing? && q.threads[a.t].done >= |q.threads[a.t].items|)
                   || (cons.Single? && q.threads[a.t].Loading? && |q.threads[a.t].got| >= q.threads[a.t].elems))
    then [a, a] else [a]
  }

  lemma ReservesAsGeneral<T>(prod: Side, cons: Side, q: Queue<T>, t: nat)
    requires Inv(q) && Alone(prod, cons, q) && Allowed(prod, cons, q, Step(t))
    requires (prod.Single? && q.threads[t].EnqSpace?) || (cons.Single? && q.threads[t].DeqElems?)
    ensures Legal(q, Step(t)) && Advance(q, t) == Move(prod, cons, q, t)
  {
    assert PhaseOk(q, q.threads[t]);
    assert q.threads[t].EnqSpace? ==> t == prod.owner;
    assert q.threads[t].DeqElems? ==> t == cons.owner;
  }

  lemma PublishesAsGeneral<T>(prod: Side, cons: Side, q: Queue<T>, t: nat)
    requires Inv(q) && prod.Single? && SoleProducer(q, prod.owner) && Allowed(prod, cons, q, Step(t))
    requires q.threads[t].Storing? && q.threads[t].done >= |q.threads[t].items|
    ensures Legal(q, Step(t)) && Legal(Advance(q, t), Step(t))
    ensures Advance(Advance(q, t), t) == Move(prod, cons, q, t)
  {
    var p := q.threads[t];
    assert Enqueues(p) && PhaseOk(q, p);
    var ready := Storing(p.items, p.head, p.done, true);
    assert Advance(q, t) == Enter(q, t, ready);
    assert q.threads[t := ready][t := Idle] == q.threads[t := Idle];
  }

  lemma ReleasesAsGeneral<T>(prod: Side, cons: Side, q: Queue<T>, t: nat)
    requires Inv(q) && cons.Single? && SoleConsumer(q, cons.owner) && Allowed(prod, cons, q, Step(t))
    requires q.threads[t].Loading? && |q.threads[t].got| >= q.threads[t].elems
    ensures Legal(q, Step(t)) && Legal(Advance(q, t), Step(t))
    ensures Advance(Advance(q, t), t) == Move(prod, cons, q, t)
  {
    var p := q.threads[t];
    assert Dequeues(p) && PhaseOk(q, p);
    var ready := Loading(p.want, p.head, p.elems, p.got, true);
    assert Advance(q, t) == Enter(q, t, ready);
    assert q.threads[t := ready][t := Idle] == q.threads[t := Idle];
  }

  lemma OneStep<T>(q: Queue<T>, a: Action<T>)
    requires Legal(q, a)
    ensures LegalRun(q, [a]) && Exec(q, [a]) == Next(q, a)
  {
    assert [a][1..] == [];
  }

  lemma TwoSteps<T>(q: Queue<T>, a: Action<T>)
    requires Legal(q, a) && Legal(Next(q, a), a)
    ensures LegalRun(q, [a, a]) && Exec(q, [a, a]) == Next(Next(q, a), a)
  {
    assert [a, a][1..] == [a];
    OneStep(Next(q, a), a);
  }

  lemma StepIsGeneral<T>(prod: Side, cons: Side, q: Queue<T>, a: Action<T>)
    requires Inv(q) && Alone(prod, cons, q) && Allowed(prod, cons, q, a)
    ensures LegalRun(q, General(prod, cons, q, a)) && Exec(q, General(prod, cons, q, a)) == After(prod, cons, q, a)
  {
    if General(prod, cons, q, a) == [a, a] {
      if q.threads[a.t].Storing? {
        PublishesAsGeneral(prod, cons, q, a.t);
      } else {
        ReleasesAsGeneral(prod, cons, q, a.t);
      }
      TwoSteps(q, a);
    } else {
      if a.Step? && ((prod.Single? && q.threads[a.t].EnqSpace?) || (cons.Single? && q.threads[a.t].DeqElems?)) {
        ReservesAsGeneral(prod, cons, q, a.t);
      }
      OneStep(q, a);
    }
  }

  lemma {:induction false} RunAppend<T>(q: Queue<T>, acts: seq<Action<T>>, more: seq<Action<T>>)
    requires LegalRun(q, acts) && LegalRun(Exec(q, acts), more)
    ensures LegalRun(q, acts + more) && Exec(q, acts + more) == Exec(Exec(q, acts), more)
    decreases |acts|
  {
    if acts == [] {
      assert acts + more == more;
    } else {
      RunAppend(Next(q, acts[0]), acts[1..], more);
      assert (acts + more)[1..] == acts[1..] + more;
    }
  }

  lemma StepKeepsAlone<T>(prod: Side, cons: Side, q: Queue<T>, a: Action<T>)
    requires Inv(q) && Alone(prod, cons, q) && Allowed(prod, cons, q, a)
    ensures Inv(After(prod, cons, q, a)) && Alone(prod, cons, After(prod, cons, q, a))
  {
    StepIsGeneral(prod, cons, q, a);
    RunKeepsInv(q, General(prod, cons, q, a));
    if prod.Single? {
      StepKeepsProducer(prod, cons, q, a);
    }
    if cons.Single? {
      StepKeepsConsumer(prod, cons, q, a);
    }
  }

  /** Every run with the single variants is a run of the general protocol, step by step. */
  lemma {:induction false} SingleRefinesGeneral<T>(prod: Side, cons: Side, q: Queue<T>, acts: seq<Action<T>>)
    returns (general: seq<Action<T>>)
    requires Inv(q) && Alone(prod, cons, q) && AllowedRun(prod, cons, q, acts)
    ensures LegalRun(q, general) && Exec(q, general) == End(prod, cons, q, acts)
    ensures Alone(prod, cons, End(prod, cons, q, acts))
    decreases |acts|
  {
    if acts == [] {
      general := [];
    } else {
      StepIsGeneral(prod, cons, q, acts[0]);
      StepKeepsAlone(prod, cons, q, acts[0]);
      var rest := SingleRefinesGeneral(prod, cons, After(prod, cons, q, acts[0]), acts[1..]);
      RunAppend(q, General(prod, cons, q, acts[0]), rest);
      general := General(prod, cons, q, acts[0]) + rest;
    }
  }

  /** FIFO for the single variants, with one producer, one consumer or both running concurrently
      with everything on the other side. */
  lemma SingleFifo<T>(prod: Side, cons: Side, q: Queue<T>, acts: seq<Action<T>>) returns (general: seq<Action<T>>)
    requires Init(q) && AllowedRun(prod, cons, q, acts)
    ensures Inv(q) && LegalRun(q, general)
    ensures var r := End(prod, cons, q, acts);
            && Inv(r) && Alone(prod, cons, r)
            && r.out <= TakenBy(q, general) <= PutBy(q, general) <= r.log
            && PutBy(q, general) == TakenBy(q, general) + Available(r)
  {
    InitHasInv(q);
    general := SingleRefinesGeneral(prod, cons, q, acts);
    FifoOrder(q, general);
  }

  /** What the single calls assert, after every run: the head a reserving call has read is still
      there, so a compare-and-swap could not fail, and the tail it will overwrite is where its own
      reservation begins, so there is nothing to wait for. */
  lemma AssertionsHold<T>(prod: Side, cons: Side, q: Queue<T>, acts: seq<Action<T>>, t: nat)
    requires Init(q) && AllowedRun(prod, cons, q, acts) && t < |End(prod, cons, q, acts).threads|
    ensures var r := End(prod, cons, q, acts); var p := r.threads[t];
            && (prod.Single? && p.EnqSpace? ==> r.prodHead == p.head)
            && (prod.Single? && p.Storing? ==> r.prodTail == p.head && r.prodHead == p.head.Plus(|p.items|))
            && (cons.Single? && p.DeqElems? ==> r.consHead == p.head)
            && (cons.Single? && p.Loading? ==> r.consTail == p.head && r.consHead == p.head.Plus(p.elems))
  {
    var general := SingleFifo(prod, cons, q, acts);
    var r := End(prod, cons, q, acts);
    if prod.Single? && Enqueues(r.threads[t]) {
      if r.threads[t].Storing? {
        StoringIsAll(r, t);
      }
    } else if cons.Single? && Dequeues(r.threads[t]) {
      if r.threads[t].Loading? {
        LoadingIsAll(r, t);
      }
    }
  }
}
