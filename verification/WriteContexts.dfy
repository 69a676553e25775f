/** The write free pool and the routines that take contexts from it and give them back, as
    they change memory in place. Each is proved to be the corresponding step, or run of
    steps, of `Completion`. */
module WriteContexts {
  import opened Options
  import opened Completion
  import opened Distinctness

  /** One uninterrupted `rdma_write`: start the item, take a context for each replica, post each. */
  function WriteCall(i: nat, takes: nat, posts: nat): (run: seq<Action>) {
    [Begin(i)] + seq(takes, _ => Take(i)) + seq(posts, _ => Post(i))
  }

  ghost predicate Reached(r: nat, s: State, run: seq<Action>, s': State) {
    LegalRun(r, s, run) && Exec(r, s, run) == s'
  }

  lemma {:induction false} ReachedNext(r: nat, s: State, run: seq<Action>, s': State, a: Action)
    requires Reached(r, s, run, s') && Enabled(r, s', a)
    ensures Reached(r, s, run + [a], Next(r, s', a))
    decreases |run|
  {
    if run == [] {
      assert LegalRun(r, Next(r, s, a), []);
    } else {
      ReachedNext(r, Next(r, s, run[0]), run[1..], s', a);
      assert (run + [a])[1..] == run[1..] + [a];
    }
  }

  class WriteEngine {
    const replicas: nat
    const elements: array<nat>
    var currNr: nat
    var ctx: map<nat, Ctx>
    var refs: map<nat, nat>
    ghost var network: set<nat>
    ghost var sends: map<nat, Send>
    ghost var gets: multiset<nat>
    ghost var puts: multiset<nat>
    ghost var begun: multiset<nat>
    ghost var freed: multiset<nat>

    ghost predicate Shaped()
      reads this
    {
      currNr <= elements.Length
    }

    ghost function Model(): (s: State)
      requires Shaped()
      reads this, elements
    {
      State(elements[..currNr], ctx, refs, network, sends, gets, puts, begun, freed)
    }

    ghost predicate Valid()
      reads this, elements
    {
      Shaped() && Inv(replicas, elements.Length, Model())
    }

    constructor (r: nat, cap: nat)
      requires r >= 1
      ensures Valid() && replicas == r && elements.Length == cap && Model() == Init(cap)
    {
      replicas := r;
      elements := new nat[cap](k => k);
      currNr := cap;
      ctx := map c | 0 <= c < cap :: Ctx(0, c, None);
      refs := map[];
      network, sends := {}, map[];
      gets, puts, begun, freed := multiset{}, multiset{}, multiset{}, multiset{};
      new;
      assert elements[..currNr] == Ids(cap);
      InitHasInv(r, cap);
    }

    /** `get_rdma_freepool`: the top of the stack, or nothing. */
    method GetFree() returns (c: Option<nat>)
      requires Shaped()
      modifies this`currNr, this`gets
      ensures Shaped() && (c.None? <==> old(currNr) == 0)
      ensures c.None? ==> Model() == old(Model())
      ensures c.Some? ==>
                var s := old(Model());
                && |s.pool| == currNr + 1 && s.pool[currNr] == c.value
                && Model() == s.(pool := s.pool[..currNr], gets := s.gets + multiset{c.value})
    {
      if currNr > 0 {
        currNr := currNr - 1;
        c := Some(elements[currNr]);
        gets := gets + multiset{elements[currNr]};
        assert elements[..currNr] == old(elements[..currNr])[..currNr];
      } else {
        c := None;
      }
    }

    /** Clear a context and `put_rdma_freepool` it; the source stops the machine when the pool is full. */
    method Release(c: nat)
      requires Shaped() && currNr < elements.Length && c in ctx
      modifies this`currNr, this`puts, this`ctx, elements
      ensures Shaped() && Model() == Return(old(Model()), c)
    {
      ctx := ctx[c := ctx[c].(item := None)];
      elements[currNr] := c;
      currNr := currNr + 1;
      puts := puts + multiset{c};
      assert elements[..currNr] == old(elements[..currNr]) + [c];
    }

    /** One pass of the replica loop: `taken` are the contexts of the earlier replicas. */
    method TakeFor(i: nat, taken: seq<nat>) returns (c: nat)
      requires Shaped() && i in sends && sends[i].ctxs == taken && currNr > 0
      modifies this`currNr, this`gets, this`ctx, this`sends
      ensures Shaped() && Model() == TakeCtx(old(Model()), i)
      ensures c == old(elements[currNr - 1]) && currNr == old(currNr) - 1
    {
      var free := GetFree();
      c := free.value;
      var prime := if |taken| != 0 then taken[0] else if c in ctx then ctx[c].prime else c;
      ctx := ctx[c := Ctx(|taken|, prime, Some(i))];
      sends := sends[i := sends[i].(ctxs := taken + [c])];
    }

    method BeginSend(i: nat)
      requires Shaped()
      modifies this`refs, this`sends, this`begun
      ensures Shaped() && Model() == BeginItem(old(Model()), i)
    {
      refs := refs[i := 0];
      sends := sends[i := Send([], 0, {})];
      begun := begun + multiset{i};
    }

    /** Hand one context to the network; the item and its contexts stay as they are. */
    method PostOne(i: nat, c: nat)
      requires Shaped() && i in sends && sends[i].posted < |sends[i].ctxs| && c == sends[i].ctxs[sends[i].posted]
      modifies this`network, this`sends
      ensures Shaped() && Model() == PostCtx(old(Model()), i)
    {
      network := network + {c};
      sends := sends[i := sends[i].(posted := sends[i].posted + 1)];
    }

    /** The replica loop of `rdma_write`, after `BeginSend` on state `s`. */
    method TakeAll(i: nat, ghost s: State) returns (taken: seq<nat>)
      requires Shaped() && i in sends && sends[i] == Send([], 0, {}) && currNr >= replicas
      requires Reached(replicas, s, WriteCall(i, 0, 0), Model())
      modifies this`currNr, this`gets, this`ctx, this`sends
      ensures Shaped() && |taken| == replicas && i in sends && sends[i] == Send(taken, 0, {})
      ensures Reached(replicas, s, WriteCall(i, replicas, 0), Model())
    {
      taken := [];
      for j := 0 to replicas
        invariant Shaped() && i in sends && sends[i] == Send(taken, 0, {}) && |taken| == j
        invariant currNr >= replicas - j
        invariant Reached(replicas, s, WriteCall(i, j, 0), Model())
      {
        ReachedNext(replicas, s, WriteCall(i, j, 0), Model(), Take(i));
        assert WriteCall(i, j + 1, 0) == WriteCall(i, j, 0) + [Take(i)];
        var c := TakeFor(i, taken);
        taken := taken + [c];
      }
    }

    method PostAll(i: nat, taken: seq<nat>, ghost s: State)
      requires Shaped() && |taken| == replicas && i in sends && sends[i] == Send(taken, 0, {})
      requires Reached(replicas, s, WriteCall(i, replicas, 0), Model())
      modifies this`network, this`sends
      ensures Shaped() && Reached(replicas, s, WriteCall(i, replicas, replicas), Model())
    {
      for j := 0 to replicas
        invariant Shaped() && i in sends && sends[i] == Send(taken, j, {})
        invariant Reached(replicas, s, WriteCall(i, replicas, j), Model())
      {
        ReachedNext(replicas, s, WriteCall(i, replicas, j), Model(), Post(i));
        assert WriteCall(i, replicas, j + 1) == WriteCall(i, replicas, j) + [Post(i)];
        PostOne(i, taken[j]);
      }
    }

    /** `rdma_write` on an item nobody is sending, with enough free contexts that it need not wait. */
    method RdmaWrite(i: nat)
      requires Valid() && i !in sends && replicas <= currNr
      modifies this
      ensures Valid() && Reached(replicas, old(Model()), WriteCall(i, replicas, replicas), Model())
    {
      ghost var s := Model();
      ReachedNext(replicas, s, [], s, Begin(i));
      assert WriteCall(i, 0, 0) == [] + [Begin(i)];
      BeginSend(i);
      var taken := TakeAll(i, s);
      PostAll(i, taken, s);
      RunKeepsInv(replicas, elements.Length, s, WriteCall(i, replicas, replicas));
    }

    method CountCompletion(c: nat, i: nat, ghost j: nat)
      requires Shaped() && i in refs && i in sends
      modifies this`refs, this`network, this`sends
      ensures Shaped() && Model() == CountDone(old(Model()), c, i, j)
    {
      refs := refs[i := refs[i] + 1];
      network := network - {c};
      sends := sends[i := sends[i].(done := sends[i].done + {j})];
    }

    method PutFreeItem(ghost i: nat)
      requires Shaped()
      modifies this`sends, this`freed
      ensures Shaped() && Model() == FreeItem(old(Model()), i)
    {
      sends := sends - {i};
      freed := freed + multiset{i};
    }

    /** The body of `write_done_postwork`: every branch is decided from the context and the item's count. */
    method HandleDone(c: nat)
      requires Shaped() && c in ctx && ctx[c].item.Some? && ctx[c].item.value in refs && ctx[c].item.value in sends
      requires ctx[c].replica != 0 ==> ctx[c].prime in ctx && ctx[c].prime != c
      requires |WriteDone(replicas, Model(), c).pool| <= elements.Length
      modifies this, elements
      ensures Shaped() && Model() == WriteDone(replicas, old(Model()), c)
    {
      var i, j, prime := ctx[c].item.value, ctx[c].replica, ctx[c].prime;
      CountCompletion(c, i, j);
      if j == 0 && refs[i] < replicas {
        return;
      }
      if refs[i] >= replicas {
        PutFreeItem(i);
        if j != 0 {
          Release(prime);
        }
      }
      Release(c);
    }

    /** A completion arrives: no push overflows the pool and the invariant is kept. */
    method WriteDonePostwork(c: nat)
      requires Valid() && c in network
      modifies this, elements
      ensures Valid() && Model() == WriteDone(replicas, old(Model()), c)
    {
      Arriving(replicas, elements.Length, Model(), c);
      PrimaryHeld(replicas, elements.Length, Model(), c);
      StepKeepsInv(replicas, elements.Length, Model(), Done(c));
      DistinctFit(WriteDone(replicas, Model(), c).pool, elements.Length);
      HandleDone(c);
    }
  }
}
