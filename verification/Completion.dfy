/** Replicated writes: contexts taken from the free pool, one per replica, the primary
    owning the DMA buffer all replicas send from, and completions arriving in any order. */
module Completion {
  import opened Options
  import opened Distinctness

  /** What a write context remembers: its replica number, the primary whose buffer it
      sends from, and the item being sent. */
  datatype Ctx = Ctx(replica: nat, prime: nat, item: Option<nat>)

  /** One `rdma_write` call and what has become of it: the contexts it took, how many of
      them it has posted, and which positions have completed. */
  datatype Send = Send(ctxs: seq<nat>, posted: nat, done: set<nat>)

  /** `pool` is the stack of free contexts, `network` the contexts posted and not completed,
      `refs` the completion count of each item. `gets`, `puts`, `begun` and `freed` are
      histories: every pop and push of the pool, every item started and every item freed. */
  datatype State = State(
    pool: seq<nat>, ctx: map<nat, Ctx>, refs: map<nat, nat>, network: set<nat>,
    sends: map<nat, Send>,
    gets: multiset<nat>, puts: multiset<nat>, begun: multiset<nat>, freed: multiset<nat>)

  datatype Action = Begin(item: nat) | Take(item: nat) | Post(item: nat) | Done(c: nat)

  /** `Take` waits for a free context, so with an empty pool it is not enabled. */
  predicate Enabled(r: nat, s: State, a: Action) {
    match a
    case Begin(i) => i !in s.sends
    case Take(i) => i in s.sends && |s.sends[i].ctxs| < r && s.pool != []
    case Post(i) => i in s.sends && |s.sends[i].ctxs| == r && s.sends[i].posted < r
    case Done(c) => c in s.network
  }

  function BeginItem(s: State, i: nat): State {
    s.(refs := s.refs[i := 0], sends := s.sends[i := Send([], 0, {})], begun := s.begun + multiset{i})
  }

  function TakeCtx(s: State, i: nat): State
    requires i in s.sends && s.pool != []
  {
    var c := s.pool[|s.pool| - 1];
    var send := s.sends[i];
    var prime := if send.ctxs == [] then (if c in s.ctx then s.ctx[c].prime else c) else send.ctxs[0];
    s.(pool := s.pool[..|s.pool| - 1],
       ctx := s.ctx[c := Ctx(|send.ctxs|, prime, Some(i))],
       sends := s.sends[i := send.(ctxs := send.ctxs + [c])],
       gets := s.gets + multiset{c})
  }

  function PostCtx(s: State, i: nat): State
    requires i in s.sends && s.sends[i].posted < |s.sends[i].ctxs|
  {
    var send := s.sends[i];
    s.(network := s.network + {send.ctxs[send.posted]}, sends := s.sends[i := send.(posted := send.posted + 1)])
  }

  /** Clear a context and push it on the pool. */
  function Return(s: State, c: nat): State
    requires c in s.ctx
  {
    s.(ctx := s.ctx[c := s.ctx[c].(item := None)], pool := s.pool + [c], puts := s.puts + multiset{c})
  }

  /** Count the completion of position `j` of item `i`. */
  function CountDone(s: State, c: nat, i: nat, j: nat): State
    requires i in s.sends && i in s.refs
  {
    s.(network := s.network - {c}, refs := s.refs[i := s.refs[i] + 1],
       sends := s.sends[i := s.sends[i].(done := s.sends[i].done + {j})])
  }

  function FreeItem(s: State, i: nat): State {
    s.(sends := s.sends - {i}, freed := s.freed + multiset{i})
  }

  /** The completion handler, which decides from the context's own fields and the item's count.
      Its null checks leave the state alone; `PrimaryHeld` shows that a primary is never missing. */
  function WriteDone(r: nat, s: State, c: nat): State {
    if c !in s.ctx || s.ctx[c].item.None? then s
    else
      var i, j, prime := s.ctx[c].item.value, s.ctx[c].replica, s.ctx[c].prime;
      if i !in s.sends || i !in s.refs then s
      else
        var s1 := CountDone(s, c, i, j);
        if s1.refs[i] < r then (if j == 0 then s1 else Return(s1, c))
        else
          var s2 := FreeItem(s1, i);
          if j == 0 then Return(s2, c)
          else if prime !in s.ctx then s
          else Return(Return(s2, prime), c)
  }

  function Next(r: nat, s: State, a: Action): State
    requires Enabled(r, s, a)
  {
    match a
    case Begin(i) => BeginItem(s, i)
    case Take(i) => TakeCtx(s, i)
    case Post(i) => PostCtx(s, i)
    case Done(c) => WriteDone(r, s, c)
  }

  ghost predicate LegalRun(r: nat, s: State, run: seq<Action>)
    decreases |run|
  {
    run == [] || (Enabled(r, s, run[0]) && LegalRun(r, Next(r, s, run[0]), run[1..]))
  }

  ghost function Exec(r: nat, s: State, run: seq<Action>): State
    requires LegalRun(r, s, run)
    decreases |run|
  {
    if run == [] then s else Exec(r, Next(r, s, run[0]), run[1..])
  }

  function Ids(cap: nat): (s: seq<nat>)
    ensures |s| == cap && forall k :: 0 <= k < cap ==> s[k] == k
  {
    seq(cap, k requires 0 <= k < cap => k)
  }

  function Init(cap: nat): State {
    State(Ids(cap), map c | 0 <= c < cap :: Ctx(0, c, None), map[], {}, map[],
          multiset{}, multiset{}, multiset{}, multiset{})
  }

  // ------------------------------------------------------------------ invariant

  /** Position `j` of a send still holds its context: every position taken and not completed,
      and the primary until the item is freed. */
  ghost predicate Owns(send: Send, j: nat) {
    j < |send.ctxs| && (j == 0 || j !in send.done)
  }

  ghost predicate PoolOk(cap: nat, s: State) {
    && Distinct(s.pool)
    && (forall c: nat :: c in s.ctx <==> c < cap)
    && (forall c :: c in s.pool ==> c in s.ctx)
    && forall c :: c in s.ctx ==> (c in s.pool <==> s.ctx[c].item.None?)
  }

  /** A context that names an item is the one the item's send holds at that position. */
  ghost predicate CtxOk(s: State) {
    forall c :: c in s.ctx && s.ctx[c].item.Some? ==>
      var i := s.ctx[c].item.value;
      i in s.sends && Owns(s.sends[i], s.ctx[c].replica) && s.sends[i].ctxs[s.ctx[c].replica] == c
  }

  ghost predicate Holds(s: State, i: nat, send: Send, j: nat)
    requires j < |send.ctxs|
  {
    var c := send.ctxs[j];
    && c in s.ctx && s.ctx[c].item == Some(i) && s.ctx[c].replica == j
    && (j > 0 ==> s.ctx[c].prime == send.ctxs[0])
    && (c in s.network <==> j < send.posted && j !in send.done)
  }

  ghost predicate SendOk(r: nat, s: State, i: nat, send: Send) {
    && send.posted <= |send.ctxs| <= r && (send.posted > 0 ==> |send.ctxs| == r)
    && (forall j :: j in send.done ==> j < send.posted)
    && i in s.refs && s.refs[i] == |send.done| < r
    && forall j :: 0 <= j < |send.ctxs| && Owns(send, j) ==> Holds(s, i, send, j)
  }

  ghost predicate SendsOk(r: nat, s: State) {
    forall i :: i in s.sends ==> SendOk(r, s, i, s.sends[i])
  }

  ghost predicate NetworkOk(s: State) {
    forall c :: c in s.network ==> c in s.ctx && s.ctx[c].item.Some?
  }

  ghost predicate Inv(r: nat, cap: nat, s: State) {
    r >= 1 && PoolOk(cap, s) && CtxOk(s) && SendsOk(r, s) && NetworkOk(s)
  }

  lemma BeginKeepsInv(r: nat, cap: nat, s: State, i: nat)
    requires Inv(r, cap, s) && i !in s.sends
    ensures Inv(r, cap, BeginItem(s, i))
  {
  }

  lemma TakeKeepsInv(r: nat, cap: nat, s: State, i: nat)
    requires Inv(r, cap, s) && Enabled(r, s, Take(i))
    ensures Inv(r, cap, TakeCtx(s, i))
  {
    var c := s.pool[|s.pool| - 1];
    var s' := TakeCtx(s, i);
    assert c in s.pool && c !in s'.pool;
    assert forall d :: d in s'.pool <==> d in s.pool && d != c;
    forall k | k in s'.sends
      ensures SendOk(r, s', k, s'.sends[k])
    {
      assert SendOk(r, s, k, s.sends[k]);
      forall j | 0 <= j < |s'.sends[k].ctxs| && Owns(s'.sends[k], j)
        ensures Holds(s', k, s'.sends[k], j)
      {
        if j < |s.sends[k].ctxs| {
          assert Owns(s.sends[k], j) && Holds(s, k, s.sends[k], j);
        }
        if |s.sends[k].ctxs| > 0 {
          assert Owns(s.sends[k], 0) && Holds(s, k, s.sends[k], 0);
        }
      }
    }
  }

  lemma PostKeepsInv(r: nat, cap: nat, s: State, i: nat)
    requires Inv(r, cap, s) && Enabled(r, s, Post(i))
    ensures Inv(r, cap, PostCtx(s, i))
  {
    var send := s.sends[i];
    var s' := PostCtx(s, i);
    var c := send.ctxs[send.posted];
    assert Owns(send, send.posted) && Holds(s, i, send, send.posted);
    forall k | k in s'.sends
      ensures SendOk(r, s', k, s'.sends[k])
    {
      assert SendOk(r, s, k, s.sends[k]);
      forall j | 0 <= j < |s'.sends[k].ctxs| && Owns(s'.sends[k], j)
        ensures Holds(s', k, s'.sends[k], j)
      {
        assert Owns(s.sends[k], j) && Holds(s, k, s.sends[k], j);
      }
    }
  }

  /** What the invariant says about a context whose completion arrives. */
  lemma Arriving(r: nat, cap: nat, s: State, c: nat)
    requires Inv(r, cap, s) && c in s.network
    ensures c in s.ctx && s.ctx[c].item.Some? && c !in s.pool
    ensures var i, j := s.ctx[c].item.value, s.ctx[c].replica;
            && i in s.sends && i in s.refs && SendOk(r, s, i, s.sends[i])
            && j < s.sends[i].posted && |s.sends[i].ctxs| == r && s.sends[i].ctxs[j] == c
            && j !in s.sends[i].done && s.refs[i] == |s.sends[i].done|
  {
    var i, j := s.ctx[c].item.value, s.ctx[c].replica;
    assert SendOk(r, s, i, s.sends[i]);
    assert Holds(s, i, s.sends[i], j);
  }

  /** The primary of a posted replica still belongs to the item and is not free. */
  lemma PrimaryHeld(r: nat, cap: nat, s: State, c: nat)
    requires Inv(r, cap, s) && c in s.network
    ensures c in s.ctx && s.ctx[c].item.Some? && s.ctx[c].item.value in s.sends
    ensures s.ctx[c].replica > 0 ==>
              var p := s.ctx[c].prime;
              && p in s.ctx && p !in s.pool && p != c
              && s.ctx[p].item == s.ctx[c].item && s.ctx[p].replica == 0
              && s.sends[s.ctx[c].item.value].ctxs[..1] == [p]
  {
    Arriving(r, cap, s, c);
    var i, j := s.ctx[c].item.value, s.ctx[c].replica;
    var send := s.sends[i];
    assert Owns(send, j) && Holds(s, i, send, j);
    assert Owns(send, 0) && Holds(s, i, send, 0);
  }

  /** The other sends do not notice changes to contexts that hold item `i`. */
  lemma OthersKeep(r: nat, s: State, s': State, i: nat, k: nat)
    requires k in s.sends && k != i && SendOk(r, s, k, s.sends[k])
    requires k in s'.refs && s'.refs[k] == s.refs[k] && s'.ctx.Keys == s.ctx.Keys
    requires forall d :: d in s.ctx && s.ctx[d].item != Some(i) ==>
               s'.ctx[d] == s.ctx[d] && (d in s'.network <==> d in s.network)
    ensures SendOk(r, s', k, s.sends[k])
  {
    var send := s.sends[k];
    forall j | 0 <= j < |send.ctxs| && Owns(send, j)
      ensures Holds(s', k, send, j)
    {
      assert Holds(s, k, send, j);
    }
  }

  /** A completion that is not the last one. */
  lemma EarlyDoneKeepsSends(r: nat, cap: nat, s: State, c: nat)
    requires Inv(r, cap, s) && c in s.network
    requires c in s.ctx && s.ctx[c].item.Some? && s.ctx[c].item.value in s.refs
    requires s.refs[s.ctx[c].item.value] + 1 < r
    ensures SendsOk(r, WriteDone(r, s, c))
  {
    Arriving(r, cap, s, c);
    var i, j := s.ctx[c].item.value, s.ctx[c].replica;
    var send := s.sends[i];
    var s' := WriteDone(r, s, c);
    forall k | k in s'.sends
      ensures SendOk(r, s', k, s'.sends[k])
    {
      if k != i {
        OthersKeep(r, s, s', i, k);
      } else {
        forall m | 0 <= m < |send.ctxs| && Owns(s'.sends[i], m)
          ensures Holds(s', i, s'.sends[i], m)
        {
          assert Owns(send, m) && Holds(s, i, send, m);
        }
      }
    }
  }

  lemma EarlyDoneKeepsPool(r: nat, cap: nat, s: State, c: nat)
    requires Inv(r, cap, s) && c in s.network
    requires c in s.ctx && s.ctx[c].item.Some? && s.ctx[c].item.value in s.refs
    requires s.refs[s.ctx[c].item.value] + 1 < r
    ensures PoolOk(cap, WriteDone(r, s, c)) && NetworkOk(WriteDone(r, s, c))
  {
    Arriving(r, cap, s, c);
  }

  lemma EarlyDoneKeepsCtx(r: nat, cap: nat, s: State, c: nat)
    requires Inv(r, cap, s) && c in s.network
    requires c in s.ctx && s.ctx[c].item.Some? && s.ctx[c].item.value in s.refs
    requires s.refs[s.ctx[c].item.value] + 1 < r
    ensures CtxOk(WriteDone(r, s, c))
  {
    Arriving(r, cap, s, c);
  }

  lemma EarlyDoneKeepsInv(r: nat, cap: nat, s: State, c: nat)
    requires Inv(r, cap, s) && c in s.network
    requires c in s.ctx && s.ctx[c].item.Some? && s.ctx[c].item.value in s.refs
    requires s.refs[s.ctx[c].item.value] + 1 < r
    ensures Inv(r, cap, WriteDone(r, s, c))
  {
    EarlyDoneKeepsSends(r, cap, s, c);
    EarlyDoneKeepsPool(r, cap, s, c);
    EarlyDoneKeepsCtx(r, cap, s, c);
  }

  /** At the last completion only the arriving context and the primary are still held. */
  lemma LastHolders(r: nat, cap: nat, s: State, c: nat, d: nat)
    requires Inv(r, cap, s) && c in s.network && d in s.ctx
    requires c in s.ctx && s.ctx[c].item.Some? && s.ctx[c].item.value in s.refs
    requires s.refs[s.ctx[c].item.value] + 1 >= r
    requires s.ctx[d].item == s.ctx[c].item
    ensures d == c || (s.ctx[c].replica > 0 && d == s.ctx[c].prime)
  {
    Arriving(r, cap, s, c);
    PrimaryHeld(r, cap, s, c);
    var i, j := s.ctx[c].item.value, s.ctx[c].replica;
    var send := s.sends[i];
    FillsRange(send.done + {j}, r);
    assert Owns(send, s.ctx[d].replica) && send.ctxs[s.ctx[d].replica] == d;
  }

  lemma LastDoneKeepsSends(r: nat, cap: nat, s: State, c: nat)
    requires Inv(r, cap, s) && c in s.network
    requires c in s.ctx && s.ctx[c].item.Some? && s.ctx[c].item.value in s.refs
    requires s.refs[s.ctx[c].item.value] + 1 >= r
    ensures SendsOk(r, WriteDone(r, s, c))
  {
    Arriving(r, cap, s, c);
    PrimaryHeld(r, cap, s, c);
    var i := s.ctx[c].item.value;
    var s' := WriteDone(r, s, c);
    forall k | k in s'.sends
      ensures SendOk(r, s', k, s'.sends[k])
    {
      OthersKeep(r, s, s', i, k);
    }
  }

  lemma LastDoneKeepsPool(r: nat, cap: nat, s: State, c: nat)
    requires Inv(r, cap, s) && c in s.network
    requires c in s.ctx && s.ctx[c].item.Some? && s.ctx[c].item.value in s.refs
    requires s.refs[s.ctx[c].item.value] + 1 >= r
    ensures PoolOk(cap, WriteDone(r, s, c))
  {
    Arriving(r, cap, s, c);
    PrimaryHeld(r, cap, s, c);
  }

  lemma LastDoneKeepsCtx(r: nat, cap: nat, s: State, c: nat)
    requires Inv(r, cap, s) && c in s.network
    requires c in s.ctx && s.ctx[c].item.Some? && s.ctx[c].item.value in s.refs
    requires s.refs[s.ctx[c].item.value] + 1 >= r
    ensures CtxOk(WriteDone(r, s, c))
  {
    Arriving(r, cap, s, c);
    PrimaryHeld(r, cap, s, c);
    forall d | d in s.ctx && s.ctx[d].item == s.ctx[c].item
      ensures d == c || (s.ctx[c].replica > 0 && d == s.ctx[c].prime)
    {
      LastHolders(r, cap, s, c, d);
    }
  }

  lemma LastDoneKeepsInv(r: nat, cap: nat, s: State, c: nat)
    requires Inv(r, cap, s) && c in s.network
    requires c in s.ctx && s.ctx[c].item.Some? && s.ctx[c].item.value in s.refs
    requires s.refs[s.ctx[c].item.value] + 1 >= r
    ensures Inv(r, cap, WriteDone(r, s, c))
  {
    LastDoneKeepsSends(r, cap, s, c);
    LastDoneKeepsPool(r, cap, s, c);
    LastDoneKeepsCtx(r, cap, s, c);
    LastDoneKeepsNetwork(r, cap, s, c);
  }

  lemma LastDoneKeepsNetwork(r: nat, cap: nat, s: State, c: nat)
    requires Inv(r, cap, s) && c in s.network
    requires c in s.ctx && s.ctx[c].item.Some? && s.ctx[c].item.value in s.refs
    requires s.refs[s.ctx[c].item.value] + 1 >= r
    ensures NetworkOk(WriteDone(r, s, c))
  {
    Arriving(r, cap, s, c);
    PrimaryHeld(r, cap, s, c);
    if s.ctx[c].replica > 0 {
      PrimaryDone(r, cap, s, c);
    }
  }

  /** At the last completion, if a replica arrives, the primary has completed before. */
  lemma PrimaryDone(r: nat, cap: nat, s: State, c: nat)
    requires Inv(r, cap, s) && c in s.network
    requires c in s.ctx && s.ctx[c].item.Some? && s.ctx[c].item.value in s.refs
    requires s.refs[s.ctx[c].item.value] + 1 >= r && s.ctx[c].replica > 0
    ensures s.ctx[c].prime !in s.network
  {
    Arriving(r, cap, s, c);
    PrimaryHeld(r, cap, s, c);
    var i, j := s.ctx[c].item.value, s.ctx[c].replica;
    var send := s.sends[i];
    FillsRange(send.done + {j}, r);
    assert Owns(send, 0) && Holds(s, i, send, 0);
  }

  lemma StepKeepsInv(r: nat, cap: nat, s: State, a: Action)
    requires Inv(r, cap, s) && Enabled(r, s, a)
    ensures Inv(r, cap, Next(r, s, a))
  {
    match a
    case Begin(i) => BeginKeepsInv(r, cap, s, i);
    case Take(i) => TakeKeepsInv(r, cap, s, i);
    case Post(i) =>
      assert SendOk(r, s, i, s.sends[i]);
      PostKeepsInv(r, cap, s, i);
    case Done(c) =>
      Arriving(r, cap, s, c);
      if s.refs[s.ctx[c].item.value] + 1 < r {
        EarlyDoneKeepsInv(r, cap, s, c);
      } else {
        LastDoneKeepsInv(r, cap, s, c);
      }
  }

  lemma InitHasInv(r: nat, cap: nat)
    requires r >= 1
    ensures Inv(r, cap, Init(cap))
  {
    var s := Init(cap);
    forall c | c in s.ctx
      ensures c in s.pool
    {
      assert s.pool[c] == c;
    }
    assert forall c: nat :: c in s.ctx <==> c < cap;
    assert forall c :: c in s.pool ==> c in s.ctx;
  }

  lemma {:induction false} RunKeepsInv(r: nat, cap: nat, s: State, run: seq<Action>)
    requires Inv(r, cap, s) && LegalRun(r, s, run)
    ensures Inv(r, cap, Exec(r, s, run))
    decreases |run|
  {
    if run != [] {
      StepKeepsInv(r, cap, s, run[0]);
      RunKeepsInv(r, cap, Next(r, s, run[0]), run[1..]);
    }
  }

  // ------------------------------------------------------------------ theorems

  /** Contexts and items as ledgers: what is in the pool plus all that was taken is the
      initial stock plus all that was returned; an item is freed once for each start,
      except those still being sent. */
  ghost predicate Ledger(cap: nat, s: State) {
    && multiset(s.pool) + s.gets == multiset(Ids(cap)) + s.puts
    && s.begun == s.freed + multiset(s.sends.Keys)
  }

  lemma StepKeepsLedger(r: nat, cap: nat, s: State, a: Action)
    requires Inv(r, cap, s) && Enabled(r, s, a) && Ledger(cap, s)
    ensures Ledger(cap, Next(r, s, a))
  {
    match a
    case Begin(i) =>
    case Take(i) =>
      PopBag(s.pool);
      assert TakeCtx(s, i).sends.Keys == s.sends.Keys;
    case Post(i) =>
      assert SendOk(r, s, i, s.sends[i]);
      assert PostCtx(s, i).sends.Keys == s.sends.Keys;
    case Done(c) =>
      DoneKeepsContexts(r, cap, s, c);
      DoneKeepsItems(r, cap, s, c);
  }

  lemma PushBag(pool: seq<nat>, c: nat)
    ensures multiset(pool + [c]) == multiset(pool) + multiset{c}
  {
  }

  lemma BagShift(pool: multiset<nat>, gets: multiset<nat>, stock: multiset<nat>, puts: multiset<nat>, c: nat)
    requires pool + gets == stock + puts
    ensures (pool + multiset{c}) + gets == stock + (puts + multiset{c})
  {
    assert (pool + multiset{c}) + gets == (pool + gets) + multiset{c};
    assert stock + (puts + multiset{c}) == (stock + puts) + multiset{c};
  }

  lemma SetBag(keys: set<nat>, i: nat)
    requires i in keys
    ensures multiset(keys) == multiset(keys - {i}) + multiset{i}
  {
    assert keys == (keys - {i}) + {i};
  }

  lemma DoneKeepsContexts(r: nat, cap: nat, s: State, c: nat)
    requires Inv(r, cap, s) && c in s.network && multiset(s.pool) + s.gets == multiset(Ids(cap)) + s.puts
    ensures var s' := WriteDone(r, s, c); multiset(s'.pool) + s'.gets == multiset(Ids(cap)) + s'.puts
  {
    Arriving(r, cap, s, c);
    PrimaryHeld(r, cap, s, c);
    var p := s.ctx[c].prime;
    PushBag(s.pool, c);
    PushBag(s.pool, p);
    PushBag(s.pool + [p], c);
    BagShift(multiset(s.pool), s.gets, multiset(Ids(cap)), s.puts, c);
    BagShift(multiset(s.pool), s.gets, multiset(Ids(cap)), s.puts, p);
    BagShift(multiset(s.pool + [p]), s.gets, multiset(Ids(cap)), s.puts + multiset{p}, c);
  }

  lemma DoneKeepsItems(r: nat, cap: nat, s: State, c: nat)
    requires Inv(r, cap, s) && c in s.network && s.begun == s.freed + multiset(s.sends.Keys)
    ensures var s' := WriteDone(r, s, c); s'.begun == s'.freed + multiset(s'.sends.Keys)
  {
    Arriving(r, cap, s, c);
    PrimaryHeld(r, cap, s, c);
    var i, j := s.ctx[c].item.value, s.ctx[c].replica;
    var s1 := CountDone(s, c, i, j);
    assert s1.sends.Keys == s.sends.Keys;
    assert FreeItem(s1, i).sends.Keys == s.sends.Keys - {i};
    SetBag(s.sends.Keys, i);
  }

  lemma {:induction false} RunKeepsLedger(r: nat, cap: nat, s: State, run: seq<Action>)
    requires Inv(r, cap, s) && Ledger(cap, s) && LegalRun(r, s, run)
    ensures Ledger(cap, Exec(r, s, run))
    decreases |run|
  {
    if run != [] {
      StepKeepsInv(r, cap, s, run[0]);
      StepKeepsLedger(r, cap, s, run[0]);
      RunKeepsLedger(r, cap, Next(r, s, run[0]), run[1..]);
    }
  }

  /** In every reachable state: the pool holds no context twice and never more than its
      capacity, every context is either free or held by exactly the send it names, and both
      ledgers balance. */
  lemma ContextsAreConserved(r: nat, cap: nat, run: seq<Action>)
    requires r >= 1 && LegalRun(r, Init(cap), run)
    ensures var s := Exec(r, Init(cap), run);
            Inv(r, cap, s) && Ledger(cap, s) && Distinct(s.pool) && |s.pool| <= cap
  {
    InitHasInv(r, cap);
    RunKeepsInv(r, cap, Init(cap), run);
    RunKeepsLedger(r, cap, Init(cap), run);
    DistinctFit(Exec(r, Init(cap), run).pool, cap);
  }

  /** Each context is out of the pool at most once: it has been returned as often as taken,
      or once less. */
  lemma ReturnedExactlyOnce(r: nat, cap: nat, run: seq<Action>, c: nat)
    requires r >= 1 && LegalRun(r, Init(cap), run) && c < cap
    ensures var s := Exec(r, Init(cap), run);
            s.gets[c] == s.puts[c] + (if c in s.pool then 0 else 1)
  {
    ContextsAreConserved(r, cap, run);
    var s := Exec(r, Init(cap), run);
    OnceInDistinct(s.pool, c);
    OnceInDistinct(Ids(cap), c);
    assert Ids(cap)[c] == c;
    assert (multiset(s.pool) + s.gets)[c] == (multiset(Ids(cap)) + s.puts)[c];
  }

  /** Each item is freed as often as its sending was started, or once less while it is being sent. */
  lemma FreedExactlyOnce(r: nat, cap: nat, run: seq<Action>, i: nat)
    requires r >= 1 && LegalRun(r, Init(cap), run)
    ensures var s := Exec(r, Init(cap), run);
            s.begun[i] == s.freed[i] + (if i in s.sends then 1 else 0)
  {
    ContextsAreConserved(r, cap, run);
  }

  /** A completion frees the item exactly when every other replica has completed, and it is
      then, and only then, that the primary context goes back to the pool. */
  lemma LastCompletionReleases(r: nat, cap: nat, s: State, c: nat)
    requires Inv(r, cap, s) && c in s.network
    ensures c in s.ctx && s.ctx[c].item.Some? && s.ctx[c].item.value in s.sends
    ensures var i, j := s.ctx[c].item.value, s.ctx[c].replica;
            var send := s.sends[i];
            var s' := WriteDone(r, s, c);
            var last := forall m: nat :: m < r && m != j ==> m in send.done;
            && |send.ctxs| == r
            && s'.freed == s.freed + (if last then multiset{i} else multiset{})
            && (i !in s'.sends <==> last)
            && (send.ctxs[0] in s'.pool <==> last)
            && s'.pool == s.pool + (if last && j > 0 then [send.ctxs[0]] else []) + (if last || j > 0 then [c] else [])
  {
    Arriving(r, cap, s, c);
    PrimaryHeld(r, cap, s, c);
    var i, j := s.ctx[c].item.value, s.ctx[c].replica;
    var send := s.sends[i];
    FillsRange(send.done + {j}, r);
    assert Owns(send, 0) && Holds(s, i, send, 0);
    assert (forall m: nat :: m < r && m != j ==> m in send.done) <==> (forall m: nat :: m < r ==> m in send.done + {j});
  }

  /** When every call has posted all its replicas and nothing is in flight, every context is
      back and every item started has been freed. */
  lemma QuiescentIsWhole(r: nat, cap: nat, run: seq<Action>)
    requires r >= 1 && LegalRun(r, Init(cap), run)
    requires var s := Exec(r, Init(cap), run);
             s.network == {} && forall i :: i in s.sends ==> s.sends[i].posted == r
    ensures var s := Exec(r, Init(cap), run);
            s.sends == map[] && s.begun == s.freed && multiset(s.pool) == multiset(Ids(cap)) && s.gets == s.puts
  {
    ContextsAreConserved(r, cap, run);
    var s := Exec(r, Init(cap), run);
    if i :| i in s.sends {
      NothingLeftInFlight(r, cap, s, i);
      assert false;
    }
    assert s.sends.Keys == {};
    forall c: nat
      ensures multiset(s.pool)[c] == multiset(Ids(cap))[c]
    {
      EveryoneHome(r, cap, s, c);
    }
    SameBag(multiset(s.pool), multiset(Ids(cap)), s.gets, s.puts);
  }

  lemma SameBag(pool: multiset<nat>, stock: multiset<nat>, gets: multiset<nat>, puts: multiset<nat>)
    requires forall c: nat :: pool[c] == stock[c]
    requires pool + gets == stock + puts
    ensures pool == stock && gets == puts
  {
    assert pool == stock;
    assert gets == (pool + gets) - pool;
    assert puts == (stock + puts) - stock;
  }

  lemma EveryoneHome(r: nat, cap: nat, s: State, c: nat)
    requires Inv(r, cap, s) && s.sends == map[]
    ensures multiset(s.pool)[c] == multiset(Ids(cap))[c]
  {
    OnceInDistinct(s.pool, c);
    OnceInDistinct(Ids(cap), c);
    assert c < cap ==> Ids(cap)[c] == c;
  }

  /** A send all of whose replicas are posted has one of them in flight. */
  lemma NothingLeftInFlight(r: nat, cap: nat, s: State, i: nat)
    requires Inv(r, cap, s) && i in s.sends && s.sends[i].posted == r
    ensures s.network != {}
  {
    var send := s.sends[i];
    assert SendOk(r, s, i, send);
    FillsRange(send.done, r);
    var j: nat :| j < r && j !in send.done;
    assert Owns(send, j) && Holds(s, i, send, j);
  }
}
