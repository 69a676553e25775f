/** When the write contexts run out: each `rdma_write` takes one context per replica before it
    posts any, and spins while there is none. Exactly when that can go on for good. */
module Starvation {
  import opened Config
  import opened Options
  import opened Distinctness
  import opened Completion

  /** Some call is in progress and nothing but a further call can happen. */
  ghost predicate Starved(r: nat, s: State) {
    s.sends != map[] && forall a :: Enabled(r, s, a) ==> a.Begin?
  }

  /** No context is free or in flight, and no call has all it needs. */
  ghost predicate AllShort(r: nat, s: State) {
    && s.sends != map[] && s.pool == [] && s.network == {}
    && forall i :: i in s.sends ==> |s.sends[i].ctxs| < r
  }

  /** The calls that are still taking contexts; the others are posting or in flight. */
  ghost function Taking(r: nat, s: State): (calls: set<nat>) {
    set i | i in s.sends && |s.sends[i].ctxs| < r
  }

  lemma StarvedIff(r: nat, cap: nat, s: State)
    requires Inv(r, cap, s)
    ensures Starved(r, s) <==> AllShort(r, s)
  {
    if Starved(r, s) {
      assert forall c :: c in s.network ==> Enabled(r, s, Done(c));
      forall i | i in s.sends
        ensures |s.sends[i].ctxs| < r
      {
        assert SendOk(r, s, i, s.sends[i]) && !Enabled(r, s, Post(i));
        if s.sends[i].posted == r {
          NothingLeftInFlight(r, cap, s, i);
        }
      }
      var i :| i in s.sends;
      assert !Enabled(r, s, Take(i));
    }
  }

  // ----- How many contexts the calls in progress can hold -----

  ghost function HeldBy(sends: map<nat, Send>, items: set<nat>): (cs: set<nat>)
    requires items <= sends.Keys
  {
    set i, c | i in items && c in sends[i].ctxs :: c
  }

  lemma {:induction false} HeldCount(sends: map<nat, Send>, items: set<nat>, most: nat)
    requires items <= sends.Keys && forall i :: i in items ==> |sends[i].ctxs| <= most
    ensures |HeldBy(sends, items)| <= |items| * most
    decreases |items|
  {
    if items == {} {
      assert HeldBy(sends, items) == {};
    } else {
      var i :| i in items;
      HeldCount(sends, items - {i}, most);
      HeldSplit(sends, items, i);
      ElemsAtMost(sends[i].ctxs);
      Times(|items|, most);
    }
  }

  lemma Times(n: nat, most: nat)
    requires n >= 1
    ensures n * most == (n - 1) * most + most
  {
  }

  lemma HeldSplit(sends: map<nat, Send>, items: set<nat>, i: nat)
    requires items <= sends.Keys && i in items
    ensures |HeldBy(sends, items)| <= |HeldBy(sends, items - {i})| + |Elems(sends[i].ctxs)|
  {
    var rest, own := HeldBy(sends, items - {i}), Elems(sends[i].ctxs);
    assert HeldBy(sends, items) <= rest + own;
    SubsetSize(HeldBy(sends, items), rest + own);
    assert |rest + own| <= |rest| + |own|;
  }

  lemma {:induction false} ElemsAtMost(s: seq<nat>)
    ensures |Elems(s)| <= |s|
  {
    if s == [] {
      assert Elems(s) == {};
    } else {
      ElemsAtMost(s[1..]);
      assert Elems(s) == {s[0]} + Elems(s[1..]);
    }
  }

  lemma HeldInAll(r: nat, cap: nat, s: State)
    requires Inv(r, cap, s) && s.pool == []
    ensures cap <= |HeldBy(s.sends, s.sends.Keys)|
  {
    forall c | c in Below(cap)
      ensures c in HeldBy(s.sends, s.sends.Keys)
    {
      assert c in s.ctx && c !in s.pool;
      var i, j := s.ctx[c].item.value, s.ctx[c].replica;
      assert i in s.sends && s.sends[i].ctxs[j] == c;
      assert c in s.sends[i].ctxs;
    }
    SubsetSize(Below(cap), HeldBy(s.sends, s.sends.Keys));
  }

  lemma ShortHoldLess(r: nat, s: State)
    requires r >= 1 && AllShort(r, s)
    ensures |HeldBy(s.sends, s.sends.Keys)| <= |Taking(r, s)| * (r - 1)
  {
    assert Taking(r, s) == s.sends.Keys;
    HeldCount(s.sends, s.sends.Keys, r - 1);
  }

  lemma StarvedIsCrowded(r: nat, cap: nat, s: State)
    requires Inv(r, cap, s) && Starved(r, s)
    ensures cap <= |Taking(r, s)| * (r - 1)
  {
    StarvedIff(r, cap, s);
    HeldInAll(r, cap, s);
    ShortHoldLess(r, s);
  }

  // ----- A run that starves -----

  lemma {:induction false} RunAppend(r: nat, s: State, run: seq<Action>, more: seq<Action>)
    requires LegalRun(r, s, run) && LegalRun(r, Exec(r, s, run), more)
    ensures LegalRun(r, s, run + more) && Exec(r, s, run + more) == Exec(r, Exec(r, s, run), more)
    decreases |run|
  {
    if run == [] {
      assert run + more == more;
    } else {
      RunAppend(r, Next(r, s, run[0]), run[1..], more);
      assert (run + more)[1..] == run[1..] + more;
    }
  }

  lemma OneStep(r: nat, s: State, a: Action)
    requires Enabled(r, s, a)
    ensures LegalRun(r, s, [a]) && Exec(r, s, [a]) == Next(r, s, a)
  {
    assert [a][1..] == [];
  }

  /** The first `m` items are being sent and have no context yet. */
  ghost predicate Begun(s: State, pool: seq<nat>, m: nat) {
    && s.pool == pool && s.network == {}
    && (forall i: nat :: i in s.sends <==> i < m)
    && forall i :: i in s.sends ==> s.sends[i].ctxs == []
  }

  lemma {:induction false} BeginAll(r: nat, cap: nat, m: nat) returns (run: seq<Action>)
    ensures LegalRun(r, Init(cap), run) && Begun(Exec(r, Init(cap), run), Ids(cap), m)
  {
    if m == 0 {
      run := [];
    } else {
      run := BeginAll(r, cap, m - 1);
      var s := Exec(r, Init(cap), run);
      OneStep(r, s, Begin(m - 1));
      RunAppend(r, Init(cap), run, [Begin(m - 1)]);
      run := run + [Begin(m - 1)];
    }
  }

  /** Only item `i` has changed: it has taken `n` more contexts. */
  ghost predicate Took(s: State, t: State, i: nat, n: nat) {
    && i in s.sends && t.sends.Keys == s.sends.Keys && |t.sends[i].ctxs| == |s.sends[i].ctxs| + n
    && (forall k :: k in s.sends && k != i ==> t.sends[k] == s.sends[k])
    && t.network == s.network && |t.pool| + n == |s.pool|
  }

  lemma {:induction false} TakeSome(r: nat, s: State, i: nat, n: nat) returns (run: seq<Action>)
    requires i in s.sends && |s.sends[i].ctxs| + n < r && n <= |s.pool|
    ensures LegalRun(r, s, run) && Took(s, Exec(r, s, run), i, n)
    decreases n
  {
    if n == 0 {
      run := [];
    } else {
      run := TakeSome(r, s, i, n - 1);
      var t := Exec(r, s, run);
      OneStep(r, t, Take(i));
      RunAppend(r, s, run, [Take(i)]);
      run := run + [Take(i)];
    }
  }

  /** The items from `k` on take one context less than they need, until none is left. */
  lemma {:induction false} TakeAll(r: nat, s: State, k: nat, m: nat) returns (run: seq<Action>)
    requires r >= 1 && k <= m && s.network == {} && |s.pool| <= (m - k) * (r - 1)
    requires forall i: nat :: i in s.sends <==> i < m
    requires forall i :: i in s.sends ==> |s.sends[i].ctxs| < r && (i >= k ==> s.sends[i].ctxs == [])
    ensures LegalRun(r, s, run)
    ensures var t := Exec(r, s, run);
            && t.pool == [] && t.network == {} && t.sends.Keys == s.sends.Keys
            && forall i :: i in t.sends ==> |t.sends[i].ctxs| < r
    decreases m - k
  {
    if k == m {
      run := [];
    } else {
      Times(m - k, r - 1);
      var n := if |s.pool| < r - 1 then |s.pool| else r - 1;
      run := TakeSome(r, s, k, n);
      var t := Exec(r, s, run);
      assert |t.pool| <= (m - (k + 1)) * (r - 1) by {
        RoomLeft(m - (k + 1), r - 1);
      }
      assert forall i: nat :: i in t.sends <==> i < m;
      var rest := TakeAll(r, t, k + 1, m);
      RunAppend(r, s, run, rest);
      run := run + rest;
    }
  }

  lemma RoomLeft(a: nat, b: nat)
    ensures a * b >= 0
  {
  }

  lemma StarvingRun(r: nat, cap: nat, m: nat) returns (run: seq<Action>)
    requires r >= 1 && m >= 1 && cap <= m * (r - 1)
    ensures LegalRun(r, Init(cap), run)
    ensures |Taking(r, Exec(r, Init(cap), run))| == m && Starved(r, Exec(r, Init(cap), run))
  {
    var begin := BeginAll(r, cap, m);
    var s := Exec(r, Init(cap), begin);
    var take := TakeAll(r, s, 0, m);
    RunAppend(r, Init(cap), begin, take);
    run := begin + take;
    var t := Exec(r, s, take);
    assert Taking(r, t) == Below(m);
    InitHasInv(r, cap);
    RunKeepsInv(r, cap, Init(cap), run);
    assert 0 in t.sends;
    StarvedIff(r, cap, t);
  }

  lemma MoreCalls(a: nat, b: nat, c: nat)
    requires a <= b
    ensures a * c <= b * c
  {
  }

  /** At most `m` concurrent calls can starve, however many items are in flight before. */
  ghost predicate CanStarve(r: nat, cap: nat, m: nat) {
    exists run :: LegalRun(r, Init(cap), run) && |Taking(r, Exec(r, Init(cap), run))| <= m
                  && Starved(r, Exec(r, Init(cap), run))
  }

  /** At most `m` calls at a time can starve if and only if `m` times one context less than the
      number of replicas uses up the pool. Without replication, a pool of one context is enough. */
  lemma CanStarveIff(r: nat, cap: nat, m: nat)
    requires r >= 1 && m >= 1
    ensures CanStarve(r, cap, m) <==> cap <= m * (r - 1)
  {
    if cap <= m * (r - 1) {
      var run := StarvingRun(r, cap, m);
    }
    if CanStarve(r, cap, m) {
      var run :| LegalRun(r, Init(cap), run) && |Taking(r, Exec(r, Init(cap), run))| <= m
                 && Starved(r, Exec(r, Init(cap), run));
      InitHasInv(r, cap);
      RunKeepsInv(r, cap, Init(cap), run);
      StarvedIsCrowded(r, cap, Exec(r, Init(cap), run));
      MoreCalls(|Taking(r, Exec(r, Init(cap), run))|, m, r - 1);
    }
  }

  /** The driver creates a pool of `VALET_QUEUE_DEPTH` contexts for each pair of a processor and a
      node. A call keeps its processor, so there is at most one per processor, and those cannot
      starve as long as an item has no more replicas than there are nodes. */
  lemma DriverPoolSuffices(r: nat, cpus: nat, nodes: nat)
    requires 1 <= r <= nodes && cpus >= 1
    ensures !CanStarve(r, cpus * VALET_QUEUE_DEPTH * nodes, cpus)
  {
    MoreCalls(r - 1, nodes - 1, cpus);
    assert cpus * VALET_QUEUE_DEPTH * nodes >= cpus * nodes > cpus * (nodes - 1) >= cpus * (r - 1);
    CanStarveIff(r, cpus * VALET_QUEUE_DEPTH * nodes, cpus);
  }

  /** Whatever happens next, starved calls stay starved: none of them ever completes. */
  lemma {:induction false} StarvedForever(r: nat, cap: nat, s: State, run: seq<Action>)
    requires Inv(r, cap, s) && Starved(r, s) && LegalRun(r, s, run)
    ensures var t := Exec(r, s, run);
            && Starved(r, t) && t.freed == s.freed
            && forall i :: i in s.sends ==> i in t.sends && t.sends[i] == s.sends[i]
    decreases |run|
  {
    if run != [] {
      var t := Next(r, s, run[0]);
      StarvedIff(r, cap, s);
      StepKeepsInv(r, cap, s, run[0]);
      assert run[0].Begin? && run[0].item in t.sends;
      StarvedIff(r, cap, t);
      StarvedForever(r, cap, t, run[1..]);
    }
  }

  // ----- Otherwise every call finishes -----

  /** What a call has still to take, to post and to see completed. */
  function Work(r: nat, s: State, i: nat): (w: int) {
    if i in s.sends then 3 * r - |s.sends[i].ctxs| - s.sends[i].posted - |s.sends[i].done| else 0
  }

  function TotalWork(r: nat, s: State, n: nat): (w: int) {
    if n == 0 then 0 else TotalWork(r, s, n - 1) + Work(r, s, n - 1)
  }

  lemma {:induction false} TotalDrops(r: nat, s: State, t: State, i: nat, n: nat)
    requires forall k: nat :: k != i ==> Work(r, t, k) == Work(r, s, k)
    requires Work(r, t, i) < Work(r, s, i)
    ensures TotalWork(r, t, n) <= TotalWork(r, s, n) - (if i < n then 1 else 0)
  {
    if n > 0 {
      TotalDrops(r, s, t, i, n - 1);
    }
  }

  lemma {:induction false} TotalIsPositive(r: nat, cap: nat, s: State, n: nat)
    requires Inv(r, cap, s)
    ensures TotalWork(r, s, n) >= 0
  {
    if n > 0 {
      TotalIsPositive(r, cap, s, n - 1);
      if n - 1 in s.sends {
        assert SendOk(r, s, n - 1, s.sends[n - 1]);
      }
    }
  }

  /** The call a step belongs to. */
  function Caller(s: State, a: Action): (i: nat) {
    match a
    case Begin(i) => i
    case Take(i) => i
    case Post(i) => i
    case Done(c) => if c in s.ctx && s.ctx[c].item.Some? then s.ctx[c].item.value else 0
  }

  lemma StepWorks(r: nat, cap: nat, s: State, a: Action)
    requires Inv(r, cap, s) && Enabled(r, s, a) && !a.Begin?
    ensures var i, t := Caller(s, a), Next(r, s, a);
            && i in s.sends && t.sends.Keys <= s.sends.Keys && Work(r, t, i) < Work(r, s, i)
            && forall k: nat :: k != i ==> Work(r, t, k) == Work(r, s, k)
  {
    if a.Done? {
      Arriving(r, cap, s, a.c);
      PrimaryHeld(r, cap, s, a.c);
    } else {
      assert SendOk(r, s, a.item, s.sends[a.item]);
    }
  }

  /** Without new calls every schedule is finite, ... */
  lemma {:induction false} CallsFinish(r: nat, cap: nat, s: State, run: seq<Action>, n: nat)
    requires Inv(r, cap, s) && LegalRun(r, s, run) && (forall i :: i in s.sends ==> i < n)
    requires forall k :: 0 <= k < |run| ==> !run[k].Begin?
    ensures |run| <= TotalWork(r, s, n) - TotalWork(r, Exec(r, s, run), n)
    ensures TotalWork(r, Exec(r, s, run), n) >= 0 && Exec(r, s, run).sends.Keys <= s.sends.Keys
    decreases |run|
  {
    if run == [] {
      TotalIsPositive(r, cap, s, n);
    } else {
      var t := Next(r, s, run[0]);
      StepWorks(r, cap, s, run[0]);
      TotalDrops(r, s, t, Caller(s, run[0]), n);
      StepKeepsInv(r, cap, s, run[0]);
      CallsFinish(r, cap, t, run[1..], n);
    }
  }

  /** ... and with more contexts than `m` calls can hold short it goes on until all have completed:
      after any run that leaves at most `m` calls taking contexts, something can move. */
  lemma SomeCallCanMove(r: nat, cap: nat, run: seq<Action>, m: nat) returns (a: Action)
    requires r >= 1 && LegalRun(r, Init(cap), run) && cap > m * (r - 1)
    requires m >= 1 && Exec(r, Init(cap), run).sends != map[] && |Taking(r, Exec(r, Init(cap), run))| <= m
    ensures Enabled(r, Exec(r, Init(cap), run), a) && !a.Begin?
  {
    var s := Exec(r, Init(cap), run);
    CanStarveIff(r, cap, m);
    assert !Starved(r, s);
    a :| Enabled(r, s, a) && !a.Begin?;
  }
}
