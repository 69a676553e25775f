/** When a mapped swap space is refused, and how long an eviction takes. */
module AgreementProgress {
  import opened Config
  import opened Daemon
  import opened Eviction
  import opened Agreement
  import opened AgreementInvariant
  import opened AgreementTheorems

  // ------------------------------------------------------------------ availability

  /** The migration thread is evicting block `i` of `s`: it has stopped the writes and not yet
      cleared the record. */
  ghost predicate Refusing(node: Node, i: int, s: nat) {
    match node.thread
    case Frozen(r, k) => r == s && k == i
    case Searching(r, k, _) => r == s && k == i
    case Sending(r, k) => r == s && k == i
    case Woken(r, k) => r == s && k == i
    case _ => false
  }

  /** A mapped block is open, stopped by its own eviction, or marked by the end of another one. */
  ghost predicate StateOk(st: State, s: nat) {
    Mapped(st, s) ==>
      var state := StateOf(st, s);
      && (state == ACTIVE || state == READONLY || state == INACTIVE)
      && (state == READONLY ==> Refusing(st.nodes[st.cbIndex[s]], st.toRb[s], s))
  }

  ghost predicate StatesOk(st: State) {
    forall s: nat :: StateOk(st, s)
  }

  lemma RefusingIsStopped(st: State, s: nat)
    requires Inv(st) && Mapped(st, s) && Refusing(st.nodes[st.cbIndex[s]], st.toRb[s], s)
    ensures StateOf(st, s) == READONLY
  {
    assert NodeOk(st.cbIndex, st.toRb, st.lastOn, st.cbIndex[s], st.nodes[st.cbIndex[s]]);
  }

  /** A step that changes neither the record of `s` nor the state of its block, nor ends an eviction. */
  lemma SameState(st: State, st': State, s: nat)
    requires StateOk(st, s) && |st'.nodes| == |st.nodes| && st'.cbIndex == st.cbIndex && st'.toRb == st.toRb
    requires Mapped(st, s) ==>
               var node, node' := st.nodes[st.cbIndex[s]], st'.nodes[st.cbIndex[s]];
               && |node'.rbState| == |node.rbState| && node'.rbState[st.toRb[s]] == node.rbState[st.toRb[s]]
               && (Refusing(node, st.toRb[s], s) ==> Refusing(node', st.toRb[s], s))
    requires Mapped(st', s) ==> Mapped(st, s)
    ensures StateOk(st', s)
  {
  }

  lemma QuietKeepsState(st: State, a: Action, s: nat)
    requires Inv(st) && StateOk(st, s) && Enabled(st, a) && Quiet(a)
    ensures StateOk(Next(st, a), s)
  {
    QuietNode(st, a);
    SameState(st, Next(st, a), s);
  }

  lemma MapKeepsState(st: State, r: nat, n: nat, mr: Mr, s: nat)
    requires Inv(st) && StateOk(st, s) && Enabled(st, MapTo(r, n, mr))
    ensures StateOk(Next(st, MapTo(r, n, mr)), s)
  {
    var node, st' := st.nodes[n], Next(st, MapTo(r, n, mr));
    assert NodeOk(st.cbIndex, st.toRb, st.lastOn, n, node);
    MapNodeIsWaiting(st, r, n, mr);
    MapShape(node, r, mr);
    if s != r && Mapped(st', s) {
      MapKeepsOthers(st, r, n, mr, s);
      assert Mapped(st, s) && ClientOk(st.cbIndex, st.toRb, st.lastOn, st.written, st.nodes, s);
    }
  }

  lemma FreezeKeepsState(st: State, n: nat, s: nat)
    requires Inv(st) && StateOk(st, s) && Enabled(st, Freeze(n))
    ensures StateOk(Next(st, Freeze(n)), s)
  {
    var st' := Next(st, Freeze(n));
    EvictingOnRecord(st, n);
    assert NodeOk(st.cbIndex, st.toRb, st.lastOn, n, st.nodes[n]);
    if s != st.nodes[n].thread.s && Mapped(st, s) && st.cbIndex[s] == n {
      DistinctBlocks(st, s, st.nodes[n].thread.s);
    }
  }

  lemma ResetKeepsState(st: State, n: nat, s: nat)
    requires Inv(st) && StateOk(st, s) && Enabled(st, Reset(n))
    ensures StateOk(Next(st, Reset(n)), s)
  {
    assert NodeOk(st.cbIndex, st.toRb, st.lastOn, n, st.nodes[n]);
  }

  lemma FinishKeepsState(st: State, n: nat, s: nat)
    requires Inv(st) && StateOk(st, s) && Enabled(st, Finish(n))
    ensures StateOk(Next(st, Finish(n)), s)
  {
  }

  /** The remaining steps of the thread, the mail and the server. */
  lemma OtherKeepsState(st: State, a: Action, s: nat)
    requires Inv(st) && StateOk(st, s) && Enabled(st, a)
    requires !Quiet(a) && !a.MapTo? && !a.Freeze? && !a.Reset? && !a.Finish?
    ensures StateOk(Next(st, a), s)
  {
    SameState(st, Next(st, a), s);
  }

  lemma StepKeepsStates(st: State, a: Action)
    requires Inv(st) && StatesOk(st) && Enabled(st, a)
    ensures StatesOk(Next(st, a))
  {
    forall s: nat
      ensures StateOk(Next(st, a), s)
    {
      assert StateOk(st, s);
      if Quiet(a) {
        QuietKeepsState(st, a, s);
      } else if a.MapTo? {
        MapKeepsState(st, a.s, a.n, a.mr, s);
      } else if a.Freeze? {
        FreezeKeepsState(st, a.n, s);
      } else if a.Reset? {
        ResetKeepsState(st, a.n, s);
      } else if a.Finish? {
        FinishKeepsState(st, a.n, s);
      } else {
        OtherKeepsState(st, a, s);
      }
    }
  }

  lemma {:induction false} RunKeepsStates(st: State, run: seq<Action>)
    requires Inv(st) && StatesOk(st) && LegalRun(st, run)
    ensures StatesOk(Exec(st, run))
    decreases |run|
  {
    if run != [] {
      StepKeepsInv(st, run[0]);
      StepKeepsStates(st, run[0]);
      RunKeepsStates(Next(st, run[0]), run[1..]);
    }
  }

  /** After every run a mapped swap space is refused for reading exactly while its own eviction is
      under way, from the stop of its writes to the clearing of its record; for writing also once
      the end of another eviction has marked its block. */
  lemma RefusedIff(st: State, run: seq<Action>, s: nat)
    requires Initial(st) && LegalRun(st, run) && Mapped(Exec(st, run), s)
    ensures var end := Exec(st, run);
            var refusing := Refusing(end.nodes[end.cbIndex[s]], end.toRb[s], s);
            && (!ReadAllowed(end, s) <==> refusing)
            && (!WriteAllowed(end, s) <==> refusing || StateOf(end, s) == INACTIVE)
  {
    Reachable(st, run);
    InitHasInv(st);
    assert StatesOk(st);
    RunKeepsStates(st, run);
    var end := Exec(st, run);
    assert StateOk(end, s);
    if Refusing(end.nodes[end.cbIndex[s]], end.toRb[s], s) {
      RefusingIsStopped(end, s);
    }
  }

  // ------------------------------------------------------------------ an eviction ends

  /** A step of the migration thread, or of the network for it, once it has taken up an eviction. */
  predicate OfThread(a: Action) {
    a.Freeze? || a.Gather? || a.Ask? || a.SendDelete? || a.SendDone? || a.Wake? || a.Reset? || a.Finish?
  }

  /** Steps to go before the thread waits again, at most. */
  function ToGo(node: Node, nodes: nat): (k: nat) {
    match node.thread
    case Waiting => 0
    case Unmapped(_, _) => 1
    case Woken(_, _) => 2
    case Sending(_, _) => if node.posted then 4 else 3
    case Searching(_, _, todo) => 5 + |todo|
    case Frozen(_, _) => 6 + nodes
    case Noted(_, _) => 7 + nodes
  }

  lemma {:induction false} FewNodes(r: set<nat>, n: nat)
    requires forall m :: m in r ==> m < n
    ensures |r| <= n
  {
    if n > 0 {
      FewNodes(r - {n - 1}, n - 1);
      assert |r| <= |r - {n - 1}| + 1;
    } else {
      assert r == {};
    }
  }

  lemma CandidatesAreFew(st: State)
    ensures |UsableNodes(st.nodes)| <= |st.nodes|
  {
    FewNodes(UsableNodes(st.nodes), |st.nodes|);
  }

  lemma PostedIsSending(st: State, n: nat)
    requires Inv(st) && n < |st.nodes| && st.nodes[n].posted
    ensures st.nodes[n].thread.Sending?
  {
    assert NodeOk(st.cbIndex, st.toRb, st.lastOn, n, st.nodes[n]);
  }

  lemma OneStepLess(st: State, a: Action)
    requires Enabled(st, a) && OfThread(a) && (a.SendDone? ==> st.nodes[a.n].thread.Sending?)
    requires |UsableNodes(st.nodes)| <= |st.nodes|
    ensures ToGo(NextNode(st, a), |st.nodes|) < ToGo(st.nodes[a.n], |st.nodes|)
  {
  }

  lemma ThreadStepCounts(st: State, a: Action)
    requires Inv(st) && Enabled(st, a) && OfThread(a)
    ensures ToGo(After(st, a, a.n), |st.nodes|) < ToGo(st.nodes[a.n], |st.nodes|)
  {
    CandidatesAreFew(st);
    if a.SendDone? {
      PostedIsSending(st, a.n);
    }
    OneStepLess(st, a);
  }

  /** Nothing else moves it, but for the thread taking up the next eviction. */
  lemma OtherStepsWait(st: State, a: Action, n: nat)
    requires Inv(st) && Enabled(st, a) && n < |st.nodes| && !(OfThread(a) && a.n == n) && a != Note(n)
    ensures ToGo(After(st, a, n), |st.nodes|) == ToGo(st.nodes[n], |st.nodes|)
  {
    if a.n != n {
      OtherNode(st, a, n);
    } else if Quiet(a) {
      QuietNode(st, a);
    } else if a.MapTo? {
      MappedNode(st, a);
    }
  }

  /** The steps the thread of node `n` takes in a run. */
  function Taken(run: seq<Action>, n: nat): (k: nat) {
    if run == [] then 0 else (if OfThread(run[0]) && run[0].n == n then 1 else 0) + Taken(run[1..], n)
  }

  lemma StepCounts(st: State, a: Action, n: nat)
    requires Inv(st) && Enabled(st, a) && n < |st.nodes| && a != Note(n)
    ensures (if OfThread(a) && a.n == n then 1 else 0) + ToGo(After(st, a, n), |st.nodes|)
            <= ToGo(st.nodes[n], |st.nodes|)
  {
    if OfThread(a) && a.n == n {
      ThreadStepCounts(st, a);
    } else {
      OtherStepsWait(st, a, n);
    }
  }

  lemma StepProceeds(st: State, a: Action, n: nat)
    requires Inv(st) && Enabled(st, a) && n < |st.nodes| && a != Note(n)
    ensures Inv(Next(st, a)) && |Next(st, a).nodes| == |st.nodes|
    ensures (if OfThread(a) && a.n == n then 1 else 0) + ToGo(Next(st, a).nodes[n], |st.nodes|)
            <= ToGo(st.nodes[n], |st.nodes|)
  {
    StepCounts(st, a, n);
    StepKeepsInv(st, a);
  }

  /** An eviction once taken up is over after at most so many steps of its thread, whatever happens
      in between: seven and one for every node. By `EvictionProceedsIff` the thread can take them
      unless it is stuck or waits for an answer to its search. */
  lemma {:induction false} EvictionEnds(st: State, run: seq<Action>, n: nat)
    requires Inv(st) && LegalRun(st, run) && n < |st.nodes| && Note(n) !in run
    ensures |Exec(st, run).nodes| == |st.nodes|
    ensures Taken(run, n) + ToGo(Exec(st, run).nodes[n], |st.nodes|) <= ToGo(st.nodes[n], |st.nodes|)
    decreases |run|
  {
    if run != [] {
      assert run[0] in run && forall a :: a in run[1..] ==> a in run;
      StepProceeds(st, run[0], n);
      EvictionEnds(Next(st, run[0]), run[1..], n);
    }
  }

  // ------------------------------------------------------------------ a search asks everybody

  ghost predicate StillToAsk(node: Node, m: nat) {
    node.thread.Searching? && m in node.thread.todo
  }

  lemma AskOnlyTakes(st: State, a: Action, n: nat, m: nat)
    requires Enabled(st, a) && n < |st.nodes| && StillToAsk(st.nodes[n], m) && a != Ask(n, m)
    ensures StillToAsk(After(st, a, n), m)
  {
    if a.n == n && Quiet(a) {
      QuietNode(st, a);
    }
  }

  lemma {:induction false} OnlyAskingEnds(st: State, run: seq<Action>, n: nat, m: nat)
    requires LegalRun(st, run) && n < |st.nodes| && StillToAsk(st.nodes[n], m) && Ask(n, m) !in run
    ensures n < |Exec(st, run).nodes| && StillToAsk(Exec(st, run).nodes[n], m)
    decreases |run|
  {
    if run != [] {
      assert run[0] in run && forall a :: a in run[1..] ==> a in run;
      AskOnlyTakes(st, run[0], n, m);
      OnlyAskingEnds(Next(st, run[0]), run[1..], n, m);
    }
  }

  /** A block is given up only after every node that was usable when the search began has answered
      that it has no free block. */
  lemma SearchAsksAll(st: State, run: seq<Action>, n: nat, m: nat)
    requires Enabled(st, Gather(n)) && LegalRun(Next(st, Gather(n)), run)
    requires m < |st.nodes| && st.nodes[m].cbState < CB_MIGRATING
    requires n < |Exec(Next(st, Gather(n)), run).nodes| && !Exec(Next(st, Gather(n)), run).nodes[n].thread.Searching?
    ensures exists k :: 0 <= k < |run| && run[k] == Ask(n, m) && Refuses(Next(st, Gather(n)), run, k, m)
  {
    var st1 := Next(st, Gather(n));
    if Ask(n, m) !in run {
      OnlyAskingEnds(st1, run, n, m);
    }
    var k :| 0 <= k < |run| && run[k] == Ask(n, m);
    AnswerAt(st1, run, k, n, m);
  }

  /** Before step `k` of the run server `m` has no free block to offer. */
  ghost predicate Refuses(st: State, run: seq<Action>, k: nat, m: nat)
    requires LegalRun(st, run)
    decreases |run|
  {
    if k == 0 || run == [] then m < |st.nodes| && Advertised(st.nodes[m].table) == 0
    else Refuses(Next(st, run[0]), run[1..], k - 1, m)
  }

  lemma {:induction false} AnswerAt(st: State, run: seq<Action>, k: nat, n: nat, m: nat)
    requires LegalRun(st, run) && k < |run| && run[k] == Ask(n, m)
    ensures Refuses(st, run, k, m)
    decreases |run|
  {
    if k > 0 {
      AnswerAt(Next(st, run[0]), run[1..], k - 1, n, m);
    }
  }

  // ------------------------------------------------------------------ registrations

  /** The server has a registration for a block exactly while the block is mapped for the client. */
  ghost predicate Registered(node: Node) {
    forall i: nat :: i < |node.mr| ==> (node.mr[i].key != 0 <==> Ours(node, i))
  }

  lemma SameRegistrations(node: Node, node': Node)
    requires Registered(node) && node'.mr == node.mr && node'.conn == node.conn
    requires OursKept(node.conn, node.table.blocks, node'.table.blocks)
    ensures Registered(node')
  {
    SameOurs(node, node');
  }

  lemma DeleteUnregisters(st: State, n: nat)
    requires Inv(st) && Enabled(st, HandleDelete(n)) && Registered(st.nodes[n])
    ensures Registered(After(st, HandleDelete(n), n))
  {
    assert NodeOk(st.cbIndex, st.toRb, st.lastOn, n, st.nodes[n]);
    DeletedTable(st.nodes[n], st.nodes[n].transit.value);
  }

  lemma MapRegisters(st: State, s: nat, n: nat, mr: Mr)
    requires Inv(st) && Enabled(st, MapTo(s, n, mr)) && Registered(st.nodes[n])
    ensures Registered(After(st, MapTo(s, n, mr), n))
  {
    assert NodeOk(st.cbIndex, st.toRb, st.lastOn, n, st.nodes[n]);
    MapShape(st.nodes[n], s, mr);
  }

  lemma ServerRegisters(st: State, a: Action)
    requires Inv(st) && Enabled(st, a) && (a.Server? || a.FreeUnmapped?) && Registered(st.nodes[a.n])
    ensures Registered(After(st, a, a.n))
  {
    var node := st.nodes[a.n];
    assert NodeOk(st.cbIndex, st.toRb, st.lastOn, a.n, node);
    if a.Server? {
      ServerKeepsOurs(node.table, node.conn, a.e);
    } else {
      FreeKeepsOurs(node.table, node.conn, a.k);
    }
    SameRegistrations(node, After(st, a, a.n));
  }

  lemma OthersRegister(st: State, a: Action)
    requires Enabled(st, a) && !a.HandleDelete? && !a.MapTo? && !a.Server? && !a.FreeUnmapped?
    requires Registered(st.nodes[a.n])
    ensures Registered(After(st, a, a.n))
  {
    SameRegistrations(st.nodes[a.n], After(st, a, a.n));
  }

  lemma StepKeepsRegistered(st: State, a: Action, n: nat)
    requires Inv(st) && Enabled(st, a) && n < |st.nodes| && Registered(st.nodes[n])
    ensures Registered(After(st, a, n))
  {
    if a.n != n {
      OtherNode(st, a, n);
    } else if a.HandleDelete? {
      DeleteUnregisters(st, n);
    } else if a.MapTo? {
      MapRegisters(st, a.s, n, a.mr);
    } else if a.Server? || a.FreeUnmapped? {
      ServerRegisters(st, a);
    } else {
      OthersRegister(st, a);
    }
  }

  lemma {:induction false} RunKeepsRegistered(st: State, run: seq<Action>, n: nat)
    requires Inv(st) && LegalRun(st, run) && n < |st.nodes| && Registered(st.nodes[n])
    ensures n < |Exec(st, run).nodes| && Registered(Exec(st, run).nodes[n])
    decreases |run|
  {
    if run != [] {
      StepKeepsRegistered(st, run[0], n);
      StepKeepsInv(st, run[0]);
      RunKeepsRegistered(Next(st, run[0]), run[1..], n);
    }
  }

  /** After every run: no registration outlives its block, and no mapped block is without one. */
  lemma RegisteredIff(st: State, run: seq<Action>, n: nat)
    requires Initial(st) && LegalRun(st, run) && n < |st.nodes|
    ensures n < |Exec(st, run).nodes| && Registered(Exec(st, run).nodes[n])
  {
    InitHasInv(st);
    assert StartsUp(st.nodes[n]);
    RunKeepsRegistered(st, run, n);
  }
}
