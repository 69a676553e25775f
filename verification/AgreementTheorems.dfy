/** What client and servers can rely on over whole runs. */
module AgreementTheorems {
  import opened Options
  import opened Config
  import opened Daemon
  import opened Eviction
  import opened Agreement
  import opened AgreementInvariant

  lemma Reachable(st: State, run: seq<Action>)
    requires Initial(st) && LegalRun(st, run)
    ensures Inv(Exec(st, run))
  {
    InitHasInv(st);
    RunKeepsInv(st, run);
  }

  ghost predicate IntactAt(st: State, s: nat)
    requires Mapped(st, s)
  {
    s < |st.written| && Intact(st.nodes[st.cbIndex[s]], st.toRb[s], s, st.written[s])
  }

  /** A reset has cleared the key of the block `s` is on. */
  ghost predicate SpoiledAt(st: State, s: nat)
    requires Mapped(st, s)
  {
    var node := st.nodes[st.cbIndex[s]];
    Spoiled(node) && node.evictI == st.toRb[s]
  }

  lemma ServedIsIntactIff(st: State, s: nat)
    requires Inv(st) && Mapped(st, s)
    requires var node := st.nodes[st.cbIndex[s]]; !Leaving(node, st.toRb[s], s)
    ensures var node := st.nodes[st.cbIndex[s]]; Serves(node, st.toRb[s], s) && node.transit != Some(st.toRb[s])
    ensures IntactAt(st, s) <==> !SpoiledAt(st, s)
  {
    assert ClientOk(st.cbIndex, st.toRb, st.lastOn, st.written, st.nodes, s);
    assert NodeOk(st.cbIndex, st.toRb, st.lastOn, st.cbIndex[s], st.nodes[st.cbIndex[s]]);
  }

  lemma GuardedIsNotLeaving(st: State, s: nat)
    requires Inv(st) && (ReadAllowed(st, s) || WriteAllowed(st, s))
    ensures !Leaving(st.nodes[st.cbIndex[s]], st.toRb[s], s)
  {
    assert NodeOk(st.cbIndex, st.toRb, st.lastOn, st.cbIndex[s], st.nodes[st.cbIndex[s]]);
  }

  /** In every reachable state: whenever the client's guards let a read or a write for swap
      space `s` through, the block they address is allocated and mapped for `s` at its server,
      no delete for it is on its way, and the client's key, address and bitmap for it are those
      of the server's registration and of the pages written, if and only if no reset cleared
      the wrong block. */
  lemma GuardedAccessIsServed(st: State, run: seq<Action>, s: nat)
    requires Initial(st) && LegalRun(st, run)
    requires ReadAllowed(Exec(st, run), s) || WriteAllowed(Exec(st, run), s)
    ensures var end := Exec(st, run);
            var node := end.nodes[end.cbIndex[s]];
            && Serves(node, end.toRb[s], s) && node.transit != Some(end.toRb[s])
            && (IntactAt(end, s) <==> !SpoiledAt(end, s))
  {
    Reachable(st, run);
    GuardedIsNotLeaving(Exec(st, run), s);
    ServedIsIntactIff(Exec(st, run), s);
  }

  /** No two swap spaces share a block. */
  lemma BlocksAreNotShared(st: State, run: seq<Action>, s: nat, r: nat)
    requires Initial(st) && LegalRun(st, run)
    requires Mapped(Exec(st, run), s) && Mapped(Exec(st, run), r) && s != r
    ensures var end := Exec(st, run); (end.cbIndex[s], end.toRb[s]) != (end.cbIndex[r], end.toRb[r])
  {
    Reachable(st, run);
    DistinctBlocks(Exec(st, run), s, r);
  }

  lemma DeliveryProceeds(st: State, n: nat)
    requires Inv(st) && n < |st.nodes| && st.nodes[n].transit.Some?
    ensures Enabled(st, HandleDelete(n)) && st.nodes[n].pending
  {
    assert NodeOk(st.cbIndex, st.toRb, st.lastOn, n, st.nodes[n]);
    DeletedTable(st.nodes[n], st.nodes[n].transit.value);
  }

  lemma ServedOnRecord(st: State, n: nat, i: nat, s: nat)
    requires Inv(st) && n < |st.nodes| && Serves(st.nodes[n], i, s) && st.nodes[n].transit != Some(i)
    ensures Mapped(st, s) && st.cbIndex[s] == n && st.toRb[s] == i && !Leaving(st.nodes[n], i, s)
  {
    assert NodeOk(st.cbIndex, st.toRb, st.lastOn, n, st.nodes[n]);
    assert Ours(st.nodes[n], i);
  }

  /** No block is leaked: one a server keeps for this client is the one the client has on
      record, with its key, address and bitmap unless a reset cleared the wrong block; or its
      delete is in transit and the server is waiting for it. */
  lemma ServedBlocksAreAccountedFor(st: State, run: seq<Action>, n: nat, i: nat, s: nat)
    requires Initial(st) && LegalRun(st, run)
    requires n < |Exec(st, run).nodes| && Serves(Exec(st, run).nodes[n], i, s)
    ensures var end := Exec(st, run);
            || (&& Mapped(end, s) && end.cbIndex[s] == n && end.toRb[s] == i
                && (IntactAt(end, s) <==> !SpoiledAt(end, s)))
            || (end.nodes[n].transit == Some(i) && end.nodes[n].pending && Enabled(end, HandleDelete(n)))
  {
    Reachable(st, run);
    var end := Exec(st, run);
    if end.nodes[n].transit == Some(i) {
      DeliveryProceeds(end, n);
    } else {
      ServedOnRecord(end, n, i, s);
      ServedIsIntactIff(end, s);
    }
  }

  /** A server that evicted once is never mapped again: nothing takes it out of CB_MIGRATING. */
  lemma {:induction false} EvictorsAreRetired(st: State, run: seq<Action>, n: nat)
    requires LegalRun(st, run) && n < |st.nodes| && st.nodes[n].cbState == CB_MIGRATING
    ensures n < |Exec(st, run).nodes| && Exec(st, run).nodes[n].cbState == CB_MIGRATING
    ensures forall k :: 0 <= k < |run| && run[k].MapTo? ==> run[k].n != n
    decreases |run|
  {
    if run != [] {
      EvictorsAreRetired(Next(st, run[0]), run[1..], n);
      forall k | 0 <= k < |run| && run[k].MapTo?
        ensures run[k].n != n
      {
        if k > 0 {
          assert run[k] == run[1..][k - 1];
        }
      }
    }
  }

  // ------------------------------------------------------------------ the last step of an eviction

  /** Finishing takes some swap space's permission to write. */
  ghost predicate TakesWriter(st: State, n: nat)
    requires Enabled(st, Finish(n))
  {
    exists r: nat :: WriteAllowed(st, r) && !WriteAllowed(Next(st, Finish(n)), r)
  }

  /** The evicted swap space has been mapped on another node since, under the number of a block
      that node `n` still serves for writing. */
  ghost predicate RemappedOver(st: State, n: nat)
    requires Enabled(st, Finish(n))
  {
    var s := st.nodes[n].thread.s;
    && s < |st.lastOn| && st.lastOn[s] != n && st.nodes[n].rbState[st.toRb[s]] < READONLY
    && exists r: nat :: Serves(st.nodes[n], st.toRb[s], r)
  }

  lemma FinishTakesOnly(st: State, n: nat, r: nat)
    requires Inv(st) && Enabled(st, Finish(n)) && WriteAllowed(st, r)
    ensures !WriteAllowed(Next(st, Finish(n)), r)
            <==> st.cbIndex[r] == n && st.toRb[r] == st.toRb[st.nodes[n].thread.s]
  {
  }

  lemma TakenIsRemapped(st: State, n: nat, r: nat)
    requires Inv(st) && Enabled(st, Finish(n)) && WriteAllowed(st, r) && !WriteAllowed(Next(st, Finish(n)), r)
    ensures RemappedOver(st, n)
  {
    FinishTakesOnly(st, n, r);
    assert ClientOk(st.cbIndex, st.toRb, st.lastOn, st.written, st.nodes, r);
    assert NodeOk(st.cbIndex, st.toRb, st.lastOn, n, st.nodes[n]);
    assert Serves(st.nodes[n], st.toRb[st.nodes[n].thread.s], r);
  }

  lemma RemappedTakes(st: State, n: nat)
    requires Inv(st) && Enabled(st, Finish(n)) && RemappedOver(st, n)
    ensures TakesWriter(st, n)
  {
    var node := st.nodes[n];
    var k := st.toRb[node.thread.s];
    var r: nat :| Serves(node, k, r);
    assert NodeOk(st.cbIndex, st.toRb, st.lastOn, n, node);
    assert Ours(node, k) && OnRecord(st.cbIndex, st.toRb, n, k, r);
    FinishTakesOnly(st, n, r);
  }

  /** Exactly when the last step of an eviction goes wrong. */
  lemma FinishTakesWriterIff(st: State, run: seq<Action>, n: nat)
    requires Initial(st) && LegalRun(st, run) && Enabled(Exec(st, run), Finish(n))
    ensures TakesWriter(Exec(st, run), n) <==> RemappedOver(Exec(st, run), n)
  {
    Reachable(st, run);
    var end := Exec(st, run);
    if r: nat :| WriteAllowed(end, r) && !WriteAllowed(Next(end, Finish(n)), r) {
      TakenIsRemapped(end, n, r);
    }
    if RemappedOver(end, n) {
      RemappedTakes(end, n);
    }
  }

  // ------------------------------------------------------------------ one node at a time

  /** What a step makes of node `n`. */
  ghost function After(st: State, a: Action, n: nat): (node: Node)
    requires Enabled(st, a) && n < |st.nodes|
  {
    Next(st, a).nodes[n]
  }

  lemma OtherNode(st: State, a: Action, n: nat)
    requires Enabled(st, a) && n < |st.nodes| && a.n != n
    ensures After(st, a, n) == st.nodes[n]
  {
  }

  /** Steps of the server that touch neither the mail nor the thread. */
  predicate Quiet(a: Action) {
    a.Query? || a.Write? || a.FreeUnmapped? || a.Server?
  }

  lemma QuietNode(st: State, a: Action)
    requires Enabled(st, a) && Quiet(a)
    ensures var node, node' := st.nodes[a.n], After(st, a, a.n);
            && node'.thread == node.thread && node'.cState == node.cState && node'.mark == node.mark
            && node'.evictI == node.evictI && node'.evictS == node.evictS && node'.conn == node.conn
            && node'.pending == node.pending && node'.transit == node.transit && node'.posted == node.posted
            && node'.remote == node.remote && node'.rbState == node.rbState
  {
  }

  /** A map leaves the mail alone but for making the connection ready. */
  lemma MappedNode(st: State, a: Action)
    requires Inv(st) && Enabled(st, a) && a.MapTo?
    ensures var node, node' := st.nodes[a.n], After(st, a, a.n);
            && node.thread.Waiting? && node'.thread.Waiting? && node'.cState.RbhIdle? && node'.mark == node.mark
            && node.transit.None? && node'.transit.None? && node'.pending == node.pending
            && !node.posted && !node'.posted && node.cbState < CB_MIGRATING
  {
    assert NodeOk(st.cbIndex, st.toRb, st.lastOn, a.n, st.nodes[a.n]);
    MapNodeIsWaiting(st, a.s, a.n, a.mr);
    MapShape(st.nodes[a.n], a.s, a.mr);
  }

  // ------------------------------------------------------------------ lost eviction messages

  /** The server waits for an answer that nobody is going to send. */
  ghost predicate Lost(node: Node) {
    && node.pending && node.transit.None?
    && match node.thread
       case Waiting => !node.cState.RbhEvict?
       case Unmapped(_, _) => !node.cState.RbhEvict?
       case Sending(_, _) => true
       case Woken(_, _) => true
       case _ => false
  }

  lemma LostStaysHere(st: State, a: Action)
    requires Inv(st) && Enabled(st, a) && Lost(st.nodes[a.n]) && !Quiet(a) && !a.MapTo?
    ensures Lost(After(st, a, a.n))
  {
    assert NodeOk(st.cbIndex, st.toRb, st.lastOn, a.n, st.nodes[a.n]);
  }

  lemma LostStays(st: State, a: Action, n: nat)
    requires Inv(st) && Enabled(st, a) && n < |st.nodes| && Lost(st.nodes[n])
    ensures Lost(After(st, a, n))
  {
    if a.n != n {
      OtherNode(st, a, n);
    } else if Quiet(a) {
      QuietNode(st, a);
    } else if a.MapTo? {
      MappedNode(st, a);
    } else {
      LostStaysHere(st, a);
    }
  }

  /** Once lost, always lost: the server's `do_evict` never returns. */
  lemma {:induction false} LostForever(st: State, run: seq<Action>, n: nat)
    requires Inv(st) && LegalRun(st, run) && n < |st.nodes| && Lost(st.nodes[n])
    ensures n < |Exec(st, run).nodes| && Lost(Exec(st, run).nodes[n]) && HandleDelete(n) !in run
    decreases |run|
  {
    if run != [] {
      LostStays(st, run[0], n);
      StepKeepsInv(st, run[0]);
      LostForever(Next(st, run[0]), run[1..], n);
      assert run == [run[0]] + run[1..];
    }
  }

  lemma LossHere(st: State, a: Action)
    requires Inv(st) && Enabled(st, a) && !Lost(st.nodes[a.n]) && !Quiet(a) && !a.MapTo?
    ensures Lost(After(st, a, a.n))
            <==> a.EvictMsg? && (st.nodes[a.n].thread.Sending? || st.nodes[a.n].thread.Woken?)
  {
    assert NodeOk(st.cbIndex, st.toRb, st.lastOn, a.n, st.nodes[a.n]);
  }

  /** Exactly how an eviction message gets lost: it arrives while the thread is between sending
      the last delete and clearing its record, or the reply to a map request overtakes it. */
  lemma LossIff(st: State, a: Action, n: nat)
    requires Inv(st) && Enabled(st, a) && n < |st.nodes| && !Lost(st.nodes[n])
    ensures Lost(After(st, a, n))
            <==> a.n == n && (|| (a.EvictMsg? && (st.nodes[n].thread.Sending? || st.nodes[n].thread.Woken?))
                              || (a.MapTo? && st.nodes[n].pending))
  {
    if a.n != n {
      OtherNode(st, a, n);
    } else if Quiet(a) {
      QuietNode(st, a);
    } else if a.MapTo? {
      MappedNode(st, a);
    } else {
      LossHere(st, a);
    }
  }

  // ------------------------------------------------------------------ overlapping evictions

  /** An eviction message arrives between the sending of the last delete and the clearing of its
      record. */
  ghost predicate Overlaps(st: State, a: Action)
    requires Enabled(st, a)
  {
    a.EvictMsg? && (st.nodes[a.n].thread.Sending? || st.nodes[a.n].thread.Woken?)
  }

  /** The thread waits for a send completion that has come and gone. */
  ghost predicate Stuck(node: Node) {
    node.thread.Sending? && !node.posted && node.cState.RbhEvict? && node.pending && node.transit.None?
  }

  /** The thread is going to clear a block other than its own. */
  ghost predicate Doomed(node: Node) {
    && ((node.thread.Sending? && (node.posted || node.cState.RbhDelete?)) || node.thread.Woken?)
    && NewEviction(node) && node.evictI != node.thread.i
  }

  /** What becomes of the two evictions: if the send of the delete had completed and the thread
      not yet run, it waits for good; otherwise its reset is going to clear the new block. */
  lemma OverlapSplit(st: State, a: Action)
    requires Inv(st) && Enabled(st, a) && Overlaps(st, a)
    ensures var node, node' := st.nodes[a.n], After(st, a, a.n);
            && (Stuck(node') <==> node.thread.Sending? && !node.posted)
            && (Doomed(node') <==> !Stuck(node'))
  {
    assert NodeOk(st.cbIndex, st.toRb, st.lastOn, a.n, st.nodes[a.n]);
    assert IsMapped(st.nodes[a.n].table.blocks[a.i]);
  }

  lemma StuckHere(st: State, a: Action)
    requires Inv(st) && Enabled(st, a) && !Quiet(a) && !a.MapTo?
    ensures var node, node' := st.nodes[a.n], After(st, a, a.n);
            && (Stuck(node) ==> Stuck(node') && node'.thread == node.thread)
            && (!Stuck(node) ==> (Stuck(node') <==> a.EvictMsg? && node.thread.Sending? && !node.posted))
  {
    assert NodeOk(st.cbIndex, st.toRb, st.lastOn, a.n, st.nodes[a.n]);
  }

  /** A thread gets stuck exactly when an eviction message arrives after the completion of its
      send and before it runs; it then stays so. */
  lemma StuckIff(st: State, a: Action, n: nat)
    requires Inv(st) && Enabled(st, a) && n < |st.nodes|
    ensures var node, node' := st.nodes[n], After(st, a, n);
            && (Stuck(node) ==> Stuck(node') && node'.thread == node.thread)
            && (!Stuck(node) ==> (Stuck(node') <==> a.n == n && a.EvictMsg? && node.thread.Sending? && !node.posted))
  {
    if a.n != n {
      OtherNode(st, a, n);
    } else if Quiet(a) {
      QuietNode(st, a);
    } else if a.MapTo? {
      MappedNode(st, a);
    } else {
      StuckHere(st, a);
    }
  }

  /** Over every run a stuck thread stays where it is, and its swap space, still mapped, is
      refused for reading and for writing. */
  lemma {:induction false} StuckForever(st: State, run: seq<Action>, n: nat)
    requires Inv(st) && LegalRun(st, run) && n < |st.nodes| && Stuck(st.nodes[n])
    ensures var end := Exec(st, run);
            && n < |end.nodes| && Stuck(end.nodes[n]) && end.nodes[n].thread == st.nodes[n].thread
            && Mapped(end, st.nodes[n].thread.s)
            && !ReadAllowed(end, st.nodes[n].thread.s) && !WriteAllowed(end, st.nodes[n].thread.s)
    decreases |run|
  {
    if run == [] {
      assert NodeOk(st.cbIndex, st.toRb, st.lastOn, n, st.nodes[n]);
    } else {
      StuckIff(st, run[0], n);
      StepKeepsInv(st, run[0]);
      StuckForever(Next(st, run[0]), run[1..], n);
    }
  }

  /** The next step of the thread, or of the network for it. */
  ghost predicate CanMove(st: State, n: nat) {
    || Enabled(st, Freeze(n)) || Enabled(st, Gather(n)) || Enabled(st, SendDelete(n)) || Enabled(st, SendDone(n))
    || Enabled(st, Wake(n)) || Enabled(st, Reset(n)) || Enabled(st, Finish(n))
  }

  lemma StuckCannotMove(st: State, n: nat)
    requires n < |st.nodes| && Stuck(st.nodes[n])
    ensures !CanMove(st, n)
  {
  }

  lemma SenderMoves(st: State, n: nat)
    requires Inv(st) && n < |st.nodes| && st.nodes[n].thread.Sending? && !Stuck(st.nodes[n])
    ensures Enabled(st, SendDone(n)) || Enabled(st, Wake(n))
  {
    assert NodeOk(st.cbIndex, st.toRb, st.lastOn, n, st.nodes[n]);
  }

  lemma OthersMove(st: State, n: nat)
    requires Inv(st) && n < |st.nodes|
    ensures var t := st.nodes[n].thread;
            && (t.Noted? ==> Enabled(st, Freeze(n))) && (t.Woken? ==> Enabled(st, Reset(n)))
            && (t.Unmapped? ==> Enabled(st, Finish(n)))
  {
    assert NodeOk(st.cbIndex, st.toRb, st.lastOn, n, st.nodes[n]);
    if st.nodes[n].thread.Noted? {
      EvictingOnRecord(st, n);
    }
  }

  /** Leaving aside a search that waits for its answers, an eviction under way can take its next
      step, with every index in range, if and only if its thread is not stuck. */
  lemma EvictionProceedsIff(st: State, n: nat)
    requires Inv(st) && n < |st.nodes| && !st.nodes[n].thread.Waiting?
    requires st.nodes[n].thread.Searching? ==> st.nodes[n].thread.todo == {}
    ensures CanMove(st, n) <==> !Stuck(st.nodes[n])
  {
    if Stuck(st.nodes[n]) {
      StuckCannotMove(st, n);
    } else if st.nodes[n].thread.Sending? {
      SenderMoves(st, n);
    } else {
      OthersMove(st, n);
    }
  }

  // ------------------------------------------------------------------ cleared keys

  /** The reset of node `n` clears the key of a block that goes on serving a mapped swap space. */
  ghost predicate Wipes(st: State, n: nat)
    requires Enabled(st, Reset(n))
  {
    var st' := Next(st, Reset(n));
    exists s: nat :: Mapped(st, s) && IntactAt(st, s) && Mapped(st', s) && !IntactAt(st', s)
                     && Serves(st'.nodes[st'.cbIndex[s]], st'.toRb[s], s)
  }

  lemma WrongMarkWipes(st: State, n: nat)
    requires Inv(st) && Enabled(st, Reset(n)) && st.nodes[n].mark != Some(st.nodes[n].thread.i)
    ensures Wipes(st, n)
  {
    var node := st.nodes[n];
    assert NodeOk(st.cbIndex, st.toRb, st.lastOn, n, node);
    var s := node.evictS;
    ServedOnRecord(st, n, node.evictI, s);
    ServedIsIntactIff(st, s);
    var st' := Next(st, Reset(n));
    assert Mapped(st', s) && !IntactAt(st', s) && Serves(st'.nodes[st'.cbIndex[s]], st'.toRb[s], s);
  }

  lemma RightMarkSpares(st: State, n: nat, s: nat)
    requires Inv(st) && Enabled(st, Reset(n)) && st.nodes[n].mark == Some(st.nodes[n].thread.i)
    requires Mapped(st, s) && IntactAt(st, s) && Mapped(Next(st, Reset(n)), s)
    ensures IntactAt(Next(st, Reset(n)), s)
  {
    assert NodeOk(st.cbIndex, st.toRb, st.lastOn, n, st.nodes[n]);
    if s != st.nodes[n].thread.s && st.cbIndex[s] == n {
      DistinctBlocks(st, s, st.nodes[n].thread.s);
    }
  }

  /** After every run, a reset clears a block still in use exactly when the mark is not on the
      block being evicted. */
  lemma ResetWipesIff(st: State, run: seq<Action>, n: nat)
    requires Initial(st) && LegalRun(st, run) && Enabled(Exec(st, run), Reset(n))
    ensures Wipes(Exec(st, run), n)
            <==> Exec(st, run).nodes[n].mark != Some(Exec(st, run).nodes[n].thread.i)
  {
    Reachable(st, run);
    var end := Exec(st, run);
    if end.nodes[n].mark != Some(end.nodes[n].thread.i) {
      WrongMarkWipes(end, n);
    } else {
      forall s: nat | Mapped(end, s) && IntactAt(end, s) && Mapped(Next(end, Reset(n)), s)
        ensures IntactAt(Next(end, Reset(n)), s)
      {
        RightMarkSpares(end, n, s);
      }
    }
  }

  /** The thread clears its own block, and no other has been cleared. */
  ghost predicate Clean(node: Node) {
    !Spoiled(node) && (node.thread.Sending? || node.thread.Woken? ==> node.mark == Some(node.thread.i))
  }

  lemma CleanHere(st: State, a: Action)
    requires Inv(st) && Enabled(st, a) && Clean(st.nodes[a.n]) && !Quiet(a) && !a.MapTo?
    ensures Clean(After(st, a, a.n)) <==> !Overlaps(st, a)
  {
    assert NodeOk(st.cbIndex, st.toRb, st.lastOn, a.n, st.nodes[a.n]);
    if a.EvictMsg? {
      assert IsMapped(st.nodes[a.n].table.blocks[a.i]);
    }
  }

  /** The mark leaves the evicted block exactly when an eviction message arrives between the
      sending of the delete and the reset. */
  lemma CleanIff(st: State, a: Action, n: nat)
    requires Inv(st) && Enabled(st, a) && n < |st.nodes| && Clean(st.nodes[n])
    ensures Clean(After(st, a, n)) <==> !(Overlaps(st, a) && a.n == n)
  {
    if a.n != n {
      OtherNode(st, a, n);
    } else if Quiet(a) {
      QuietNode(st, a);
    } else if a.MapTo? {
      MappedNode(st, a);
    } else {
      CleanHere(st, a);
    }
  }

  ghost predicate NoOverlap(st: State, run: seq<Action>)
    requires LegalRun(st, run)
    decreases |run|
  {
    run == [] || (!Overlaps(st, run[0]) && NoOverlap(Next(st, run[0]), run[1..]))
  }

  lemma {:induction false} CleanRun(st: State, run: seq<Action>, n: nat)
    requires Inv(st) && LegalRun(st, run) && NoOverlap(st, run) && n < |st.nodes| && Clean(st.nodes[n])
    ensures n < |Exec(st, run).nodes| && Clean(Exec(st, run).nodes[n])
    decreases |run|
  {
    if run != [] {
      CleanIff(st, run[0], n);
      StepKeepsInv(st, run[0]);
      CleanRun(Next(st, run[0]), run[1..], n);
    }
  }

  lemma {:induction false} SameNodes(st: State, run: seq<Action>)
    requires LegalRun(st, run)
    ensures |Exec(st, run).nodes| == |st.nodes|
    decreases |run|
  {
    if run != [] {
      SameNodes(Next(st, run[0]), run[1..]);
    }
  }

  /** In every run in which no eviction message overlaps the end of the previous eviction of its
      node: whenever the guards let an access through, the client holds the server's key and
      address for the block, and its bitmap is exactly the pages written. */
  lemma GuardedAccessIsIntact(st: State, run: seq<Action>, s: nat)
    requires Initial(st) && LegalRun(st, run) && NoOverlap(st, run)
    requires ReadAllowed(Exec(st, run), s) || WriteAllowed(Exec(st, run), s)
    ensures var end := Exec(st, run);
            IntactAt(end, s) && Serves(end.nodes[end.cbIndex[s]], end.toRb[s], s)
  {
    GuardedAccessIsServed(st, run, s);
    InitHasInv(st);
    SameNodes(st, run);
    var n := Exec(st, run).cbIndex[s];
    assert StartsUp(st.nodes[n]);
    CleanRun(st, run, n);
  }

  lemma SpoilHere(st: State, a: Action)
    requires Inv(st) && Enabled(st, a) && !Quiet(a) && !a.MapTo?
    ensures var node, node' := st.nodes[a.n], After(st, a, a.n);
            && (!Spoiled(node) ==> (Spoiled(node') <==> a.Reset? && node.mark != Some(node.thread.i)))
            && (Doomed(node) ==> Doomed(node') || (a.Reset? && Spoiled(node')))
  {
    assert NodeOk(st.cbIndex, st.toRb, st.lastOn, a.n, st.nodes[a.n]);
  }

  /** A node is spoiled exactly by a reset whose mark is on another block. */
  lemma SpoilIff(st: State, a: Action, n: nat)
    requires Inv(st) && Enabled(st, a) && n < |st.nodes| && !Spoiled(st.nodes[n])
    ensures Spoiled(After(st, a, n))
            <==> a == Reset(n) && st.nodes[n].mark != Some(st.nodes[n].thread.i)
  {
    if a.n != n {
      OtherNode(st, a, n);
    } else if Quiet(a) {
      QuietNode(st, a);
    } else if a.MapTo? {
      MappedNode(st, a);
    } else {
      SpoilHere(st, a);
    }
  }

  /** A doomed thread can move, and the only way out is the reset that spoils its node. */
  lemma DoomedSpoils(st: State, a: Action)
    requires Inv(st) && Enabled(st, a) && !Quiet(a) && Doomed(st.nodes[a.n])
    ensures CanMove(st, a.n)
    ensures Doomed(After(st, a, a.n)) || (a.Reset? && Spoiled(After(st, a, a.n)))
  {
    EvictionProceedsIff(st, a.n);
    if a.MapTo? {
      MappedNode(st, a);
    } else {
      SpoilHere(st, a);
    }
  }

  lemma SpoiledStaysHere(st: State, a: Action)
    requires Inv(st) && Enabled(st, a) && Spoiled(st.nodes[a.n]) && !Quiet(a)
    ensures var node, node' := st.nodes[a.n], After(st, a, a.n);
            Spoiled(node') && node'.evictI == node.evictI && node'.evictS == node.evictS
  {
    assert NodeOk(st.cbIndex, st.toRb, st.lastOn, a.n, st.nodes[a.n]);
  }

  lemma SpoiledStays(st: State, a: Action, n: nat)
    requires Inv(st) && Enabled(st, a) && n < |st.nodes| && Spoiled(st.nodes[n])
    ensures var node, node' := st.nodes[n], After(st, a, n);
            Spoiled(node') && node'.evictI == node.evictI && node'.evictS == node.evictS
  {
    if a.n != n {
      OtherNode(st, a, n);
    } else if Quiet(a) {
      QuietNode(st, a);
    } else {
      SpoiledStaysHere(st, a);
    }
  }

  /** Over every run a cleared block goes on serving its swap space at the server, without a key
      at the client. */
  lemma {:induction false} SpoiledForever(st: State, run: seq<Action>, n: nat)
    requires Inv(st) && LegalRun(st, run) && n < |st.nodes| && Spoiled(st.nodes[n])
    ensures var end := Exec(st, run);
            && n < |end.nodes| && Spoiled(end.nodes[n]) && end.nodes[n].evictI == st.nodes[n].evictI
            && Serves(end.nodes[n], st.nodes[n].evictI, st.nodes[n].evictS) && !Keyed(end.nodes[n], st.nodes[n].evictI)
    decreases |run|
  {
    if run == [] {
      assert NodeOk(st.cbIndex, st.toRb, st.lastOn, n, st.nodes[n]);
    } else {
      SpoiledStays(st, run[0], n);
      StepKeepsInv(st, run[0]);
      SpoiledForever(Next(st, run[0]), run[1..], n);
    }
  }
}
