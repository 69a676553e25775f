/** Two runs in which a second eviction message reaches a node before the first eviction is over.
    In one the client clears the key of a block still in use, in the other its thread waits for
    good. Both start like the run of `StaleFinish`, and every step is one the program takes. */
module OverlapRuns {
  import opened Options
  import opened Config
  import opened Daemon
  import opened Eviction
  import opened Agreement
  import opened AgreementInvariant
  import opened AgreementTheorems
  import opened StaleFinish

  /** The server has deleted block 0; block 1 still serves swap space 1. */
  ghost predicate Half(st: State, thread: Thread) {
    && ThreeByTwo(st) && st.cbIndex == [0, 0, 1] && st.toRb == [0, 1, 0]
    && st.nodes[0].thread == thread && st.nodes[0].cbState == CB_MIGRATING && st.nodes[0].conn == 0
    && |st.nodes[0].rbState| == MAX_FREE_MEM_GB && st.nodes[0].rbState[1] == ACTIVE
    && st.nodes[0].transit.None? && OnlyBlock1(st.nodes[0].table.blocks)
  }

  ghost predicate OnlyBlock1(bs: seq<Block>) {
    && |bs| == MAX_FREE_MEM_GB && bs[1].owner == 0 && bs[1].stamp == 2
    && forall k :: 0 <= k < |bs| && k != 1 ==> !bs[k].malloced && bs[k].owner == -1
  }

  lemma {:induction false} PickOnly(bs: seq<Block>, n: nat)
    requires OnlyBlock1(bs) && n <= |bs|
    ensures Pick(bs, n).index == if n <= 1 then -1 else 1
    ensures n > 1 ==> Pick(bs, n).oldest == 2
  {
    if n > 0 {
      PickOnly(bs, n - 1);
    }
  }

  lemma Handles(st: State, thread: Thread)
    requires Inv(st) && At(st, thread) && st.nodes[0].transit == Some(0)
    ensures AsCoded(st, HandleDelete(0)) && Half(Next(st, HandleDelete(0)), thread)
    ensures var node, node' := st.nodes[0], Next(st, HandleDelete(0)).nodes[0];
            !node'.pending && node'.posted == node.posted && node'.cState == node.cState
  {
    assert NodeOk(st.cbIndex, st.toRb, st.lastOn, 0, st.nodes[0]);
    DeletedTable(st.nodes[0], 0);
  }

  /** The client's block 1 is announced for eviction, while the thread is still at block 0. */
  lemma AnnouncesSecond(st: State, thread: Thread)
    requires Inv(st) && Half(st, thread) && !st.nodes[0].pending
    ensures AsCoded(st, EvictMsg(0, 1)) && Half(Next(st, EvictMsg(0, 1)), thread)
    ensures var node, node' := st.nodes[0], Next(st, EvictMsg(0, 1)).nodes[0];
            node'.posted == node.posted && node'.cState.RbhEvict? && node'.mark == Some(1) && node'.pending
  {
    var node := st.nodes[0];
    assert NodeOk(st.cbIndex, st.toRb, st.lastOn, 0, node);
    assert Ours(node, 1);
    PickOnly(node.table.blocks, |node.table.blocks|);
    FirstIs(node.table.blocks, |node.table.blocks|);
  }

  /** Swap space 1 is mapped and served, the guards let it through, and its key is gone. */
  ghost predicate Wiped(st: State) {
    && ThreeByTwo(st) && Mapped(st, 1) && Serves(st.nodes[st.cbIndex[1]], st.toRb[1], 1)
    && ReadAllowed(st, 1) && WriteAllowed(st, 1) && !Keyed(st.nodes[st.cbIndex[1]], st.toRb[1])
    && st.cbIndex[1] == 0 && st.toRb[1] == 1 && |st.nodes[0].bits| == MAX_FREE_MEM_GB && st.nodes[0].bits[1] == {}
  }

  lemma ClearsSecond(st: State)
    requires Inv(st) && Half(st, Woken(0, 0)) && st.nodes[0].mark == Some(1)
    ensures AsCoded(st, Reset(0)) && Wiped(Next(st, Reset(0)))
  {
    var node := st.nodes[0];
    assert NodeOk(st.cbIndex, st.toRb, st.lastOn, 0, node);
    assert Ours(node, 1);
    assert ClientOk(st.cbIndex, st.toRb, st.lastOn, st.written, st.nodes, 1);
  }

  lemma WriteIsLost(st: State, page: nat)
    requires Inv(st) && Wiped(st)
    ensures AsCoded(st, Write(0, 1, page)) && Wiped(Next(st, Write(0, 1, page)))
    ensures page in Next(st, Write(0, 1, page)).written[1]
  {
    assert NodeOk(st.cbIndex, st.toRb, st.lastOn, 0, st.nodes[0]);
  }

  lemma Step(st0: State, run0: seq<Action>, st: State, a: Action) returns (run: seq<Action>, end: State)
    requires Follows(st0, run0, st) && Inv(st) && AsCoded(st, a)
    ensures Follows(st0, run, end) && Inv(end) && end == Next(st, a)
  {
    FollowsNext(st0, run0, st, a);
    StepKeepsInv(st, a);
    run, end := run0 + [a], Next(st, a);
  }

  lemma AtStage(k: nat) returns (st0: State, run: seq<Action>, st: State)
    requires k <= STEPS
    ensures Initial(st0) && Follows(st0, run, st) && InStage(k, st)
  {
    st0 := Begin();
    run, st := DriveStages(st0, k);
  }

  /** The delete of block 0 is handled and block 1 announced, both before the thread runs on. */
  lemma SecondArrives(st0: State, run0: seq<Action>, st: State, thread: Thread) returns (run: seq<Action>, end: State)
    requires Follows(st0, run0, st) && Inv(st) && At(st, thread) && st.nodes[0].transit == Some(0)
    ensures Follows(st0, run, end) && Inv(end) && Half(end, thread) && end.nodes[0].pending
    ensures end.nodes[0].posted == st.nodes[0].posted && end.nodes[0].cState.RbhEvict? && end.nodes[0].mark == Some(1)
  {
    Handles(st, thread);
    run, end := Step(st0, run0, st, HandleDelete(0));
    AnnouncesSecond(end, thread);
    run, end := Step(st0, run, end, EvictMsg(0, 1));
  }

  lemma StageWoken() returns (st0: State, run: seq<Action>, st: State)
    ensures Initial(st0) && Follows(st0, run, st) && Inv(st) && At(st, Woken(0, 0)) && st.nodes[0].transit == Some(0)
  {
    st0, run, st := AtStage(15);
  }

  lemma WipingReset() returns (st0: State, run: seq<Action>, st: State)
    ensures Initial(st0) && Follows(st0, run, st) && Inv(st) && Wiped(st)
  {
    st0, run, st := StageWoken();
    run, st := SecondArrives(st0, run, st, Woken(0, 0));
    ClearsSecond(st);
    run, st := Step(st0, run, st, Reset(0));
  }

  /** The second eviction message arrives when the thread has seen the completion of its delete
      and not cleared its record yet. The reset clears block 1, which goes on serving swap space
      1: reads and writes are let through, a page written is not recorded and cannot be found. */
  lemma OverlapLosesPages(page: nat) returns (st0: State, run: seq<Action>, end: State)
    ensures Initial(st0) && Follows(st0, run, end)
    ensures Wiped(end) && page in end.written[1] && page !in end.nodes[0].bits[1]
  {
    st0, run, end := WipingReset();
    WriteIsLost(end, page);
    run, end := Step(st0, run, end, Write(0, 1, page));
  }

  lemma StageSent() returns (st0: State, run: seq<Action>, st: State)
    ensures Initial(st0) && Follows(st0, run, st) && Inv(st) && At(st, Sending(0, 0))
    ensures st.nodes[0].transit == Some(0) && !st.nodes[0].posted
  {
    st0, run, st := AtStage(14);
    SentIsCompleted(st);
  }

  lemma SentIsCompleted(st: State)
    requires InStage(14, st)
    ensures Inv(st) && At(st, Sending(0, 0)) && st.nodes[0].transit == Some(0) && !st.nodes[0].posted
  {
    assert NodeOk(st.cbIndex, st.toRb, st.lastOn, 0, st.nodes[0]);
  }

  /** It arrives when the send of the delete has completed and the thread not run yet: the thread
      never runs again, and swap space 0, still mapped, is neither read nor written any more. */
  lemma OverlapHangsThread() returns (st0: State, run: seq<Action>, end: State)
    ensures Initial(st0) && Follows(st0, run, end) && Inv(end)
    ensures ThreeByTwo(end) && Stuck(end.nodes[0]) && end.nodes[0].thread == Sending(0, 0)
  {
    st0, run, end := StageSent();
    run, end := SecondArrives(st0, run, end, Sending(0, 0));
  }
}
