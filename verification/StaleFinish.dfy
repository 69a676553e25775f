/** A run in which the end of one eviction takes away another swap space's permission to
    write, although its block is still served. Every step of it is one the program takes: the
    node mapped is the one selection picks, and the block evicted the one the age scan picks. */
module StaleFinish {
  import opened Options
  import opened Config
  import opened Daemon
  import opened Eviction
  import opened Agreement
  import opened AgreementInvariant
  import opened AgreementTheorems
  import NodeSelection

  // ------------------------------------------------------------------ runs of the program

  /** Node `n` is the one `find_the_best_node` returns when all usable nodes are queried in
      order: connected, with more free memory than those before it and no less than the rest. */
  ghost predicate Selected(nodes: seq<Node>, n: nat) {
    n < |nodes| && forall m :: 0 <= m < |nodes| && nodes[m].cbState < CB_MIGRATING ==>
      && nodes[m].cbState > CB_IDLE && Advertised(nodes[m].table) <= Advertised(nodes[n].table)
      && (m < n ==> Advertised(nodes[m].table) < Advertised(nodes[n].table))
  }

  ghost function StatesOf(nodes: seq<Node>): (r: seq<nat>)
    ensures |r| == |nodes| && forall m :: 0 <= m < |nodes| ==> r[m] == nodes[m].cbState
  {
    seq(|nodes|, m requires 0 <= m < |nodes| => nodes[m].cbState)
  }

  ghost function RepliesOf(nodes: seq<Node>): (r: seq<nat>)
    ensures |r| == |nodes| && forall m :: 0 <= m < |nodes| ==> r[m] == Advertised(nodes[m].table)
  {
    seq(|nodes|, m requires 0 <= m < |nodes| => Advertised(nodes[m].table))
  }

  /** The node selected is the one `find_the_best_node` has to choose when it queries them all. */
  lemma SelectedIsBest(nodes: seq<Node>, n: nat)
    requires Selected(nodes, n) && nodes[n].cbState < CB_MIGRATING && Advertised(nodes[n].table) > 0
    ensures var queried := NodeSelection.Candidates(StatesOf(nodes), |nodes|);
            && NodeSelection.AllBelow(queried, |RepliesOf(nodes)|)
            && NodeSelection.BestOf([n], queried, RepliesOf(nodes), 1)
  {
    NodeSelection.CandidatesDistinct(StatesOf(nodes), |nodes|);
  }

  /** A search finds nothing exactly when every usable node answers 0. */
  lemma NothingServesIff(nodes: seq<Node>)
    ensures NodeSelection.Serving(StatesOf(nodes), RepliesOf(nodes)) == {}
            <==> forall m: nat :: m in UsableNodes(nodes) ==> Advertised(nodes[m].table) == 0
  {
    var states, replies := StatesOf(nodes), RepliesOf(nodes);
    var serving := NodeSelection.Serving(states, replies);
    forall m: nat
      ensures m in serving <==> m in UsableNodes(nodes) && Advertised(nodes[m].table) != 0
    {
      assert m < |nodes| ==> states[m] == nodes[m].cbState && replies[m] == Advertised(nodes[m].table);
    }
  }

  /** Block `i` is the one `do_evict` evicts: nothing is unmapped, and the age scan picks it. */
  ghost predicate Oldest(t: Table, i: nat) {
    First(IsFree, t.blocks, 0) == |t.blocks| && Pick(t.blocks, |t.blocks|).index == i
  }

  ghost predicate AsCoded(st: State, a: Action) {
    && Enabled(st, a)
    && (a.MapTo? ==> Selected(st.nodes, a.n))
    && (a.EvictMsg? ==> Oldest(st.nodes[a.n].table, a.i))
  }

  ghost predicate Follows(st: State, run: seq<Action>, end: State)
    decreases |run|
  {
    if run == [] then st == end
    else AsCoded(st, run[0]) && Follows(Next(st, run[0]), run[1..], end)
  }

  lemma {:induction false} FollowsIsLegal(st: State, run: seq<Action>, end: State)
    requires Follows(st, run, end)
    ensures LegalRun(st, run) && Exec(st, run) == end
    decreases |run|
  {
    if run != [] {
      FollowsIsLegal(Next(st, run[0]), run[1..], end);
    }
  }

  lemma {:induction false} FollowsNext(st: State, run: seq<Action>, mid: State, a: Action)
    requires Follows(st, run, mid) && AsCoded(mid, a)
    ensures Follows(st, run + [a], Next(mid, a))
    decreases |run|
  {
    if run == [] {
      assert Follows(Next(st, a), [], Next(mid, a));
    } else {
      FollowsNext(Next(st, run[0]), run[1..], mid, a);
      assert (run + [a])[1..] == run[1..] + [a];
    }
  }

  // ------------------------------------------------------------------ tables laid out from block 0

  /** Exactly the first blocks are allocated, with these owners; `mapped` of them are mapped. */
  ghost predicate Layout(t: Table, owners: seq<int>, mapped: int) {
    && |t.blocks| == MAX_FREE_MEM_GB && |owners| <= MAX_FREE_MEM_GB
    && t.sizeGb == |owners| && t.mappedSize == mapped
    && forall k :: 0 <= k < |t.blocks| ==>
         if k < |owners| then t.blocks[k].malloced && t.blocks[k].owner == owners[k]
         else !t.blocks[k].malloced && t.blocks[k].owner == -1
  }

  lemma FirstIs(bs: seq<Block>, i: nat)
    requires i <= |bs| && (i < |bs| ==> IsFree(bs[i])) && forall k :: 0 <= k < i ==> !IsFree(bs[k])
    ensures First(IsFree, bs, 0) == i
  {
  }

  lemma LayoutOfInit(freeMem: int, owners: seq<int>)
    requires |owners| == SessionSize(freeMem) && forall k :: 0 <= k < |owners| ==> owners[k] == -1
    ensures Layout(InitTable(freeMem), owners, 0)
  {
    var bs := InitTable(freeMem).blocks;
    assert forall k :: 0 <= k < |bs| ==> bs[k] == Fresh(k < |owners|);
  }

  lemma ExpandByOne(t: Table, owners: seq<int>, mapped: int)
    requires Layout(t, owners, mapped) && |owners| < MAX_FREE_MEM_GB
    ensures ExpandSize(t, 21) == 1 && Layout(Expanded(t, 21), owners + [-1], mapped)
  {
    var n := |owners|;
    forall k | 0 <= k < |t.blocks|
      ensures Expanded(t, 21).blocks[k] == if k == n then Allocated(t.blocks[k]) else t.blocks[k]
    {
      AppliedAt(IsEmpty, Allocated, t.blocks, 1, k);
      CountZero(IsEmpty, t.blocks[..k]);
      if k > n {
        assert IsEmpty(t.blocks[..k][n]);
      }
    }
  }

  /** Two mapped blocks with ages 1 and 2: the scan picks the first. */
  lemma {:induction false} PickFirst(bs: seq<Block>, n: nat)
    requires 2 <= n <= |bs| && IsMapped(bs[0]) && IsMapped(bs[1]) && bs[0].stamp == 1 && bs[1].stamp == 2
    requires forall k :: 2 <= k < |bs| ==> !IsMapped(bs[k])
    ensures Pick(bs, n) == Scan(0, 1)
  {
    if n == 2 {
      assert Pick(bs, 0) == Scan(-1, 0);
      assert Pick(bs, 1) == Scan(0, 1);
    } else {
      PickFirst(bs, n - 1);
    }
  }

  // ------------------------------------------------------------------ setting up

  /** A server before anyone connected. */
  function Server0(freeMem: int): Node {
    Node(InitTable(freeMem), seq<Mr>(MAX_FREE_MEM_GB, _ => NO_MR), 0,
         CB_IDLE, seq<nat>(MAX_FREE_MEM_GB, _ => 0), seq<int>(MAX_FREE_MEM_GB, _ => -1),
         seq<Mr>(MAX_FREE_MEM_GB, _ => NO_MR), seq<set<nat>>(MAX_FREE_MEM_GB, _ => {}),
         RbhIdle, 0, 0, None, Waiting, false, None, false)
  }

  /** Any key and address will do. */
  const MR: Mr := Mr(1, 0)

  /** No eviction under way and none announced. */
  ghost predicate Calm(node: Node, cbState: nat) {
    && node.thread.Waiting? && node.cState.RbhIdle? && !node.pending && node.transit.None? && !node.posted
    && node.conn == 0 && node.cbState == cbState && |node.rbState| == MAX_FREE_MEM_GB
  }

  ghost predicate ThreeByTwo(st: State) {
    |st.cbIndex| == |st.toRb| == |st.lastOn| == |st.written| == 3 && |st.nodes| == 2
  }

  // ------------------------------------------------------------------ the run, step by step

  /** Server 0 has two blocks, server 1 has one. Swap spaces 0 and 1 go to server 0, swap space
      2 to server 1; the blocks of server 0 are written. Swap space 0 is evicted; server 1 is
      full, so there is no destination. Server 1 grows and swap space 0 is mapped there, as
      block 1; the end of the eviction then marks block 1 of server 0. */
  function Act(i: nat): Action {
    match i
    case 0 => Query(0)
    case 1 => Query(1)
    case 2 => MapTo(0, 0, MR)
    case 3 => MapTo(1, 0, MR)
    case 4 => MapTo(2, 1, MR)
    case 5 => Server(0, Touches(0, 1))
    case 6 => Server(0, Touches(1, 2))
    case 7 => EvictMsg(0, 0)
    case 8 => Note(0)
    case 9 => Freeze(0)
    case 10 => Gather(0)
    case 11 => Ask(0, 1)
    case 12 => SendDelete(0)
    case 13 => SendDone(0)
    case 14 => Wake(0)
    case 15 => Reset(0)
    case 16 => Server(1, Expands(21))
    case 17 => MapTo(0, 1, MR)
    case 18 => Finish(0)
    case _ => HandleDelete(0)
  }

  const STEPS: nat := 20

  ghost predicate Begun(st: State) {
    ThreeByTwo(st) && st.cbIndex == [-1, -1, -1] && st.nodes == [Server0(12), Server0(11)]
  }

  /** Both servers connected to, nothing mapped. */
  ghost predicate AllFree(st: State) {
    && ThreeByTwo(st) && st.cbIndex == [-1, -1, -1]
    && Calm(st.nodes[0], CB_CONNECTED) && Calm(st.nodes[1], CB_CONNECTED)
    && Layout(st.nodes[0].table, [-1, -1], 0) && Layout(st.nodes[1].table, [-1], 0)
  }

  ghost predicate HalfConnected(st: State) {
    && ThreeByTwo(st) && st.cbIndex == [-1, -1, -1] && Calm(st.nodes[0], CB_CONNECTED) && Calm(st.nodes[1], CB_IDLE)
    && Layout(st.nodes[0].table, [-1, -1], 0) && Layout(st.nodes[1].table, [-1], 0)
  }

  ghost predicate OneMapped(st: State) {
    && ThreeByTwo(st) && st.cbIndex == [0, -1, -1] && st.toRb[0] == 0
    && Calm(st.nodes[0], CB_MAPPED) && Calm(st.nodes[1], CB_CONNECTED)
    && Layout(st.nodes[0].table, [0, -1], 1) && Layout(st.nodes[1].table, [-1], 0)
  }

  ghost predicate TwoMapped(st: State) {
    && ThreeByTwo(st) && st.cbIndex == [0, 0, -1] && st.toRb[0] == 0 && st.toRb[1] == 1
    && Calm(st.nodes[0], CB_MAPPED) && Calm(st.nodes[1], CB_CONNECTED) && st.nodes[0].rbState[1] == ACTIVE
    && Layout(st.nodes[0].table, [0, 0], 2) && Layout(st.nodes[1].table, [-1], 0)
  }

  /** Swap spaces 0 and 1 on blocks 0 and 1 of server 0, swap space 2 on block 0 of server 1;
      both servers full. */
  ghost predicate ThreeMapped(st: State) {
    && ThreeByTwo(st) && st.cbIndex == [0, 0, 1] && st.toRb == [0, 1, 0]
    && Calm(st.nodes[0], CB_MAPPED) && Calm(st.nodes[1], CB_MAPPED) && st.nodes[0].rbState[1] == ACTIVE
    && Layout(st.nodes[0].table, [0, 0], 2) && Layout(st.nodes[1].table, [0], 1)
  }

  /** The eviction of swap space 0 is under way on server 0; nothing else has changed. */
  ghost predicate Going(st: State) {
    && ThreeByTwo(st) && st.cbIndex == [0, 0, 1] && st.toRb == [0, 1, 0]
    && |st.nodes[0].rbState| == MAX_FREE_MEM_GB && st.nodes[0].rbState[1] == ACTIVE && st.nodes[0].conn == 0
    && Layout(st.nodes[0].table, [0, 0], 2)
    && st.nodes[0].table.blocks[0].stamp == 1 && st.nodes[0].table.blocks[1].stamp == 2
    && Calm(st.nodes[1], CB_MAPPED) && Layout(st.nodes[1].table, [0], 1)
  }

  /** Both blocks of server 0 have been written, block 0 first. */
  ghost predicate Aged(st: State) {
    ThreeMapped(st) && st.nodes[0].table.blocks[0].stamp == 1 && st.nodes[0].table.blocks[1].stamp == 2
  }

  ghost predicate Announced(st: State) {
    && Going(st) && st.nodes[0].thread.Waiting? && st.nodes[0].cState.RbhEvict?
    && st.nodes[0].evictS == 0 && st.nodes[0].evictI == 0
  }

  ghost predicate At(st: State, thread: Thread) {
    Going(st) && st.nodes[0].thread == thread && st.nodes[0].cbState == CB_MIGRATING
  }

  /** Swap space 0 is unmapped, and the thread has still to mark its block. */
  ghost predicate Cleared(st: State, owners: seq<int>) {
    && ThreeByTwo(st) && st.cbIndex == [-1, 0, 1] && st.toRb == [0, 1, 0]
    && st.nodes[0].thread == Unmapped(0, 0) && st.nodes[0].cbState == CB_MIGRATING
    && st.nodes[0].transit == Some(0)
    && Calm(st.nodes[1], CB_MAPPED) && Layout(st.nodes[1].table, owners, 1)
  }

  /** Swap space 0 is mapped again, on block 1 of server 1. */
  ghost predicate Remapped(st: State) {
    && ThreeByTwo(st) && st.cbIndex == [1, 0, 1] && st.toRb == [1, 1, 0]
    && st.nodes[0].thread == Unmapped(0, 0) && st.nodes[0].transit == Some(0) && Calm(st.nodes[1], CB_MAPPED)
  }

  /** Swap space 1 on block 1 of server 0, whose state has been set to INACTIVE. */
  ghost predicate Marked(st: State) {
    && ThreeByTwo(st) && st.cbIndex == [1, 0, 1] && st.toRb == [1, 1, 0] && st.nodes[0].thread.Waiting?
    && |st.nodes[0].rbState| == MAX_FREE_MEM_GB && st.nodes[0].rbState[1] == INACTIVE
    && Calm(st.nodes[1], CB_MAPPED)
  }

  ghost predicate Stage(i: nat, st: State) {
    match i
    case 0 => Begun(st)
    case 1 => HalfConnected(st)
    case 2 => AllFree(st)
    case 3 => OneMapped(st)
    case 4 => TwoMapped(st)
    case 5 => ThreeMapped(st)
    case 6 => ThreeMapped(st) && st.nodes[0].table.blocks[0].stamp == 1
    case 7 => Aged(st)
    case 8 => Announced(st)
    case 9 => At(st, Noted(0, 0))
    case 10 => At(st, Frozen(0, 0))
    case 11 => At(st, Searching(0, 0, {1}))
    case 12 => At(st, Searching(0, 0, {}))
    case 13 => At(st, Sending(0, 0)) && st.nodes[0].posted && st.nodes[0].transit == Some(0)
    case 14 => At(st, Sending(0, 0)) && st.nodes[0].cState.RbhDelete? && st.nodes[0].transit == Some(0)
    case 15 => At(st, Woken(0, 0)) && st.nodes[0].transit == Some(0)
    case 16 => Cleared(st, [0])
    case 17 => Cleared(st, [0, -1])
    case 18 => Remapped(st)
    case 19 => Marked(st) && st.nodes[0].transit == Some(0)
    case _ => Marked(st) && st.nodes[0].transit.None?
  }

  /** From one stage to the next, by a step the program takes. */
  ghost predicate Leads(i: nat, st: State) {
    AsCoded(st, Act(i)) && Stage(i + 1, Next(st, Act(i)))
  }

  lemma Connects0(st: State)
    requires Inv(st) && Begun(st)
    ensures AsCoded(st, Query(0)) && HalfConnected(Next(st, Query(0)))
  {
    assert SessionSize(12) == 2 && SessionSize(11) == 1;
    LayoutOfInit(12, [-1, -1]);
    LayoutOfInit(11, [-1]);
  }

  lemma Connects1(st: State)
    requires Inv(st) && HalfConnected(st)
    ensures AsCoded(st, Query(1)) && AllFree(Next(st, Query(1)))
  {
  }

  /** A map takes the first unmapped block of a layout. */
  lemma MapLayout(node: Node, s: nat, k: nat, owners: seq<int>, mapped: int)
    requires NodeShaped(node) && CB_IDLE < node.cbState && node.conn == 0
    requires Layout(node.table, owners, mapped) && mapped < |owners|
    requires k < |owners| && owners[k] == -1 && forall j :: 0 <= j < k ==> owners[j] != -1
    ensures WellFormed(node.table, Maps(node.conn, s, 0)) && First(IsFree, node.table.blocks, 0) == k
    ensures var node' := MapNode(node, s, MR);
            && Layout(node'.table, owners[k := 0], mapped + 1) && node'.rbState == node.rbState[k := ACTIVE]
            && node' == node.(table := node'.table, mr := node'.mr, cbState := CB_MAPPED, rbState := node'.rbState,
                              rbIdx := node'.rbIdx, remote := node'.remote, bits := node'.bits, cState := RbhIdle)
  {
    assert IndexMatches(node.table.rbIdx[node.conn], node.table.blocks, node.conn);
    FirstIs(node.table.blocks, k);
    MapShape(node, s, MR);
  }

  /** What a map step does on a node with a layout. */
  lemma MapOn(st: State, s: nat, n: nat, k: nat, owners: seq<int>, mapped: int)
    requires Inv(st) && s < |st.cbIndex| && st.cbIndex[s] == NO_CB_MAPPED
    requires Selected(st.nodes, n) && Calm(st.nodes[n], st.nodes[n].cbState)
    requires CB_IDLE < st.nodes[n].cbState < CB_MIGRATING
    requires Layout(st.nodes[n].table, owners, mapped) && mapped < |owners|
    requires k < |owners| && owners[k] == -1 && forall j :: 0 <= j < k ==> owners[j] != -1
    ensures AsCoded(st, MapTo(s, n, MR)) && |st.toRb| == |st.lastOn| == |st.cbIndex|
    ensures var end := Next(st, MapTo(s, n, MR));
            && end.cbIndex == st.cbIndex[s := n] && end.toRb == st.toRb[s := k] && end.lastOn == st.lastOn[s := n]
            && |end.nodes| == |st.nodes| && end.nodes == st.nodes[n := end.nodes[n]]
            && Calm(end.nodes[n], CB_MAPPED) && Layout(end.nodes[n].table, owners[k := 0], mapped + 1)
            && end.nodes[n].rbState == st.nodes[n].rbState[k := ACTIVE]
  {
    var node := st.nodes[n];
    assert NodeOk(st.cbIndex, st.toRb, st.lastOn, n, node);
    MapLayout(node, s, k, owners, mapped);
  }

  lemma Maps0(st: State)
    requires Inv(st) && AllFree(st)
    ensures AsCoded(st, MapTo(0, 0, MR)) && OneMapped(Next(st, MapTo(0, 0, MR)))
  {
    MapOn(st, 0, 0, 0, [-1, -1], 0);
    assert [-1, -1][0 := 0] == [0, -1];
  }

  lemma Maps1(st: State)
    requires Inv(st) && OneMapped(st)
    ensures AsCoded(st, MapTo(1, 0, MR)) && TwoMapped(Next(st, MapTo(1, 0, MR)))
  {
    MapOn(st, 1, 0, 1, [0, -1], 1);
    assert [0, -1][1 := 0] == [0, 0];
  }

  lemma Maps2(st: State)
    requires Inv(st) && TwoMapped(st)
    ensures AsCoded(st, MapTo(2, 1, MR)) && ThreeMapped(Next(st, MapTo(2, 1, MR)))
  {
    MapOn(st, 2, 1, 0, [-1], 0);
    assert [-1][0 := 0] == [0];
  }

  lemma Writes(st: State, i: nat, now: nat)
    requires Inv(st) && ThreeMapped(st) && i < 2
    ensures var a := Server(0, Touches(i, now));
            && AsCoded(st, a) && ThreeMapped(Next(st, a)) && Next(st, a).nodes[0].table.blocks[i].stamp == now
            && Next(st, a).nodes[0].table.blocks[1 - i] == st.nodes[0].table.blocks[1 - i]
  {
  }

  lemma Announces(st: State)
    requires Inv(st) && Aged(st)
    ensures AsCoded(st, EvictMsg(0, 0)) && Announced(Next(st, EvictMsg(0, 0)))
  {
    OwnerOf(st, 0, 0, 0);
    var bs := st.nodes[0].table.blocks;
    PickFirst(bs, |bs|);
    FirstIs(bs, |bs|);
  }

  lemma Notes(st: State)
    requires Inv(st) && Announced(st)
    ensures AsCoded(st, Note(0)) && At(Next(st, Note(0)), Noted(0, 0))
  {
  }

  lemma Freezes(st: State)
    requires Inv(st) && At(st, Noted(0, 0))
    ensures AsCoded(st, Freeze(0)) && At(Next(st, Freeze(0)), Frozen(0, 0))
  {
  }

  /** Server 1 is the only candidate ... */
  lemma Gathers(st: State)
    requires Inv(st) && At(st, Frozen(0, 0))
    ensures AsCoded(st, Gather(0)) && At(Next(st, Gather(0)), Searching(0, 0, {1}))
  {
    assert UsableNodes(st.nodes) == {1};
  }

  /** ... and it is full. */
  lemma Asks(st: State)
    requires Inv(st) && At(st, Searching(0, 0, {1}))
    ensures AsCoded(st, Ask(0, 1)) && At(Next(st, Ask(0, 1)), Searching(0, 0, {}))
  {
    assert {1} - {1} == {};
  }

  lemma Sends(st: State)
    requires Inv(st) && At(st, Searching(0, 0, {}))
    ensures AsCoded(st, SendDelete(0)) && At(Next(st, SendDelete(0)), Sending(0, 0))
    ensures Next(st, SendDelete(0)).nodes[0].posted && Next(st, SendDelete(0)).nodes[0].transit == Some(0)
  {
    assert NodeOk(st.cbIndex, st.toRb, st.lastOn, 0, st.nodes[0]);
  }

  lemma Completes(st: State)
    requires Inv(st) && At(st, Sending(0, 0)) && st.nodes[0].posted && st.nodes[0].transit == Some(0)
    ensures AsCoded(st, SendDone(0)) && At(Next(st, SendDone(0)), Sending(0, 0))
    ensures Next(st, SendDone(0)).nodes[0].cState.RbhDelete? && Next(st, SendDone(0)).nodes[0].transit == Some(0)
  {
  }

  lemma Wakes(st: State)
    requires Inv(st) && At(st, Sending(0, 0)) && st.nodes[0].cState.RbhDelete? && st.nodes[0].transit == Some(0)
    ensures AsCoded(st, Wake(0)) && At(Next(st, Wake(0)), Woken(0, 0)) && Next(st, Wake(0)).nodes[0].transit == Some(0)
  {
  }

  lemma Clears(st: State)
    requires Inv(st) && At(st, Woken(0, 0)) && st.nodes[0].transit == Some(0)
    ensures AsCoded(st, Reset(0)) && Cleared(Next(st, Reset(0)), [0])
  {
    assert NodeOk(st.cbIndex, st.toRb, st.lastOn, 0, st.nodes[0]);
  }

  lemma Grows(st: State)
    requires Inv(st) && Cleared(st, [0])
    ensures AsCoded(st, Server(1, Expands(21))) && Cleared(Next(st, Server(1, Expands(21))), [0, -1])
  {
    ExpandByOne(st.nodes[1].table, [0], 1);
    assert [0] + [-1] == [0, -1];
  }

  lemma Remaps(st: State)
    requires Inv(st) && Cleared(st, [0, -1])
    ensures AsCoded(st, MapTo(0, 1, MR)) && Remapped(Next(st, MapTo(0, 1, MR)))
  {
    assert Selected(st.nodes, 1);
    MapOn(st, 0, 1, 1, [0, -1], 1);
  }

  lemma Marks(st: State)
    requires Inv(st) && Remapped(st)
    ensures AsCoded(st, Finish(0)) && Marked(Next(st, Finish(0))) && Next(st, Finish(0)).nodes[0].transit == Some(0)
  {
    assert NodeOk(st.cbIndex, st.toRb, st.lastOn, 0, st.nodes[0]);
  }

  lemma Deletes0(st: State)
    requires Inv(st) && Marked(st) && st.nodes[0].transit == Some(0)
    ensures AsCoded(st, HandleDelete(0)) && Marked(Next(st, HandleDelete(0)))
    ensures Next(st, HandleDelete(0)).nodes[0].transit.None?
  {
    assert NodeOk(st.cbIndex, st.toRb, st.lastOn, 0, st.nodes[0]);
    DeletedTable(st.nodes[0], 0);
  }

  lemma MappingLeads(i: nat, st: State)
    requires Inv(st) && Stage(i, st) && i <= 6
    ensures Leads(i, st)
  {
    if i == 0 {
      Connects0(st);
    } else if i == 1 {
      Connects1(st);
    } else if i == 2 {
      Maps0(st);
    } else if i == 3 {
      Maps1(st);
    } else if i == 4 {
      Maps2(st);
    } else {
      Writes(st, i - 5, i - 4);
    }
  }

  lemma EvictingLeads(i: nat, st: State)
    requires Inv(st) && Stage(i, st) && 7 <= i <= 11
    ensures Leads(i, st)
  {
    if i == 7 {
      Announces(st);
    } else if i == 8 {
      Notes(st);
    } else if i == 9 {
      Freezes(st);
    } else if i == 10 {
      Gathers(st);
    } else {
      Asks(st);
    }
  }

  lemma DeletingLeads(i: nat, st: State)
    requires Inv(st) && Stage(i, st) && 12 <= i <= 15
    ensures Leads(i, st)
  {
    if i == 12 {
      Sends(st);
    } else if i == 13 {
      Completes(st);
    } else if i == 14 {
      Wakes(st);
    } else {
      Clears(st);
    }
  }

  lemma FinishingLeads(i: nat, st: State)
    requires Inv(st) && Stage(i, st) && 16 <= i < STEPS
    ensures Leads(i, st)
  {
    if i == 16 {
      Grows(st);
    } else if i == 17 {
      Remaps(st);
    } else if i == 18 {
      Marks(st);
    } else {
      Deletes0(st);
    }
  }

  ghost predicate InStage(i: nat, st: State) {
    Inv(st) && Stage(i, st)
  }

  lemma EarlyLead(i: nat, st: State)
    requires Inv(st) && Stage(i, st) && i <= 11
    ensures Leads(i, st)
  {
    if i <= 6 {
      MappingLeads(i, st);
    } else {
      EvictingLeads(i, st);
    }
  }

  lemma LateLead(i: nat, st: State)
    requires Inv(st) && Stage(i, st) && 12 <= i < STEPS
    ensures Leads(i, st)
  {
    if i <= 15 {
      DeletingLeads(i, st);
    } else {
      FinishingLeads(i, st);
    }
  }

  lemma StageLeads(i: nat, st: State)
    requires InStage(i, st) && i < STEPS
    ensures AsCoded(st, Act(i)) && InStage(i + 1, Next(st, Act(i)))
  {
    if i <= 11 {
      EarlyLead(i, st);
    } else {
      LateLead(i, st);
    }
    StepKeepsInv(st, Act(i));
  }

  ghost predicate Ended(end: State) {
    && Mapped(end, 1) && Serves(end.nodes[end.cbIndex[1]], end.toRb[1], 1)
    && ReadAllowed(end, 1) && !WriteAllowed(end, 1)
    && forall n :: 0 <= n < |end.nodes| ==> end.nodes[n].thread.Waiting? && end.nodes[n].transit.None?
  }

  ghost predicate Advances(p: (nat, State) -> bool, i: nat, st: State) {
    AsCoded(st, Act(i)) && p(i + 1, Next(st, Act(i)))
  }

  lemma Extend(p: (nat, State) -> bool, st0: State, k: nat, run0: seq<Action>, st: State)
    returns (run: seq<Action>, end: State)
    requires Follows(st0, run0, st) && Advances(p, k, st)
    ensures Follows(st0, run, end) && p(k + 1, end)
  {
    FollowsNext(st0, run0, st, Act(k));
    run, end := run0 + [Act(k)], Next(st, Act(k));
  }

  /** Steps that lead from stage to stage make up a run. */
  lemma {:induction false} Drive(p: (nat, State) -> bool, st0: State, k: nat) returns (run: seq<Action>, end: State)
    requires p(0, st0) && k <= STEPS
    requires forall i: nat, st: State {:trigger Advances(p, i, st)} :: i < STEPS && p(i, st) ==> Advances(p, i, st)
    ensures Follows(st0, run, end) && p(k, end)
  {
    if k == 0 {
      run, end := [], st0;
    } else {
      run, end := Drive(p, st0, k - 1);
      run, end := Extend(p, st0, k - 1, run, end);
    }
  }

  lemma DriveStages(st0: State, k: nat) returns (run: seq<Action>, end: State)
    requires InStage(0, st0) && k <= STEPS
    ensures Follows(st0, run, end) && InStage(k, end)
  {
    var p := (i: nat, st: State) => InStage(i, st);
    forall i: nat, st: State | i < STEPS && p(i, st)
      ensures Advances(p, i, st)
    {
      StageLeads(i, st);
    }
    run, end := Drive(p, st0, k);
  }

  lemma Begin() returns (st: State)
    ensures Initial(st) && InStage(0, st)
  {
    st := State([-1, -1, -1], [0, 0, 0], [-1, -1, -1], [{}, {}, {}], [Server0(12), Server0(11)]);
    assert InitialNode(Server0(12), 12) && InitialNode(Server0(11), 11);
    assert StartsUp(Server0(12)) && StartsUp(Server0(11));
    assert forall n :: 0 <= n < |st.nodes| ==> st.nodes[n] == Server0(12) || st.nodes[n] == Server0(11);
    InitHasInv(st);
  }

  lemma MarkedGuards(end: State)
    requires Marked(end)
    ensures Mapped(end, 1) && ReadAllowed(end, 1) && !WriteAllowed(end, 1)
  {
  }

  lemma MarkedIsServed(end: State)
    requires Inv(end) && Marked(end)
    ensures Serves(end.nodes[0], 1, 1)
  {
    OwnerOf(end, 1, 0, 1);
  }

  lemma StoppedAtTheEnd(end: State)
    requires Marked(end) && end.nodes[0].transit.None? && Serves(end.nodes[0], 1, 1)
    ensures Ended(end)
  {
    MarkedGuards(end);
  }

  /** The client's record of a node that is not evicting names a block that serves it. */
  lemma OwnerOf(st: State, s: nat, n: nat, i: nat)
    requires Inv(st) && n < |st.nodes| && s < |st.cbIndex| && st.cbIndex[s] == n && st.toRb[s] == i
    requires st.nodes[n].thread.Waiting?
    ensures Serves(st.nodes[n], i, s)
  {
    assert ClientOk(st.cbIndex, st.toRb, st.lastOn, st.written, st.nodes, s);
  }

  lemma LastStage(end: State)
    requires InStage(STEPS, end)
    ensures Inv(end) && Marked(end) && end.nodes[0].transit.None?
  {
  }

  lemma DriveToTheEnd(st0: State) returns (run: seq<Action>, end: State)
    requires InStage(0, st0)
    ensures Follows(st0, run, end) && Ended(end)
  {
    run, end := DriveStages(st0, STEPS);
    LastStage(end);
    MarkedIsServed(end);
    StoppedAtTheEnd(end);
  }

  /** At the end swap space 1 is still served and may be read, but can no longer be written,
      and nothing is under way any more that would change that. */
  lemma StaleFinishStopsWriter() returns (st0: State, run: seq<Action>, end: State)
    ensures Initial(st0) && Follows(st0, run, end) && Ended(end)
  {
    st0 := Begin();
    run, end := DriveToTheEnd(st0);
  }
}
