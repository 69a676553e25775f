/** What every step of the client, the servers and the network keeps. */
module AgreementInvariant {
  import opened Options
  import opened Config
  import opened Daemon
  import opened Eviction
  import opened Agreement

  ghost predicate NodeShaped(node: Node) {
    && Accounted(node.table) && node.conn >= 0
    && Sized(node)
    && (node.cbState > CB_IDLE ==> node.conn in node.table.rbIdx)
  }

  ghost predicate Stopped(node: Node, i: nat) {
    i < |node.rbState| && node.rbState[i] == READONLY
  }

  /** The migration thread is about to clear the record of `s` on block `i`. */
  ghost predicate Leaving(node: Node, i: nat, s: nat) {
    node.thread == Sending(s, i) || node.thread == Woken(s, i)
  }

  /** The last reset of this node cleared a block other than the one being evicted: the server
      waits for an answer, nothing is on its way and nothing is marked any more. */
  ghost predicate Spoiled(node: Node) {
    node.pending && node.transit.None? && node.mark.None?
  }

  /** A record of the client: the block serves the swap space, no delete for it is on its way, and
      key, address and bitmap are intact unless a reset spoiled them; or the migration thread is
      about to clear the record. */
  ghost predicate RecordOk(node: Node, i: nat, s: nat, written: set<nat>) {
    || (&& Serves(node, i, s) && node.transit != Some(i)
        && (Intact(node, i, s, written) || (Spoiled(node) && node.evictI == i)))
    || Leaving(node, i, s)
  }

  ghost predicate ClientOk(cbIndex: seq<int>, toRb: seq<int>, lastOn: seq<int>, written: seq<set<nat>>,
                           nodes: seq<Node>, s: nat)
    requires s < |cbIndex| == |toRb| == |lastOn| == |written|
  {
    cbIndex[s] == NO_CB_MAPPED ||
    ( && InRange(|nodes|, cbIndex[s]) && InRange(MAX_FREE_MEM_GB, toRb[s]) && lastOn[s] == cbIndex[s]
      && RecordOk(nodes[cbIndex[s]], toRb[s], s, written[s]))
  }

  ghost predicate OnRecord(cbIndex: seq<int>, toRb: seq<int>, n: nat, i: nat, s: int) {
    InRange(|cbIndex|, s) && |cbIndex| == |toRb| && cbIndex[s] == n && toRb[s] == i
  }

  /** Every block a server keeps for this client is on record, or its delete is in transit. */
  ghost predicate ServerOk(cbIndex: seq<int>, toRb: seq<int>, n: nat, node: Node) {
    forall i: nat :: Ours(node, i) && node.transit != Some(i) ==>
      OnRecord(cbIndex, toRb, n, i, node.table.blocks[i].clientRb)
  }

  /** A delete in transit is for a block still mapped, and the server waits for it. */
  ghost predicate TransitOk(node: Node) {
    node.transit.Some? ==>
      var i := node.transit.value;
      && Ours(node, i) && node.pending && node.cbState == CB_MIGRATING
      && match node.thread
         case Waiting => true
         case Sending(_, j) => j == i && node.mark == Some(i)
         case Woken(_, j) => j == i && node.mark == Some(i)
         case Unmapped(_, j) => j == i
         case _ => false
  }

  /** An eviction message nobody has looked at yet. */
  ghost predicate NewEviction(node: Node) {
    && node.pending && node.transit.None? && node.mark == Some(node.evictI)
    && Serves(node, node.evictI, node.evictS)
  }

  /** What the thread waits for. An eviction message it has not looked at is new when the thread
      is waiting for one, and also when it arrived after the last delete was sent. */
  ghost predicate WaitsOk(node: Node) {
    && (node.posted ==> node.thread.Sending?)
    && (node.cState.RbhDelete? ==> !node.posted && (node.thread.Sending? || node.thread.Woken?))
    && (node.cState.RbhIdle? ==> node.thread.Waiting? || node.thread.Unmapped?)
    && (node.cState.RbhEvict? && (node.thread.Waiting? || node.thread.Unmapped? || node.thread.Woken?) ==>
          NewEviction(node))
    && (node.cState.RbhEvict? && node.thread.Sending? && !node.posted ==> NewEviction(node))
  }

  /** A spoiled block has lost its key. */
  ghost predicate SpoiledOk(node: Node) {
    Spoiled(node) ==>
      && node.cbState == CB_MIGRATING && (node.thread.Waiting? || node.thread.Unmapped?) && !node.cState.RbhEvict?
      && node.evictI < |node.remote| && node.remote[node.evictI] == NO_MR
      && Serves(node, node.evictI, node.evictS)
  }

  ghost predicate Evicting(node: Node, s: nat, i: nat) {
    && node.cbState == CB_MIGRATING && node.pending && node.transit.None? && node.mark == Some(i)
    && Serves(node, i, s)
  }

  ghost predicate ThreadOk(cbIndex: seq<int>, toRb: seq<int>, lastOn: seq<int>, n: nat, node: Node) {
    match node.thread
    case Waiting => true
    case Noted(s, i) => Evicting(node, s, i)
    case Frozen(s, i) => Evicting(node, s, i) && Stopped(node, i)
    case Searching(s, i, _) => Evicting(node, s, i) && Stopped(node, i)
    case Sending(s, i) => Departing(cbIndex, toRb, n, node, s, i)
    case Woken(s, i) => Departing(cbIndex, toRb, n, node, s, i)
    case Unmapped(s, i) =>
      && node.cbState == CB_MIGRATING && Stopped(node, i)
      && s < |cbIndex| == |toRb| == |lastOn| && cbIndex[s] != n && InRange(MAX_FREE_MEM_GB, toRb[s])
      && (lastOn[s] == n ==> toRb[s] == i)
      && (Ours(node, i) ==> node.transit == Some(i))
  }

  ghost predicate Departing(cbIndex: seq<int>, toRb: seq<int>, n: nat, node: Node, s: nat, i: nat) {
    && node.cbState == CB_MIGRATING && Stopped(node, i) && OnRecord(cbIndex, toRb, n, i, s)
    && (Ours(node, i) ==> node.transit == Some(i))
    && ((node.mark == Some(i) && (node.pending ==> node.transit == Some(i))) || NewEviction(node))
  }

  ghost predicate NodeOk(cbIndex: seq<int>, toRb: seq<int>, lastOn: seq<int>, n: nat, node: Node) {
    && NodeShaped(node) && ServerOk(cbIndex, toRb, n, node) && TransitOk(node) && WaitsOk(node) && SpoiledOk(node)
    && ThreadOk(cbIndex, toRb, lastOn, n, node)
  }

  ghost predicate Inv(st: State) {
    && |st.cbIndex| == |st.toRb| == |st.lastOn| == |st.written|
    && (forall s :: 0 <= s < |st.cbIndex| ==> ClientOk(st.cbIndex, st.toRb, st.lastOn, st.written, st.nodes, s))
    && forall n :: 0 <= n < |st.nodes| ==> NodeOk(st.cbIndex, st.toRb, st.lastOn, n, st.nodes[n])
  }

  // ------------------------------------------------------------------ steps on one node

  ghost predicate PointsAt(st: State, s: nat, n: nat) {
    s < |st.cbIndex| && s < |st.toRb| && s < |st.written| && st.cbIndex[s] == n && InRange(MAX_FREE_MEM_GB, st.toRb[s])
  }

  /** The records that point at node `n` survive its change. */
  ghost predicate RecordsKept(st: State, n: nat, node: Node, node': Node) {
    forall s :: 0 <= s < |st.cbIndex| && PointsAt(st, s, n)
                && RecordOk(node, st.toRb[s], s, st.written[s]) ==>
      RecordOk(node', st.toRb[s], s, st.written[s])
  }

  lemma LocalStep(st: State, n: nat, node': Node)
    requires Inv(st) && n < |st.nodes| && NodeOk(st.cbIndex, st.toRb, st.lastOn, n, node')
    requires RecordsKept(st, n, st.nodes[n], node')
    ensures Inv(st.(nodes := st.nodes[n := node']))
  {
    var nodes' := st.nodes[n := node'];
    forall s | 0 <= s < |st.cbIndex|
      ensures ClientOk(st.cbIndex, st.toRb, st.lastOn, st.written, nodes', s)
    {
      assert ClientOk(st.cbIndex, st.toRb, st.lastOn, st.written, st.nodes, s);
    }
    forall m | 0 <= m < |nodes'|
      ensures NodeOk(st.cbIndex, st.toRb, st.lastOn, m, nodes'[m])
    {
      assert NodeOk(st.cbIndex, st.toRb, st.lastOn, m, st.nodes[m]);
    }
  }

  /** The blocks mapped for `conn` are the same, allocated and mapped for the same swap spaces. */
  ghost predicate OursKept(conn: int, bs: seq<Block>, bs': seq<Block>) {
    |bs| == |bs'| && forall i :: 0 <= i < |bs| ==> SameForUs(conn, bs[i], bs'[i])
  }

  ghost predicate SameForUs(conn: int, b: Block, b': Block) {
    (b.owner == conn <==> b'.owner == conn) &&
    (b.owner == conn ==> b'.clientRb == b.clientRb && b'.malloced == b.malloced)
  }

  lemma SameOurs(node: Node, node': Node)
    requires node'.conn == node.conn && OursKept(node.conn, node.table.blocks, node'.table.blocks)
    ensures forall i: nat :: Ours(node', i) <==> Ours(node, i)
    ensures forall i: nat :: Ours(node, i) ==> node'.table.blocks[i].clientRb == node.table.blocks[i].clientRb
    ensures forall i: nat, s: nat :: Serves(node', i, s) <==> Serves(node, i, s)
  {
    forall i: nat | i < |node.table.blocks|
      ensures SameForUs(node.conn, node.table.blocks[i], node'.table.blocks[i])
    {
    }
  }

  lemma TableStep(st: State, n: nat, t': Table, cbState': nat)
    requires Inv(st) && n < |st.nodes| && Accounted(t')
    requires var node := st.nodes[n];
             && OursKept(node.conn, node.table.blocks, t'.blocks)
             && (cbState' > CB_IDLE ==> node.conn in t'.rbIdx)
             && (cbState' == node.cbState || node.cbState == CB_IDLE)
    ensures Inv(st.(nodes := st.nodes[n := st.nodes[n].(table := t', cbState := cbState')]))
  {
    var node := st.nodes[n];
    assert NodeOk(st.cbIndex, st.toRb, st.lastOn, n, node);
    var node' := node.(table := t', cbState := cbState');
    SameOurs(node, node');
    LocalStep(st, n, node');
  }

  lemma ServerKeepsOurs(t: Table, conn: int, e: Event)
    requires Accounted(t) && conn >= 0 && WellFormed(t, e) && Elsewhere(conn, e)
    ensures OursKept(conn, t.blocks, Handle(t, e).blocks)
    ensures conn in t.rbIdx ==> conn in Handle(t, e).rbIdx
  {
    match e
    case Connects(c) =>
    case Maps(c, clientRb, replica) =>
    case Deletes(c, keys) => DeleteNamed(t, c, keys);
    case Touches(i, now) =>
    case Expands(filtered) => ExpandKeepsOurs(t, conn, filtered);
  }

  lemma ExpandKeepsOurs(t: Table, conn: int, filtered: int)
    requires Accounted(t) && conn >= 0 && WellFormed(t, Expands(filtered))
    ensures OursKept(conn, t.blocks, Expanded(t, filtered).blocks)
  {
    var e := ExpandSize(t, filtered);
    forall i | 0 <= i < |t.blocks|
      ensures SameForUs(conn, t.blocks[i], Expanded(t, filtered).blocks[i])
    {
      AppliedAt(IsEmpty, Allocated, t.blocks, e, i);
    }
  }

  lemma ServerStep(st: State, n: nat, e: Event)
    requires Inv(st) && Enabled(st, Server(n, e))
    ensures Inv(Next(st, Server(n, e)))
  {
    var node := st.nodes[n];
    assert NodeOk(st.cbIndex, st.toRb, st.lastOn, n, node);
    HandleKeepsAccounts(node.table, e);
    ServerKeepsOurs(node.table, node.conn, e);
    TableStep(st, n, Handle(node.table, e), node.cbState);
  }

  lemma FreeKeepsOurs(t: Table, conn: int, k: nat)
    requires conn >= 0
    ensures OursKept(conn, t.blocks, Freed(t, k).blocks)
  {
    var bs, bs' := t.blocks, Freed(t, k).blocks;
    forall i | 0 <= i < |bs|
      ensures SameForUs(conn, bs[i], bs'[i])
    {
      AppliedAt(IsFree, Emptied, bs, k, i);
    }
  }

  lemma FreeUnmappedStep(st: State, n: nat, k: nat)
    requires Inv(st) && Enabled(st, FreeUnmapped(n, k))
    ensures Inv(Next(st, FreeUnmapped(n, k)))
  {
    var node := st.nodes[n];
    assert NodeOk(st.cbIndex, st.toRb, st.lastOn, n, node);
    FreeingKeepsAccounts(node.table, k);
    FreeKeepsOurs(node.table, node.conn, k);
    TableStep(st, n, Freed(node.table, k), node.cbState);
  }

  lemma QueryStep(st: State, n: nat)
    requires Inv(st) && Enabled(st, Query(n))
    ensures Inv(Next(st, Query(n)))
  {
    var node := st.nodes[n];
    assert NodeOk(st.cbIndex, st.toRb, st.lastOn, n, node);
    ConnectKeepsAccounts(node.table, node.conn);
    TableStep(st, n, Connect(node.table, node.conn), CB_CONNECTED);
  }

  // ------------------------------------------------------------------ the eviction thread

  lemma EvictMsgStep(st: State, n: nat, i: nat)
    requires Inv(st) && Enabled(st, EvictMsg(n, i))
    ensures Inv(Next(st, EvictMsg(n, i)))
  {
    var node := st.nodes[n];
    assert NodeOk(st.cbIndex, st.toRb, st.lastOn, n, node);
    assert IsMapped(node.table.blocks[i]);
    LocalStep(st, n, EvictNode(node, i));
  }

  lemma NoteStep(st: State, n: nat)
    requires Inv(st) && Enabled(st, Note(n))
    ensures Inv(Next(st, Note(n)))
  {
    var node := st.nodes[n];
    assert NodeOk(st.cbIndex, st.toRb, st.lastOn, n, node);
    assert IsMapped(node.table.blocks[node.evictI]);
    LocalStep(st, n, NextNode(st, Note(n)));
  }

  /** Up to sending the delete the swap space is on record at the block being evicted. */
  lemma EvictingOnRecord(st: State, n: nat)
    requires Inv(st) && n < |st.nodes|
    requires var t := st.nodes[n].thread; t.Noted? || t.Frozen? || t.Searching?
    ensures var t := st.nodes[n].thread; OnRecord(st.cbIndex, st.toRb, n, t.i, t.s) && t.i < MAX_FREE_MEM_GB
  {
    assert NodeOk(st.cbIndex, st.toRb, st.lastOn, n, st.nodes[n]);
    assert Ours(st.nodes[n], st.nodes[n].thread.i);
  }

  lemma FreezeStep(st: State, n: nat)
    requires Inv(st) && Enabled(st, Freeze(n))
    ensures Inv(Next(st, Freeze(n)))
  {
    EvictingOnRecord(st, n);
    assert NodeOk(st.cbIndex, st.toRb, st.lastOn, n, st.nodes[n]);
    LocalStep(st, n, NextNode(st, Freeze(n)));
  }

  lemma SearchStep(st: State, n: nat, a: Action)
    requires Inv(st) && Enabled(st, a) && (a.Gather? || a.Ask?) && a.n == n
    ensures Inv(Next(st, a))
  {
    assert NodeOk(st.cbIndex, st.toRb, st.lastOn, n, st.nodes[n]);
    LocalStep(st, n, NextNode(st, a));
  }

  lemma SendDeleteStep(st: State, n: nat)
    requires Inv(st) && Enabled(st, SendDelete(n))
    ensures Inv(Next(st, SendDelete(n)))
  {
    EvictingOnRecord(st, n);
    var node := st.nodes[n];
    assert NodeOk(st.cbIndex, st.toRb, st.lastOn, n, node);
    LocalStep(st, n, NextNode(st, SendDelete(n)));
  }

  lemma SendDoneStep(st: State, n: nat)
    requires Inv(st) && Enabled(st, SendDone(n))
    ensures Inv(Next(st, SendDone(n)))
  {
    assert NodeOk(st.cbIndex, st.toRb, st.lastOn, n, st.nodes[n]);
    LocalStep(st, n, NextNode(st, SendDone(n)));
  }

  lemma WakeStep(st: State, n: nat)
    requires Inv(st) && Enabled(st, Wake(n))
    ensures Inv(Next(st, Wake(n)))
  {
    assert NodeOk(st.cbIndex, st.toRb, st.lastOn, n, st.nodes[n]);
    LocalStep(st, n, NextNode(st, Wake(n)));
  }

  lemma FinishStep(st: State, n: nat)
    requires Inv(st) && Enabled(st, Finish(n))
    ensures Inv(Next(st, Finish(n)))
  {
    assert NodeOk(st.cbIndex, st.toRb, st.lastOn, n, st.nodes[n]);
    LocalStep(st, n, NextNode(st, Finish(n)));
  }

  /** The server's half of a delete: the block, and nothing else of ours, goes. */
  lemma DeletedTable(node: Node, i: nat)
    requires NodeShaped(node) && Ours(node, i)
    ensures Deletable(node.table, node.conn, DeleteKeys(node, i))
    ensures var t' := DeleteBlock(node.table, node.conn, DeleteKeys(node, i));
            && Accounted(t') && node.conn in t'.rbIdx
            && t'.blocks == node.table.blocks[i := node.table.blocks[i].(owner := -1, malloced := false)]
  {
    assert IsMapped(node.table.blocks[i]);
    assert IndexMatches(node.table.rbIdx[node.conn], node.table.blocks, node.conn);
    OnlyKeyFirst(|node.table.blocks|, i);
    DeleteNamed(node.table, node.conn, DeleteKeys(node, i));
  }

  /** A node after the delete of block `i`: that block is gone, the rest is as it was. */
  ghost predicate Deleted(node: Node, node': Node, i: nat) {
    && Ours(node, i) && node.transit == Some(i)
    && node'.table.blocks == node.table.blocks[i := node.table.blocks[i].(owner := -1, malloced := false)]
    && i < |node.mr|
    && node' == node.(table := node'.table, mr := node.mr[i := NO_MR], transit := None, pending := false)
  }

  lemma DeleteHere(cbIndex: seq<int>, toRb: seq<int>, lastOn: seq<int>, n: nat, node: Node, node': Node, i: nat)
    requires NodeOk(cbIndex, toRb, lastOn, n, node) && Deleted(node, node', i) && NodeShaped(node')
    ensures NodeOk(cbIndex, toRb, lastOn, n, node')
  {
    assert forall k: nat :: Ours(node', k) <==> Ours(node, k) && k != i;
  }

  lemma DeleteRecord(node: Node, node': Node, i: nat, k: nat, s: nat, written: set<nat>)
    requires Deleted(node, node', i) && RecordOk(node, k, s, written)
    ensures RecordOk(node', k, s, written)
  {
  }

  lemma HandleDeleteStep(st: State, n: nat)
    requires Inv(st) && Enabled(st, HandleDelete(n))
    ensures Inv(Next(st, HandleDelete(n)))
  {
    var node, node' := st.nodes[n], NextNode(st, HandleDelete(n));
    var i := node.transit.value;
    assert NodeOk(st.cbIndex, st.toRb, st.lastOn, n, node);
    DeletedTable(node, i);
    DeleteHere(st.cbIndex, st.toRb, st.lastOn, n, node, node', i);
    forall s | 0 <= s < |st.cbIndex| && PointsAt(st, s, n) && RecordOk(node, st.toRb[s], s, st.written[s])
      ensures RecordOk(node', st.toRb[s], s, st.written[s])
    {
      DeleteRecord(node, node', i, st.toRb[s], s, st.written[s]);
    }
    LocalStep(st, n, node');
  }

  /** Clearing the record of a swap space mapped on node `n` does not concern node `m`. */
  lemma ClearElsewhere(cbIndex: seq<int>, toRb: seq<int>, lastOn: seq<int>, n: nat, m: nat, node: Node, s: nat)
    requires NodeOk(cbIndex, toRb, lastOn, m, node) && s < |cbIndex| == |toRb| == |lastOn|
    requires cbIndex[s] == n != m
    ensures NodeOk(cbIndex[s := NO_CB_MAPPED], toRb, lastOn, m, node)
  {
  }

  lemma ResetKeepsItsNode(st: State, n: nat)
    requires Inv(st) && Enabled(st, Reset(n))
    ensures var st' := Next(st, Reset(n)); n < |st'.nodes| && NodeOk(st'.cbIndex, st'.toRb, st'.lastOn, n, st'.nodes[n])
  {
    assert NodeOk(st.cbIndex, st.toRb, st.lastOn, n, st.nodes[n]);
  }

  lemma ResetKeepsOther(st: State, n: nat, r: nat)
    requires Inv(st) && Enabled(st, Reset(n)) && r < |st.cbIndex| && r != st.nodes[n].thread.s
    ensures var st' := Next(st, Reset(n));
            && |st'.cbIndex| == |st'.toRb| == |st'.lastOn| == |st'.written| && r < |st'.cbIndex|
            && ClientOk(st'.cbIndex, st'.toRb, st'.lastOn, st'.written, st'.nodes, r)
  {
    assert ClientOk(st.cbIndex, st.toRb, st.lastOn, st.written, st.nodes, r);
    assert NodeOk(st.cbIndex, st.toRb, st.lastOn, n, st.nodes[n]);
  }

  lemma ResetStep(st: State, n: nat)
    requires Inv(st) && Enabled(st, Reset(n))
    ensures Inv(Next(st, Reset(n)))
  {
    var st' := Next(st, Reset(n));
    assert NodeOk(st.cbIndex, st.toRb, st.lastOn, n, st.nodes[n]);
    forall m | 0 <= m < |st'.nodes|
      ensures NodeOk(st'.cbIndex, st'.toRb, st'.lastOn, m, st'.nodes[m])
    {
      if m == n {
        ResetKeepsItsNode(st, n);
      } else {
        ClearElsewhere(st.cbIndex, st.toRb, st.lastOn, n, m, st.nodes[m], st.nodes[n].thread.s);
      }
    }
    forall r | 0 <= r < |st'.cbIndex|
      ensures ClientOk(st'.cbIndex, st'.toRb, st'.lastOn, st'.written, st'.nodes, r)
    {
      if r != st.nodes[n].thread.s {
        ResetKeepsOther(st, n, r);
      }
    }
  }

  // ------------------------------------------------------------------ mapping

  /** Block `i` of node `n` was free, so no record and no eviction points at it. */
  lemma MapKeepsOthers(st: State, s: nat, n: nat, mr: Mr, r: nat)
    requires Inv(st) && Enabled(st, MapTo(s, n, mr)) && r < |st.cbIndex| && r != s
    ensures var st' := Next(st, MapTo(s, n, mr));
            && |st'.cbIndex| == |st'.toRb| == |st'.lastOn| == |st'.written| && r < |st'.cbIndex|
            && ClientOk(st'.cbIndex, st'.toRb, st'.lastOn, st'.written, st'.nodes, r)
  {
    assert NodeOk(st.cbIndex, st.toRb, st.lastOn, n, st.nodes[n]);
    MapFindsBlock(st.nodes[n].table, st.nodes[n].conn, s, 0);
    assert ClientOk(st.cbIndex, st.toRb, st.lastOn, st.written, st.nodes, r);
  }

  /** Mapping an unmapped swap space on node `n` does not concern node `m`. */
  lemma MapElsewhere(cbIndex: seq<int>, toRb: seq<int>, lastOn: seq<int>, n: nat, m: nat, node: Node, s: nat, i: nat)
    requires NodeOk(cbIndex, toRb, lastOn, m, node) && s < |cbIndex| == |toRb| == |lastOn|
    requires cbIndex[s] == NO_CB_MAPPED && n != m && i < MAX_FREE_MEM_GB
    ensures NodeOk(cbIndex[s := n], toRb[s := i], lastOn[s := n], m, node)
  {
  }

  /** A node that can be mapped has no eviction under way. */
  lemma MapNodeIsWaiting(st: State, s: nat, n: nat, mr: Mr)
    requires Inv(st) && Enabled(st, MapTo(s, n, mr))
    ensures st.nodes[n].thread.Waiting? && st.nodes[n].transit.None? && !st.nodes[n].posted
  {
    assert NodeOk(st.cbIndex, st.toRb, st.lastOn, n, st.nodes[n]);
  }

  /** A waiting node after a map: one more block is ours, the others are as they were. */
  lemma MapHere(cbIndex: seq<int>, toRb: seq<int>, lastOn: seq<int>, n: nat, node: Node, node': Node, s: nat, i: nat)
    requires NodeOk(cbIndex, toRb, lastOn, n, node) && s < |cbIndex| == |toRb| == |lastOn|
    requires cbIndex[s] == NO_CB_MAPPED && i < MAX_FREE_MEM_GB && node.thread.Waiting? && node.transit.None?
    requires NodeShaped(node') && node'.table.blocks == node.table.blocks[i := node'.table.blocks[i]]
    requires Serves(node', i, s) && !Ours(node, i) && node'.conn == node.conn
    requires node'.thread.Waiting? && node'.transit.None? && node'.cState.RbhIdle? && node'.posted == node.posted
    requires node.cbState < CB_MIGRATING && node'.pending == node.pending && node'.mark == node.mark
    ensures NodeOk(cbIndex[s := n], toRb[s := i], lastOn[s := n], n, node')
  {
    forall k: nat | Ours(node', k) && k != i
      ensures OnRecord(cbIndex[s := n], toRb[s := i], n, k, node'.table.blocks[k].clientRb)
    {
      assert Ours(node, k);
    }
  }

  /** The block a map takes. */
  lemma MapShape(node: Node, s: nat, mr: Mr)
    requires NodeShaped(node) && node.cbState > CB_IDLE
    requires WellFormed(node.table, Maps(node.conn, s, 0)) && mr.key != 0
    ensures var i, node' := First(IsFree, node.table.blocks, 0), MapNode(node, s, mr);
            && i < MAX_FREE_MEM_GB && IsFree(node.table.blocks[i]) && NodeShaped(node')
            && node'.table.blocks == node.table.blocks[i := node'.table.blocks[i]]
            && Serves(node', i, s) && !Ours(node, i) && Intact(node', i, s, {})
            && node' == node.(table := node'.table, mr := node.mr[i := mr], cbState := CB_MAPPED,
                              rbState := node.rbState[i := ACTIVE], rbIdx := node.rbIdx[i := s],
                              remote := node.remote[i := mr], bits := node.bits[i := {}], cState := RbhIdle)
  {
    MapFound(node.table, node.conn, s, 0);
    MapFindsBlock(node.table, node.conn, s, 0);
  }

  lemma MapStep(st: State, s: nat, n: nat, mr: Mr)
    requires Inv(st) && Enabled(st, MapTo(s, n, mr))
    ensures Inv(Next(st, MapTo(s, n, mr)))
  {
    var node := st.nodes[n];
    var st' := Next(st, MapTo(s, n, mr));
    assert NodeOk(st.cbIndex, st.toRb, st.lastOn, n, node);
    MapNodeIsWaiting(st, s, n, mr);
    MapShape(node, s, mr);
    var i := First(IsFree, node.table.blocks, 0);
    forall m | 0 <= m < |st'.nodes|
      ensures NodeOk(st'.cbIndex, st'.toRb, st'.lastOn, m, st'.nodes[m])
    {
      if m == n {
        MapHere(st.cbIndex, st.toRb, st.lastOn, n, node, MapNode(node, s, mr), s, i);
      } else {
        MapElsewhere(st.cbIndex, st.toRb, st.lastOn, n, m, st.nodes[m], s, i);
      }
    }
    forall r | 0 <= r < |st'.cbIndex|
      ensures ClientOk(st'.cbIndex, st'.toRb, st'.lastOn, st'.written, st'.nodes, r)
    {
      if r != s {
        MapKeepsOthers(st, s, n, mr, r);
      }
    }
  }

  // ------------------------------------------------------------------ writing

  /** Other swap spaces have other blocks. */
  lemma DistinctBlocks(st: State, s: nat, r: nat)
    requires Inv(st) && Mapped(st, s) && Mapped(st, r) && s != r
    ensures st.cbIndex[s] != st.cbIndex[r] || st.toRb[s] != st.toRb[r]
  {
    assert ClientOk(st.cbIndex, st.toRb, st.lastOn, st.written, st.nodes, s);
    assert ClientOk(st.cbIndex, st.toRb, st.lastOn, st.written, st.nodes, r);
    assert NodeOk(st.cbIndex, st.toRb, st.lastOn, st.cbIndex[s], st.nodes[st.cbIndex[s]]);
  }

  lemma WriteKeepsOther(st: State, n: nat, s: nat, page: nat, r: nat)
    requires Inv(st) && Enabled(st, Write(n, s, page)) && r < |st.cbIndex| && r != s
    ensures var st' := Next(st, Write(n, s, page));
            && |st'.cbIndex| == |st'.toRb| == |st'.lastOn| == |st'.written| && r < |st'.cbIndex|
            && ClientOk(st'.cbIndex, st'.toRb, st'.lastOn, st'.written, st'.nodes, r)
  {
    assert ClientOk(st.cbIndex, st.toRb, st.lastOn, st.written, st.nodes, r);
    assert NodeOk(st.cbIndex, st.toRb, st.lastOn, n, st.nodes[n]);
    if st.cbIndex[r] == n {
      DistinctBlocks(st, s, r);
    }
  }

  /** Only a bitmap changes. */
  lemma WriteHere(cbIndex: seq<int>, toRb: seq<int>, lastOn: seq<int>, n: nat, node: Node, i: nat, page: nat)
    requires NodeOk(cbIndex, toRb, lastOn, n, node) && i < |node.bits|
    ensures NodeOk(cbIndex, toRb, lastOn, n, WriteNode(node, i, page))
  {
    assert SameTable(node, WriteNode(node, i, page));
  }

  ghost predicate SameTable(node: Node, node': Node) {
    && node'.table == node.table && node'.conn == node.conn
    && (forall i: nat :: Ours(node', i) <==> Ours(node, i))
    && forall i: nat, s: nat :: Serves(node', i, s) <==> Serves(node, i, s)
  }

  lemma WriteRecorded(node: Node, i: nat, s: nat, page: nat, written: set<nat>)
    requires RecordOk(node, i, s, written) && Sized(node) && SpoiledOk(node) && i < |node.bits| && !Leaving(node, i, s)
    ensures RecordOk(WriteNode(node, i, page), i, s, written + {page})
  {
  }

  /** A swap space that may be written is not being evicted. */
  lemma WriterStays(st: State, s: nat)
    requires Inv(st) && WriteAllowed(st, s)
    ensures !Leaving(st.nodes[st.cbIndex[s]], st.toRb[s], s)
  {
    assert NodeOk(st.cbIndex, st.toRb, st.lastOn, st.cbIndex[s], st.nodes[st.cbIndex[s]]);
  }

  lemma WriteStep(st: State, n: nat, s: nat, page: nat)
    requires Inv(st) && Enabled(st, Write(n, s, page))
    ensures Inv(Next(st, Write(n, s, page)))
  {
    var st' := Next(st, Write(n, s, page));
    var node, i := st.nodes[n], st.toRb[s];
    forall m | 0 <= m < |st'.nodes|
      ensures NodeOk(st'.cbIndex, st'.toRb, st'.lastOn, m, st'.nodes[m])
    {
      assert NodeOk(st.cbIndex, st.toRb, st.lastOn, m, st.nodes[m]);
      if m == n {
        WriteHere(st.cbIndex, st.toRb, st.lastOn, n, node, i, page);
      }
    }
    forall r | 0 <= r < |st'.cbIndex|
      ensures ClientOk(st'.cbIndex, st'.toRb, st'.lastOn, st'.written, st'.nodes, r)
    {
      if r != s {
        WriteKeepsOther(st, n, s, page, r);
      } else {
        assert ClientOk(st.cbIndex, st.toRb, st.lastOn, st.written, st.nodes, s);
        assert NodeOk(st.cbIndex, st.toRb, st.lastOn, n, node);
        WriterStays(st, s);
        WriteRecorded(node, i, s, page, st.written[s]);
      }
    }
  }

  lemma StepKeepsInv(st: State, a: Action)
    requires Inv(st) && Enabled(st, a)
    ensures Inv(Next(st, a))
  {
    match a
    case Query(n) => QueryStep(st, n);
    case MapTo(s, n, mr) => MapStep(st, s, n, mr);
    case Write(n, s, page) => WriteStep(st, n, s, page);
    case EvictMsg(n, i) => EvictMsgStep(st, n, i);
    case Note(n) => NoteStep(st, n);
    case Freeze(n) => FreezeStep(st, n);
    case Gather(n) => SearchStep(st, n, a);
    case Ask(n, m) => SearchStep(st, n, a);
    case SendDelete(n) => SendDeleteStep(st, n);
    case SendDone(n) => SendDoneStep(st, n);
    case Wake(n) => WakeStep(st, n);
    case Reset(n) => ResetStep(st, n);
    case Finish(n) => FinishStep(st, n);
    case HandleDelete(n) => HandleDeleteStep(st, n);
    case FreeUnmapped(n, k) => FreeUnmappedStep(st, n, k);
    case Server(n, e) => ServerStep(st, n, e);
  }

  lemma {:induction false} RunKeepsInv(st: State, run: seq<Action>)
    requires Inv(st) && LegalRun(st, run)
    ensures Inv(Exec(st, run))
    decreases |run|
  {
    if run != [] {
      StepKeepsInv(st, run[0]);
      RunKeepsInv(Next(st, run[0]), run[1..]);
    }
  }

  lemma InitHasInv(st: State)
    requires Initial(st)
    ensures Inv(st)
  {
    forall n | 0 <= n < |st.nodes|
      ensures NodeOk(st.cbIndex, st.toRb, st.lastOn, n, st.nodes[n])
    {
      assert StartsUp(st.nodes[n]);
      var freeMem :| InitialNode(st.nodes[n], freeMem);
      InitAccounted(freeMem);
    }
  }
}
