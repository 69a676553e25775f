/** A client and its memory servers: mapping swap spaces to server blocks, and the eviction of
    a block for which no other server has room, as interleaved steps of both sides and of the
    network between them. */
module Agreement {
  import opened Options
  import opened Config
  import opened Daemon
  import opened Eviction

  const NO_CB_MAPPED: int := -1

  // Remote block states, in the order the client compares them.
  const ACTIVE: nat := 1
  const READONLY: nat := 2
  const NONE_ALLOWED: nat := 3
  const INACTIVE: nat := 4

  /** The client's per-connection state `c_state`; RBH_READY and RBH_IDLE are one here, since
      nothing distinguishes them. */
  datatype CState = RbhIdle | RbhEvict | RbhDelete

  /** Where the migration thread of one connection is, with its local variables: swap space `s`
      on block `i`, and while it looks for a destination the nodes still to be asked. `Sending`
      waits for the completion of the delete message, `Woken` has seen it. */
  datatype Thread =
    | Waiting
    | Noted(s: nat, i: nat)
    | Frozen(s: nat, i: nat)
    | Searching(s: nat, i: nat, todo: set<nat>)
    | Sending(s: nat, i: nat)
    | Woken(s: nat, i: nat)
    | Unmapped(s: nat, i: nat)

  /** A memory registration: the key and the address a remote access needs. */
  datatype Mr = Mr(key: nat, addr: nat)

  const NO_MR: Mr := Mr(0, 0)

  /** One server and what the client keeps about it. `conn` is the number the server knows the
      client by; `evictS`, `evictI` and `mark` are what the last eviction message left behind.
      `pending`: the server waits for the answer to an eviction message. `transit`: a delete
      message for that block is on its way. `posted`: its send has not completed yet. `mr` are
      the server's registrations; `remote` the keys and addresses and `bits` the presence bitmaps
      the client has for the blocks. */
  datatype Node = Node(
    table: Table, mr: seq<Mr>, conn: int,
    cbState: nat, rbState: seq<nat>, rbIdx: seq<int>, remote: seq<Mr>, bits: seq<set<nat>>,
    cState: CState, evictS: nat, evictI: nat, mark: Option<nat>, thread: Thread,
    pending: bool, transit: Option<nat>, posted: bool)

  /** `cbIndex` maps a swap space to a node or -1, `toRb` to the block on that node. Two histories:
      `lastOn`, the node a swap space was last mapped on, whether or not it still is, and
      `written`, the pages written for it since. */
  datatype State = State(
    cbIndex: seq<int>, toRb: seq<int>, lastOn: seq<int>, written: seq<set<nat>>, nodes: seq<Node>)

  datatype Action =
    | Query(n: nat)
    | MapTo(s: nat, n: nat, mr: Mr)
    | Write(n: nat, s: nat, page: nat)
    | EvictMsg(n: nat, i: nat)
    | Note(n: nat)
    | Freeze(n: nat)
    | Gather(n: nat)
    | Ask(n: nat, m: nat)
    | SendDelete(n: nat)
    | SendDone(n: nat)
    | Wake(n: nat)
    | Reset(n: nat)
    | Finish(n: nat)
    | HandleDelete(n: nat)
    | FreeUnmapped(n: nat, k: nat)
    | Server(n: nat, e: Event)

  /** What the server may do that does not concern this client. */
  predicate Elsewhere(conn: int, e: Event) {
    match e
    case Connects(c) => c != conn
    case Maps(c, _, _) => c != conn
    case Deletes(c, _) => c != conn
    case Touches(_, _) => true
    case Evicts(_) => false
    case Expands(_) => true
  }

  predicate InRange(n: nat, k: int) { 0 <= k < n }

  /** The delete message for block `i`. */
  function DeleteKeys(node: Node, i: nat): (keys: seq<nat>) {
    OnlyKey(|node.table.blocks|, i)
  }

  /** Block `i` of the server is mapped for this client. */
  predicate Ours(node: Node, i: nat) {
    i < |node.table.blocks| && node.table.blocks[i].owner == node.conn
  }

  /** Every array of the node has one entry per block. */
  predicate Sized(node: Node) {
    |node.mr| == |node.rbState| == |node.rbIdx| == |node.remote| == |node.bits| == |node.table.blocks|
  }

  predicate Enabled(st: State, a: Action) {
    a.n < |st.nodes| &&
    var node := st.nodes[a.n];
    match a
    case Query(n) => node.cbState == CB_IDLE
    case MapTo(s, n, mr) =>
      && s < |st.cbIndex| == |st.toRb| == |st.lastOn| == |st.written| && st.cbIndex[s] == NO_CB_MAPPED
      && CB_IDLE < node.cbState < CB_MIGRATING
      && WellFormed(node.table, Maps(node.conn, s, 0)) && Sized(node) && mr.key != 0
    case Write(n, s, page) => WriteAllowed(st, s) && st.cbIndex[s] == n && s < |st.written| && Sized(node)
    // The server sends the next eviction message only after the answer to the last one.
    case EvictMsg(n, i) => !node.pending && Ours(node, i) && 0 <= node.table.blocks[i].clientRb
    case Note(n) => node.thread.Waiting? && node.cState.RbhEvict?
    case Freeze(n) =>
      node.thread.Noted? && node.thread.s < |st.toRb| && InRange(|node.rbState|, st.toRb[node.thread.s])
    case Gather(n) => node.thread.Frozen?
    // One candidate answers that it has no room; one that has room ends the search otherwise.
    case Ask(n, m) =>
      && node.thread.Searching? && m in node.thread.todo && m < |st.nodes|
      && st.nodes[m].cbState > CB_IDLE && Advertised(st.nodes[m].table) == 0
    case SendDelete(n) => node.thread.Searching? && node.thread.todo == {}
    case SendDone(n) => node.posted
    case Wake(n) => node.thread.Sending? && node.cState.RbhDelete?
    case Reset(n) =>
      && node.thread.Woken? && node.thread.s < |st.cbIndex| && Sized(node)
      && (node.mark.Some? ==> node.mark.value < |node.rbIdx|)
    case Finish(n) =>
      node.thread.Unmapped? && node.thread.s < |st.toRb| && InRange(|node.rbState|, st.toRb[node.thread.s])
    case HandleDelete(n) =>
      && node.transit.Some? && Sized(node) && node.transit.value < |node.mr|
      && Deletable(node.table, node.conn, DeleteKeys(node, node.transit.value))
    case FreeUnmapped(n, k) => true
    case Server(n, e) => Elsewhere(node.conn, e) && WellFormed(node.table, e)
  }

  /** `set_rb_state`: the block is looked up through the swap space, which by now may be
      mapped on another node. */
  function SetRbState(st: State, n: nat, s: nat, state: nat): (rbState: seq<nat>)
    requires n < |st.nodes| && s < |st.toRb| && InRange(|st.nodes[n].rbState|, st.toRb[s])
  {
    st.nodes[n].rbState[st.toRb[s] := state]
  }

  function Freed(t: Table, k: nat): Table {
    t.(blocks := Applied(IsFree, Emptied, t.blocks, k), sizeGb := t.sizeGb - Min(k, Count(IsFree, t.blocks)))
  }

  /** The candidates of a search: the nodes not migrating. */
  function UsableNodes(nodes: seq<Node>): (r: set<nat>)
    ensures forall m: nat :: m in r <==> m < |nodes| && nodes[m].cbState < CB_MIGRATING
  {
    set m: nat | m < |nodes| && nodes[m].cbState < CB_MIGRATING
  }

  /** A map request and its reply: the server registers the block, and the reply gives the client
      its key and address, with an empty bitmap, and makes the connection ready. */
  function MapNode(node: Node, s: nat, mr: Mr): Node
    requires WellFormed(node.table, Maps(node.conn, s, 0)) && Sized(node)
  {
    var i := First(IsFree, node.table.blocks, 0);
    var node' := node.(table := MapBlock(node.table, node.conn, s, 0), cbState := CB_MAPPED);
    if i == |node.table.blocks| then node'
    else
      node'.(mr := node.mr[i := mr], remote := node.remote[i := mr], bits := node.bits[i := {}],
             rbState := node.rbState[i := ACTIVE], rbIdx := node.rbIdx[i := s], cState := RbhIdle)
  }

  /** The key and address the client holds for block `i` are those of the server's registration. */
  predicate Keyed(node: Node, i: nat) {
    i < |node.mr| && i < |node.remote| && node.remote[i] == node.mr[i] && node.mr[i].key != 0
  }

  /** A write of one page and its completion: with the right key it sets the page's bit, with
      another it never reaches the server. */
  function WriteNode(node: Node, i: nat, page: nat): Node
    requires i < |node.bits|
  {
    if Keyed(node, i) then node.(bits := node.bits[i := node.bits[i] + {page}]) else node
  }

  function EvictNode(node: Node, i: nat): Node
    requires Ours(node, i) && 0 <= node.table.blocks[i].clientRb
  {
    node.(pending := true, cState := RbhEvict, evictS := node.table.blocks[i].clientRb, evictI := i, mark := Some(i))
  }

  /** The marked block, whichever it is by now, loses its key, address, bitmap and index. */
  function ResetNode(node: Node): Node
    requires node.thread.Woken? && Sized(node) && (node.mark.Some? ==> node.mark.value < |node.rbIdx|)
  {
    var node' := node.(thread := Unmapped(node.thread.s, node.thread.i));
    if node.mark.None? then node'
    else
      var k := node.mark.value;
      node'.(remote := node.remote[k := NO_MR], bits := node.bits[k := {}], rbIdx := node.rbIdx[k := -1],
             cState := RbhIdle, mark := None)
  }

  function NextNode(st: State, a: Action): Node
    requires Enabled(st, a)
  {
    var node := st.nodes[a.n];
    var t := node.thread;
    match a
    case Query(n) => node.(cbState := CB_CONNECTED, table := Connect(node.table, node.conn))
    case MapTo(s, n, mr) => MapNode(node, s, mr)
    case Write(n, s, page) => WriteNode(node, st.toRb[s], page)
    case EvictMsg(n, i) => EvictNode(node, i)
    case Note(n) => node.(cbState := CB_MIGRATING, thread := Noted(node.evictS, node.evictI))
    case Freeze(n) => node.(rbState := SetRbState(st, n, t.s, READONLY), thread := Frozen(t.s, t.i))
    case Gather(n) => node.(thread := Searching(t.s, t.i, UsableNodes(st.nodes)))
    case Ask(n, m) => node.(thread := Searching(t.s, t.i, t.todo - {m}))
    case SendDelete(n) => node.(thread := Sending(t.s, t.i), transit := node.mark, posted := true)
    case SendDone(n) => node.(cState := RbhDelete, posted := false)
    case Wake(n) => node.(thread := Woken(t.s, t.i))
    case Reset(n) => ResetNode(node)
    case Finish(n) => node.(rbState := SetRbState(st, n, t.s, INACTIVE), thread := Waiting)
    case HandleDelete(n) =>
      node.(table := DeleteBlock(node.table, node.conn, DeleteKeys(node, node.transit.value)),
            mr := node.mr[node.transit.value := NO_MR], transit := None, pending := false)
    case FreeUnmapped(n, k) => node.(table := Freed(node.table, k))
    case Server(n, e) => node.(table := Handle(node.table, e))
  }

  function Next(st: State, a: Action): State
    requires Enabled(st, a)
  {
    var node := st.nodes[a.n];
    var st' := st.(nodes := st.nodes[a.n := NextNode(st, a)]);
    if a.MapTo? && First(IsFree, node.table.blocks, 0) < |node.table.blocks| then
      st'.(cbIndex := st.cbIndex[a.s := a.n], toRb := st.toRb[a.s := First(IsFree, node.table.blocks, 0)],
           lastOn := st.lastOn[a.s := a.n], written := st.written[a.s := {}])
    else if a.Write? then st'.(written := st.written[a.s := st.written[a.s] + {a.page}])
    else if a.Reset? && node.mark.Some? then st'.(cbIndex := st.cbIndex[node.thread.s := NO_CB_MAPPED])
    else st'
  }

  // ------------------------------------------------------------------ the guards

  predicate Mapped(st: State, s: nat) {
    s < |st.cbIndex| && s < |st.toRb| && InRange(|st.nodes|, st.cbIndex[s])
    && InRange(|st.nodes[st.cbIndex[s]].rbState|, st.toRb[s])
  }

  function StateOf(st: State, s: nat): nat
    requires Mapped(st, s)
  {
    st.nodes[st.cbIndex[s]].rbState[st.toRb[s]]
  }

  /** `request_read` goes to the server. */
  predicate ReadAllowed(st: State, s: nat) {
    Mapped(st, s) && StateOf(st, s) != READONLY && StateOf(st, s) != NONE_ALLOWED
  }

  /** `rdma_write` sends rather than re-queues. */
  predicate WriteAllowed(st: State, s: nat) {
    Mapped(st, s) && StateOf(st, s) < READONLY
  }

  /** Block `i` of the node is allocated and mapped for swap space `s` of this client. */
  predicate Serves(node: Node, i: int, s: nat) {
    && InRange(|node.table.blocks|, i) && node.table.blocks[i].malloced
    && node.table.blocks[i].owner == node.conn && node.table.blocks[i].clientRb == s
  }

  /** An access to block `i` for `s` will do what it should: the client holds the server's key and
      address, has the block in its index, and its bitmap knows every page written. */
  predicate Intact(node: Node, i: nat, s: nat, written: set<nat>) {
    && Keyed(node, i) && i < |node.rbIdx| && node.rbIdx[i] == s
    && i < |node.bits| && node.bits[i] == written
  }

  // ------------------------------------------------------------------ runs

  ghost predicate LegalRun(st: State, run: seq<Action>)
    decreases |run|
  {
    run == [] || (Enabled(st, run[0]) && LegalRun(Next(st, run[0]), run[1..]))
  }

  ghost function Exec(st: State, run: seq<Action>): State
    requires LegalRun(st, run)
    decreases |run|
  {
    if run == [] then st else Exec(Next(st, run[0]), run[1..])
  }

  ghost predicate InitialNode(node: Node, freeMem: int) {
    && node.table == InitTable(freeMem) && node.conn >= 0 && node.cbState == CB_IDLE
    && Sized(node) && (forall i :: 0 <= i < |node.mr| ==> node.mr[i] == NO_MR)
    && node.cState.RbhIdle? && node.mark.None? && node.thread.Waiting?
    && !node.pending && node.transit.None? && !node.posted
  }

  ghost predicate StartsUp(node: Node) {
    exists freeMem :: InitialNode(node, freeMem)
  }

  /** Nothing mapped, any servers with any amount of memory. */
  ghost predicate Initial(st: State) {
    && |st.cbIndex| == |st.toRb| == |st.lastOn| == |st.written|
    && (forall s :: 0 <= s < |st.cbIndex| ==> st.cbIndex[s] == NO_CB_MAPPED)
    && forall n :: 0 <= n < |st.nodes| ==> StartsUp(st.nodes[n])
  }
}
