/** The life of a swapped page: written into the local page table, sent to a peer, reclaimed
    once the peer has it, read back from wherever it is. Each function of the driver is one
    step; a request covers any number of consecutive pages. */
module PageCache {
  import opened Options
  import opened Config
  import opened Distinctness
  import opened Words

  /** A `tree_entry`: its page frame, if any, the two flags and the reference count. */
  datatype Entry = Entry(page: Option<nat>, updating: bool, reclaimable: bool, refCount: int)

  /** An RDMA write in flight: consecutive pages from `start`; `landed` once the peer's memory
      holds them, which is before the completion is handled. */
  datatype Op<D> = Op(start: nat, data: seq<D>, landed: bool)

  datatype State<D> = State(
    tree: map<nat, Entry>,      // page index -> entry
    mem: map<nat, D>,           // page frame -> contents
    elements: seq<nat>,         // free frames, used as a stack
    usedNr: int,
    capNr: nat,
    reclaim: seq<nat>,          // reclaim list
    queue: multiset<nat>,       // pages on the sending list or held by some sender
    copied: seq<Op<D>>,         // copied by some sender and not posted, in order of the copies
    flight: seq<Op<D>>,         // posted and not completed, in order of the posts
    remote: map<nat, D>,        // the peers' memory
    present: set<nat>,          // presence bitmap
    last: map<nat, D>)          // history: last data written to each index

  // ----- Frames: valet_mempool_alloc and valet_mempool_reclaim -----

  /** One call of `valet_mempool_reclaim` on the entry at the head of the list: an entry
      being updated is dropped with its flag still set. */
  function ReclaimHead<D>(s: State<D>): (r: (State<D>, Option<nat>))
    requires s.reclaim != []
  {
    var i := s.reclaim[0];
    var t := s.(reclaim := s.reclaim[1..]);
    if i !in s.tree || s.tree[i].updating then (t, None)
    else
      var e := s.tree[i].(reclaimable := false);
      if e.page.None? then (t.(tree := s.tree[i := e]), None)
      else (t.(tree := s.tree[i := e.(page := None)]), e.page)
  }

  /** The retry loop of the allocator; `None` when it would spin on an empty list. */
  function ReclaimLoop<D>(s: State<D>): (r: Option<(State<D>, nat)>)
    decreases |s.reclaim|
  {
    if s.reclaim == [] then None
    else
      var (t, frame) := ReclaimHead(s);
      if frame.Some? then Some((t, frame.value)) else ReclaimLoop(t)
  }

  function TakeFrame<D>(s: State<D>): (r: Option<(State<D>, nat)>) {
    var n := |s.elements|;
    if n > 0 then Some((s.(elements := s.elements[..n - 1], usedNr := s.usedNr + 1), s.elements[n - 1]))
    else ReclaimLoop(s)
  }

  /** `valet_mempool_free`: a frame beyond the capacity would go back to the kernel instead. */
  function FreeFrame<D>(s: State<D>, p: nat): (r: State<D>) {
    if |s.elements| >= s.capNr then s
    else s.(elements := s.elements + [p], usedNr := s.usedNr - 1)
  }

  // ----- gpt_insert_page and write_to_brd -----

  function InsertPage<D>(s: State<D>, i: nat): (r: Option<State<D>>) {
    if i in s.tree && s.tree[i].page.Some? then
      Some(s.(tree := s.tree[i := s.tree[i].(refCount := s.tree[i].refCount + 1, updating := true)]))
    else
      match TakeFrame(s) {
        case None => None
        case Some((t, p)) =>
          var e := if i in t.tree then t.tree[i].(page := Some(p), refCount := t.tree[i].refCount + 1, updating := true)
                   else Entry(Some(p), false, false, 0);
          Some(t.(tree := t.tree[i := e]))
      }
  }

  function InsertRun<D>(s: State<D>, start: nat, n: nat): (r: Option<State<D>>)
    decreases n
  {
    if n == 0 then Some(s)
    else
      match InsertPage(s, start) {
        case None => None
        case Some(t) => InsertRun(t, start + 1, n - 1)
      }
  }

  /** Copies one page of the request and queues it for sending. */
  function FillPage<D>(s: State<D>, i: nat, d: D): (r: State<D>) {
    if i in s.tree && s.tree[i].page.Some? then
      s.(mem := s.mem[s.tree[i].page.value := d], queue := s.queue + multiset{i}, last := s.last[i := d])
    else s
  }

  function FillRun<D>(s: State<D>, start: nat, data: seq<D>): (r: State<D>)
    decreases |data|
  {
    if data == [] then s else FillRun(FillPage(s, start, data[0]), start + 1, data[1..])
  }

  /** `write_to_brd`; `None` while the allocator would still be spinning. */
  function WriteRun<D>(s: State<D>, start: nat, data: seq<D>): (r: Option<State<D>>) {
    match InsertRun(s, start, |data|) {
      case None => None
      case Some(t) => Some(FillRun(t, start, data))
    }
  }

  // ----- rdma_write -----

  /** What `rdma_write` copies for page `i`; without a frame the buffer keeps old bytes. */
  function PageData<D>(s: State<D>, i: nat, stale: D): (d: D) {
    if i in s.tree && s.tree[i].page.Some? && s.tree[i].page.value in s.mem
    then s.mem[s.tree[i].page.value] else stale
  }

  function Snapshot<D>(s: State<D>, start: nat, n: nat, stale: D): (op: Op<D>)
    ensures op.start == start && |op.data| == n && !op.landed
    ensures forall j :: 0 <= j < n ==> op.data[j] == PageData(s, start + j, stale)
  {
    Op(start, seq(n, j requires 0 <= j < n => PageData(s, start + j, stale)), false)
  }

  /** Some sender takes `n` consecutive pages it holds and copies them into a buffer. Every CPU
      runs a sender of its own, so the pages sent next may be any of those queued; an item split at
      a 1 GB border is copied and posted in two parts. */
  function CopyRun<D>(s: State<D>, start: nat, n: nat, stale: D): (r: State<D>) {
    s.(queue := s.queue - multiset(Range(start, n)), copied := s.copied + [Snapshot(s, start, n, stale)])
  }

  /** The buffer copied `j`-th is posted. */
  function PostOp<D>(s: State<D>, j: nat): (r: State<D>)
    requires j < |s.copied|
  {
    s.(copied := s.copied[..j] + s.copied[j + 1..], flight := s.flight + [s.copied[j]])
  }

  // ----- The peer's memory and write_done_postwork -----

  function OpAt<D>(op: Op<D>, i: nat): (d: D)
    requires op.start <= i < op.start + |op.data|
  {
    op.data[i - op.start]
  }

  function OpMap<D>(op: Op<D>): (m: map<nat, D>) {
    map i | op.start <= i < op.start + |op.data| :: OpAt(op, i)
  }

  predicate Overlap<D>(a: Op<D>, b: Op<D>) {
    a.start < b.start + |b.data| && b.start < a.start + |a.data|
  }

  function LandOp<D>(s: State<D>, j: nat): (r: State<D>)
    requires j < |s.flight|
  {
    s.(remote := s.remote + OpMap(s.flight[j]), flight := s.flight[j := s.flight[j].(landed := true)])
  }

  /** Per page: drop the reference, clear UPDATING at zero, queue for reclaim once. */
  function CompletePage<D>(s: State<D>, i: nat): (r: State<D>) {
    if i !in s.tree then s
    else
      var e := s.tree[i];
      var n := e.refCount - 1;
      var e1 := if n <= 0 then e.(updating := false, refCount := 0) else e.(refCount := n);
      var t := s.(present := s.present + {i});
      if e1.reclaimable then t.(tree := s.tree[i := e1])
      else t.(tree := s.tree[i := e1.(reclaimable := true)],
              reclaim := if |s.reclaim| < CONFIGURED_QUEUE_SIZE then s.reclaim + [i] else s.reclaim)
  }

  function CompleteRun<D>(s: State<D>, start: nat, n: nat): (r: State<D>)
    decreases n
  {
    if n == 0 then s else CompletePage(CompleteRun(s, start, n - 1), start + n - 1)
  }

  function CompleteOp<D>(s: State<D>, j: nat): (r: State<D>)
    requires j < |s.flight|
  {
    var op := s.flight[j];
    CompleteRun(s.(flight := s.flight[..j] + s.flight[j + 1..]), op.start, |op.data|)
  }

  // ----- read_from_brd and request_read -----

  /** Local frame first, else the peer if the bitmap says it has the page, else nothing. */
  function ReadPage<D>(s: State<D>, i: nat): (r: Option<D>) {
    if i in s.tree && s.tree[i].page.Some? && s.tree[i].page.value in s.mem then Some(s.mem[s.tree[i].page.value])
    else if i in s.present && i in s.remote then Some(s.remote[i])
    else None
  }

  // ----- Runs -----

  datatype Action<D> =
    | Write(start: nat, data: seq<D>)
    | Copy(start: nat, n: nat, stale: D)
    | Post(j: nat)
    | Land(j: nat)
    | Complete(j: nat)
    | ReclaimMiss

  /** Which step may happen. RDMA writes on one connection take effect in order, so no write
      overtakes an earlier one to the same page. A spinning allocator may drop the head of the
      reclaim list without getting a frame. */
  ghost predicate Enabled<D>(s: State<D>, a: Action<D>) {
    match a {
      case Write(start, data) => WriteRun(s, start, data).Some?
      case Copy(start, n, _) => 1 <= n <= RDMA_WR_BUF_LEN && multiset(Range(start, n)) <= s.queue
      case Post(j) => j < |s.copied|
      case Land(j) =>
        && j < |s.flight| && !s.flight[j].landed
        && forall i :: 0 <= i < j && !s.flight[i].landed ==> !Overlap(s.flight[i], s.flight[j])
      case Complete(j) => j < |s.flight| && s.flight[j].landed
      case ReclaimMiss => s.elements == [] && s.reclaim != [] && ReclaimHead(s).1.None?
    }
  }

  /** The first-write hypothesis: a page already in the table is written again only after its
      first write has completed, that is, once its presence bit is set. */
  ghost predicate FirstWriteDone<D>(s: State<D>, a: Action<D>) {
    a.Write? ==> forall i :: a.start <= i < a.start + |a.data| && i in s.tree ==> i in s.present
  }

  /** What `ops` leave at the pages they cover, the later ones winning. */
  ghost function Merged<D>(ops: seq<Op<D>>): (m: map<nat, D>) {
    if ops == [] then map[] else Merged(ops[..|ops| - 1]) + OpMap(ops[|ops| - 1])
  }

  /** Posting the buffer copied `j`-th before those copied earlier leaves page `i` as it is: none
      of them has other data for it, or a buffer copied later covers it too. */
  ghost predicate PostSafeAt<D>(s: State<D>, j: nat, i: nat)
    requires j < |s.copied|
  {
    var earlier, op, later := Merged(s.copied[..j]), OpMap(s.copied[j]), Merged(s.copied[j + 1..]);
    i in op && i in earlier && i !in later ==> earlier[i] == op[i]
  }

  /** The post-order hypothesis: this holds of every page that is not to be sent again anyway. */
  ghost predicate PostHarmless<D>(s: State<D>, a: Action<D>) {
    a.Post? && a.j < |s.copied| ==> forall i: nat :: i !in s.queue ==> PostSafeAt(s, a.j, i)
  }

  /** The sending list stays within the span its ring can hold without two entries sharing a
      slot. An entry stands for at least one page, so bounding the pages bounds the entries. */
  ghost predicate SendingFits<D>(s: State<D>, a: Action<D>) {
    a.Write? ==> |s.queue| + |a.data| <= Window(CONFIGURED_QUEUE_SIZE)
  }

  ghost function Next<D>(s: State<D>, a: Action<D>): (r: State<D>)
    requires Enabled(s, a)
  {
    match a {
      case Write(start, data) => WriteRun(s, start, data).value
      case Copy(start, n, stale) => CopyRun(s, start, n, stale)
      case Post(j) => PostOp(s, j)
      case Land(j) => LandOp(s, j)
      case Complete(j) => CompleteOp(s, j)
      case ReclaimMiss => ReclaimHead(s).0
    }
  }

  ghost predicate LegalRun<D>(s: State<D>, acts: seq<Action<D>>)
    decreases |acts|
  {
    acts == [] || (&& Enabled(s, acts[0]) && FirstWriteDone(s, acts[0]) && PostHarmless(s, acts[0])
                   && SendingFits(s, acts[0]) && LegalRun(Next(s, acts[0]), acts[1..]))
  }

  ghost function Exec<D>(s: State<D>, acts: seq<Action<D>>): (r: State<D>)
    requires LegalRun(s, acts)
    decreases |acts|
  {
    if acts == [] then s else Exec(Next(s, acts[0]), acts[1..])
  }

  /** A fresh pool of distinct frames, nothing written. */
  ghost predicate Init<D>(s: State<D>) {
    && s.tree == map[] && s.last == map[] && s.remote == map[] && s.present == {}
    && s.reclaim == [] && s.queue == multiset{} && s.copied == s.flight == []
    && Distinct(s.elements) && s.mem.Keys == Elems(s.elements)
    && |s.elements| == s.capNr <= CONFIGURED_QUEUE_SIZE && s.usedNr == 0
  }
}
