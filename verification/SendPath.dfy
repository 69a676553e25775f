/** From the sending list to remote addresses: merging queued items, splitting an item that
    crosses a 1 GB border, and the address of every page written and read. */
module SendPath {
  import opened Options
  import opened Config

  const VALET_PAGE_SIZE: nat := 4096
  const ONE_GB: nat := 1073741824
  const PAGES_PER_GB: nat := 262144
  const SECTORS_PER_PAGE: nat := 8
  const SECTOR_SIZE: nat := 512

  /** A `local_page_list`: the entries of consecutive pages from `start`. */
  datatype Item<E> = Item(start: nat, batch: seq<E>)

  function Pages<E>(item: Item<E>): (ps: seq<(nat, E)>)
    ensures |ps| == |item.batch|
    ensures forall i :: 0 <= i < |ps| ==> ps[i] == (item.start + i, item.batch[i])
  {
    seq(|item.batch|, i requires 0 <= i < |item.batch| => (item.start + i, item.batch[i]))
  }

  function Flatten<E>(items: seq<Item<E>>): (ps: seq<(nat, E)>) {
    if items == [] then [] else Pages(items[0]) + Flatten(items[1..])
  }

  predicate Sized<E>(item: Item<E>) {
    1 <= |item.batch| <= RDMA_WR_BUF_LEN
  }

  predicate Mergeable<E>(a: Item<E>, b: Item<E>) {
    b.start == a.start + |a.batch| && |a.batch| + |b.batch| <= RDMA_WR_BUF_LEN
  }

  lemma {:induction false} FlattenSnoc<E>(items: seq<Item<E>>, last: Item<E>)
    ensures Flatten(items + [last]) == Flatten(items) + Pages(last)
  {
    if items == [] {
      assert (items + [last])[1..] == [];
    } else {
      assert (items + [last])[1..] == items[1..] + [last];
      FlattenSnoc(items[1..], last);
    }
  }

  lemma PagesOfMerged<E>(a: Item<E>, b: Item<E>)
    requires b.start == a.start + |a.batch|
    ensures Pages(Item(a.start, a.batch + b.batch)) == Pages(a) + Pages(b)
  {
  }

  ghost predicate AllSized<E>(items: seq<Item<E>>) {
    forall i :: 0 <= i < |items| ==> Sized(items[i])
  }

  /** Item `i` carries exactly the pages of the queued items from `cut[i - 1]` to `cut[i]`, and
      could not absorb the next one. */
  ghost predicate GreedyAt<E>(sent: seq<Item<E>>, cut: seq<nat>, queue: seq<Item<E>>, i: nat)
    requires i < |sent| == |cut|
  {
    && (if i == 0 then 0 else cut[i - 1]) < cut[i] <= |queue|
    && Flatten(sent[..i + 1]) == Flatten(queue[..cut[i]])
    && (cut[i] == |queue| || !Mergeable(sent[i], queue[cut[i]]))
  }

  ghost predicate Greedy<E>(sent: seq<Item<E>>, cut: seq<nat>, queue: seq<Item<E>>) {
    |sent| == |cut| && AllSized(sent) && forall i: nat :: i < |sent| ==> GreedyAt(sent, cut, queue, i)
  }

  /** The sent items are the queued ones, merged as far as they can be merged. */
  ghost predicate MergedAll<E>(sent: seq<Item<E>>, cut: seq<nat>, queue: seq<Item<E>>) {
    Greedy(sent, cut, queue) && (if sent == [] then queue == [] else cut[|sent| - 1] == |queue|)
  }

  lemma FlattenTake<E>(queue: seq<Item<E>>, k: nat)
    requires k < |queue|
    ensures Flatten(queue[..k + 1]) == Flatten(queue[..k]) + Pages(queue[k])
  {
    assert queue[..k + 1] == queue[..k] + [queue[k]];
    FlattenSnoc(queue[..k], queue[k]);
  }

  /** What was sent and is held are the first `taken` queued items, in order. */
  ghost predicate Holding<E>(sent: seq<Item<E>>, held: Item<E>, queue: seq<Item<E>>, taken: nat) {
    0 < taken <= |queue| && Sized(held) && Flatten(sent + [held]) == Flatten(queue[..taken])
  }

  lemma MergeHolds<E>(sent: seq<Item<E>>, held: Item<E>, queue: seq<Item<E>>, taken: nat)
    requires Holding(sent, held, queue, taken) && taken < |queue| && Sized(queue[taken])
    requires Mergeable(held, queue[taken])
    ensures Holding(sent, Item(held.start, held.batch + queue[taken].batch), queue, taken + 1)
  {
    var merged := Item(held.start, held.batch + queue[taken].batch);
    PagesOfMerged(held, queue[taken]);
    FlattenSnoc(sent, held);
    FlattenSnoc(sent, merged);
    FlattenTake(queue, taken);
    assert Flatten(sent) + (Pages(held) + Pages(queue[taken])) == (Flatten(sent) + Pages(held)) + Pages(queue[taken]);
  }

  lemma NextHolds<E>(sent: seq<Item<E>>, held: Item<E>, queue: seq<Item<E>>, taken: nat)
    requires Holding(sent, held, queue, taken) && taken < |queue| && Sized(queue[taken])
    ensures Holding(sent + [held], queue[taken], queue, taken + 1)
  {
    FlattenSnoc(sent + [held], queue[taken]);
    FlattenTake(queue, taken);
  }

  lemma FirstHolds<E>(queue: seq<Item<E>>)
    requires queue != [] && Sized(queue[0])
    ensures Holding([], queue[0], queue, 1)
  {
    assert [] + [queue[0]] == queue[..1];
  }

  lemma GreedySnoc<E>(sent: seq<Item<E>>, cut: seq<nat>, queue: seq<Item<E>>, held: Item<E>, taken: nat)
    requires Greedy(sent, cut, queue) && Holding(sent, held, queue, taken)
    requires (if cut == [] then 0 else cut[|cut| - 1]) < taken
    requires taken == |queue| || !Mergeable(held, queue[taken])
    ensures Greedy(sent + [held], cut + [taken], queue)
  {
    var sent', cut' := sent + [held], cut + [taken];
    forall i: nat | i < |sent'|
      ensures GreedyAt(sent', cut', queue, i)
    {
      if i < |sent| {
        assert GreedyAt(sent, cut, queue, i);
        assert sent'[..i + 1] == sent[..i + 1];
      } else {
        assert sent'[..i + 1] == sent';
      }
    }
  }

  // ----- The cuts determine what is sent -----

  lemma {:induction false} FlattenConcat<E>(a: seq<Item<E>>, b: seq<Item<E>>)
    ensures Flatten(a + b) == Flatten(a) + Flatten(b)
  {
    if a == [] {
      assert a + b == b;
    } else {
      assert (a + b)[1..] == a[1..] + b;
      FlattenConcat(a[1..], b);
      assert Pages(a[0]) + (Flatten(a[1..]) + Flatten(b)) == (Pages(a[0]) + Flatten(a[1..])) + Flatten(b);
    }
  }

  lemma FlattenMid<E>(queue: seq<Item<E>>, lo: nat, hi: nat)
    requires lo <= hi <= |queue|
    ensures Flatten(queue[..hi]) == Flatten(queue[..lo]) + Flatten(queue[lo..hi])
  {
    assert queue[..hi] == queue[..lo] + queue[lo..hi];
    FlattenConcat(queue[..lo], queue[lo..hi]);
  }

  /** Item `i` on its own. */
  lemma ItemPages<E>(sent: seq<Item<E>>, cut: seq<nat>, queue: seq<Item<E>>, i: nat)
    requires Greedy(sent, cut, queue) && i < |sent|
    ensures var lo := if i == 0 then 0 else cut[i - 1];
            lo < cut[i] <= |queue| && Pages(sent[i]) == Flatten(queue[lo..cut[i]])
  {
    assert GreedyAt(sent, cut, queue, i);
    var lo := if i == 0 then 0 else cut[i - 1];
    FlattenTake(sent, i);
    FlattenMid(queue, lo, cut[i]);
    if i > 0 {
      assert GreedyAt(sent, cut, queue, i - 1);
    } else {
      assert sent[..0] == [] && queue[..0] == [];
    }
    SameTail(Flatten(sent[..i]), Pages(sent[i]), Flatten(queue[lo..cut[i]]));
  }

  lemma SameTail<X>(a: seq<X>, b: seq<X>, c: seq<X>)
    requires a + b == a + c
    ensures b == c
  {
    assert b == (a + b)[|a|..];
    assert c == (a + c)[|a|..];
  }

  lemma PagesInjective<E>(a: Item<E>, b: Item<E>)
    requires Pages(a) == Pages(b) && a.batch != []
    ensures a == b
  {
    assert Pages(a)[0] == Pages(b)[0];
    forall i | 0 <= i < |a.batch|
      ensures a.batch[i] == b.batch[i]
    {
      assert Pages(a)[i] == Pages(b)[i];
    }
  }

  /** An item that carries the pages of another and of the queued item behind it is both merged. */
  lemma LongerAbsorbs<E>(a: Item<E>, b: Item<E>, next: Item<E>, rest: seq<(nat, E)>)
    requires Sized(a) && Sized(b) && Sized(next) && Pages(b) == Pages(a) + (Pages(next) + rest)
    ensures Mergeable(a, next)
  {
    assert Pages(b)[0] == Pages(a)[0];
    assert Pages(b)[|a.batch|] == Pages(next)[0];
  }

  lemma CutApart<X>(s: seq<X>, lo: nat, k: nat, hi: nat)
    requires lo <= k < hi <= |s|
    ensures s[lo..hi] == s[lo..k] + ([s[k]] + s[k + 1..hi])
  {
  }

  lemma CutsAgree<E>(a: Item<E>, b: Item<E>, queue: seq<Item<E>>, lo: nat, ca: nat, cb: nat)
    requires AllSized(queue) && Sized(a) && Sized(b) && lo < ca <= |queue| && lo < cb <= |queue|
    requires Pages(a) == Flatten(queue[lo..ca]) && Pages(b) == Flatten(queue[lo..cb])
    requires ca == |queue| || !Mergeable(a, queue[ca])
    ensures ca >= cb
  {
    if ca < cb {
      CutApart(queue, lo, ca, cb);
      FlattenConcat(queue[lo..ca], [queue[ca]] + queue[ca + 1..cb]);
      assert ([queue[ca]] + queue[ca + 1..cb])[1..] == queue[ca + 1..cb];
      LongerAbsorbs(a, b, queue[ca], Flatten(queue[ca + 1..cb]));
    }
  }

  lemma {:induction false} SamePrefix<E>(sent: seq<Item<E>>, cut: seq<nat>, sent': seq<Item<E>>, cut': seq<nat>,
                                         queue: seq<Item<E>>, n: nat)
    requires AllSized(queue) && Greedy(sent, cut, queue) && Greedy(sent', cut', queue)
    requires n <= |sent| && n <= |sent'|
    ensures sent[..n] == sent'[..n] && cut[..n] == cut'[..n]
  {
    if n > 0 {
      var i := n - 1;
      SamePrefix(sent, cut, sent', cut', queue, i);
      var lo := if i == 0 then 0 else cut[i - 1];
      assert i > 0 ==> cut[..i][i - 1] == cut'[..i][i - 1];
      assert GreedyAt(sent, cut, queue, i) && GreedyAt(sent', cut', queue, i);
      ItemPages(sent, cut, queue, i);
      ItemPages(sent', cut', queue, i);
      CutsAgree(sent[i], sent'[i], queue, lo, cut[i], cut'[i]);
      CutsAgree(sent'[i], sent[i], queue, lo, cut'[i], cut[i]);
      PagesInjective(sent[i], sent'[i]);
      assert sent[..n] == sent[..i] + [sent[i]] && sent'[..n] == sent'[..i] + [sent'[i]];
      assert cut[..n] == cut[..i] + [cut[i]] && cut'[..n] == cut'[..i] + [cut'[i]];
    }
  }

  lemma EndsTogether<E>(sent: seq<Item<E>>, cut: seq<nat>, sent': seq<Item<E>>, cut': seq<nat>, queue: seq<Item<E>>)
    requires AllSized(queue) && MergedAll(sent, cut, queue) && MergedAll(sent', cut', queue)
    ensures |sent| >= |sent'|
  {
    var n := Min(|sent|, |sent'|);
    SamePrefix(sent, cut, sent', cut', queue, n);
    assert n < |sent'| ==> GreedyAt(sent', cut', queue, n);
    assert n > 0 ==> cut[..n][n - 1] == cut'[..n][n - 1];
  }

  /** There is only one way to merge a list as far as it can be merged. */
  lemma MergeIsUnique<E>(sent: seq<Item<E>>, cut: seq<nat>, sent': seq<Item<E>>, cut': seq<nat>, queue: seq<Item<E>>)
    requires AllSized(queue) && MergedAll(sent, cut, queue) && MergedAll(sent', cut', queue)
    ensures sent == sent' && cut == cut'
  {
    EndsTogether(sent, cut, sent', cut', queue);
    EndsTogether(sent', cut', sent, cut, queue);
    SamePrefix(sent, cut, sent', cut', queue, |sent|);
    assert sent[..|sent|] == sent && sent'[..|sent|] == sent' && cut[..|sent|] == cut && cut'[..|sent|] == cut';
  }

  /** `remote_sender_fn` on a closed sending list with all sends succeeding: what is sent,
      page by page, is what was queued, in order; every item sent is one run of 1 to
      RDMA_WR_BUF_LEN pages made of whole queued items, and an item is sent only when it cannot
      absorb the next one. `forced` reports whether the flag `must_go` ever made the sender send
      an item it had just taken up: it never does. */
  method RemoteSender<E>(queue: seq<Item<E>>) returns (sent: seq<Item<E>>, forced: bool, ghost cut: seq<nat>)
    requires AllSized(queue)
    ensures Flatten(sent) == Flatten(queue) && AllSized(sent) && !forced
    ensures MergedAll(sent, cut, queue)
  {
    sent, cut, forced := [], [], false;
    var held: Option<Item<E>> := None;
    var mustGo, rest := false, queue;
    ghost var taken := 0;
    while true
      invariant taken <= |queue| && rest == queue[taken..]
      invariant held.None? ==> !mustGo && taken == 0 && sent == []
      invariant held.Some? ==> Holding(sent, held.value, queue, taken)
      invariant !forced && Greedy(sent, cut, queue)
      invariant held.Some? ==> (if cut == [] then 0 else cut[|cut| - 1]) < taken
      decreases |rest|
    {
      if rest == [] {
        if held.Some? {
          assert queue[..taken] == queue;
          GreedySnoc(sent, cut, queue, held.value, taken);
          sent, cut := sent + [held.value], cut + [taken];
        }
        return;
      }
      var tmp := rest[0];
      assert tmp == queue[taken];
      if held.None? {
        held := Some(tmp);
        FirstHolds(queue);
        if mustGo {
          forced := true;
        }
      } else if tmp.start == held.value.start + |held.value.batch|
                && |held.value.batch| + |tmp.batch| <= RDMA_WR_BUF_LEN {
        MergeHolds(sent, held.value, queue, taken);
        var batch := Append(held.value.batch, tmp.batch);
        held := Some(Item(held.value.start, batch));
      } else {
        NextHolds(sent, held.value, queue, taken);
        GreedySnoc(sent, cut, queue, held.value, taken);
        sent, cut := sent + [held.value], cut + [taken];
        held, mustGo := Some(tmp), true;
      }
      rest, taken := rest[1..], taken + 1;
    }
  }

  /** The copy of one batch behind another. */
  method Append<E>(a: seq<E>, b: seq<E>) returns (r: seq<E>)
    ensures r == a + b
  {
    r := a;
    for i := 0 to |b|
      invariant r == a + b[..i]
    {
      r := r + [b[i]];
    }
  }

  // ----- request_write: the split at a 1 GB border -----

  /** One RDMA write: an item, the swapspace it belongs to, and its byte offset there. */
  datatype Part<E> = Part(swapspace: nat, offset: nat, item: Item<E>)

  /** Inside one swapspace, at the byte address of its first page. */
  predicate Placed<E>(p: Part<E>) {
    && Sized(p.item)
    && p.swapspace * ONE_GB + p.offset == p.item.start * VALET_PAGE_SIZE
    && p.offset + |p.item.batch| * VALET_PAGE_SIZE <= ONE_GB
  }

  /** First page of the item that lies in the next swapspace. */
  method FindBorder<E>(item: Item<E>) returns (border: nat)
    requires Sized(item)
    ensures border <= |item.batch|
    ensures forall p :: item.start <= p < item.start + |item.batch| ==>
              (p < item.start + border <==> SwapspaceOf(p) == SwapspaceOf(item.start))
  {
    var start := item.start * VALET_PAGE_SIZE;
    border := 0;
    for i := 0 to |item.batch|
      invariant border == i
      invariant forall p :: item.start <= p < item.start + i ==> SwapspaceOf(p) == SwapspaceOf(item.start)
    {
      assert SwapspaceOf(item.start + border) == (start + border * VALET_PAGE_SIZE) / ONE_GB;
      if (start + border * VALET_PAGE_SIZE) / ONE_GB != start / ONE_GB {
        forall p | item.start + border <= p
          ensures SwapspaceOf(p) != SwapspaceOf(item.start)
        {
          SwapspaceMonotone(item.start, item.start + border);
          SwapspaceMonotone(item.start + border, p);
        }
        return;
      }
      border := border + 1;
    }
  }

  lemma SwapspaceMonotone(p: nat, q: nat)
    requires p <= q
    ensures SwapspaceOf(p) <= SwapspaceOf(q)
  {
  }

  function SwapspaceOf(page: nat): (s: nat) {
    page * VALET_PAGE_SIZE / ONE_GB
  }

  /** The parts in the order they are sent: the second half, if there is one, goes first. The
      parts together are the item, each lies inside one swapspace at its own address. */
  method RequestWrite<E>(item: Item<E>) returns (parts: seq<Part<E>>)
    requires Sized(item)
    ensures 1 <= |parts| <= 2
    ensures forall i :: 0 <= i < |parts| ==> Placed(parts[i])
    ensures |parts| == 1 ==> parts[0].item == item
    ensures |parts| == 2 ==> Pages(parts[1].item) + Pages(parts[0].item) == Pages(item)
                             && parts[0].swapspace == parts[1].swapspace + 1
    ensures |parts| == 2 <==> SwapspaceOf(item.start) != SwapspaceOf(item.start + |item.batch| - 1)
  {
    var start := item.start * VALET_PAGE_SIZE;
    var swapspace, offset := start / ONE_GB, start % ONE_GB;
    var boundary := (start + |item.batch| * VALET_PAGE_SIZE - VALET_PAGE_SIZE) / ONE_GB;
    var first := item;
    parts := [];
    if swapspace != boundary {
      var border := FindBorder(item);
      BorderInside(item, border);
      var second := Item(item.start + border, item.batch[border..]);
      first := Item(item.start, item.batch[..border]);
      var secStart := second.start * VALET_PAGE_SIZE;
      parts := [Part(secStart / ONE_GB, secStart % ONE_GB, second)];
    } else {
      assert SwapspaceOf(item.start + |item.batch| - 1) == swapspace;
    }
    parts := parts + [Part(swapspace, offset, first)];
  }

  lemma BorderInside<E>(item: Item<E>, border: nat)
    requires Sized(item) && border <= |item.batch|
    requires SwapspaceOf(item.start) != SwapspaceOf(item.start + |item.batch| - 1)
    requires forall p :: item.start <= p < item.start + |item.batch| ==>
               (p < item.start + border <==> SwapspaceOf(p) == SwapspaceOf(item.start))
    ensures 1 <= border < |item.batch|
    ensures item.start + border == (SwapspaceOf(item.start) + 1) * PAGES_PER_GB
  {
    var last := item.start + |item.batch| - 1;
    assert last < item.start + border <==> SwapspaceOf(last) == SwapspaceOf(item.start);
    assert SwapspaceOf(item.start + border - 1) == SwapspaceOf(item.start);
    assert SwapspaceOf(item.start + border) != SwapspaceOf(item.start);
  }

  // ----- Addresses: where a page is written is where it is read -----

  /** `rdma_write` puts page `j` of a part behind the previous ones. */
  function WriteAddress<E>(p: Part<E>, j: nat): (a: (nat, nat)) {
    (p.swapspace, p.offset + j * VALET_PAGE_SIZE)
  }

  /** Bit set for it in the presence bitmap by `write_done_postwork`. */
  function WriteBit<E>(p: Part<E>, j: nat): (b: nat) {
    p.offset / VALET_PAGE_SIZE + j
  }

  /** `request_read` of one page, from its sector number. */
  function ReadAddress(sector: nat): (a: (nat, nat)) {
    (sector * SECTOR_SIZE / ONE_GB, sector * SECTOR_SIZE % ONE_GB)
  }

  function ReadBit(sector: nat): (b: nat) {
    sector * SECTOR_SIZE % ONE_GB / VALET_PAGE_SIZE
  }

  lemma AddressesAgree<E>(p: Part<E>, j: nat)
    requires Placed(p) && j < |p.item.batch|
    ensures var sector := (p.item.start + j) * SECTORS_PER_PAGE;
            && WriteAddress(p, j) == ReadAddress(sector)
            && WriteBit(p, j) == ReadBit(sector) < PAGES_PER_GB
  {
  }

  /** Distinct pages are written to distinct addresses. */
  lemma AddressesDistinct<E>(p: Part<E>, j: nat, q: Part<E>, k: nat)
    requires Placed(p) && j < |p.item.batch| && Placed(q) && k < |q.item.batch|
    ensures WriteAddress(p, j) == WriteAddress(q, k) <==> p.item.start + j == q.item.start + k
  {
  }

  // ----- The whole send path keeps the order of each page's writes -----

  function PartPages<E>(parts: seq<Part<E>>): (ps: seq<(nat, E)>) {
    if parts == [] then [] else Pages(parts[0].item) + PartPages(parts[1..])
  }

  /** The entries sent for one page, in order. */
  function OnPage<E>(ps: seq<(nat, E)>, p: nat): (r: seq<E>) {
    if ps == [] then [] else (if ps[0].0 == p then [ps[0].1] else []) + OnPage(ps[1..], p)
  }

  lemma {:induction false} OnPageConcat<E>(a: seq<(nat, E)>, b: seq<(nat, E)>, p: nat)
    ensures OnPage(a + b, p) == OnPage(a, p) + OnPage(b, p)
  {
    if a == [] {
      assert a + b == b;
    } else {
      assert (a + b)[1..] == a[1..] + b && (a + b)[0] == a[0];
      OnPageConcat(a[1..], b, p);
      var head := if a[0].0 == p then [a[0].1] else [];
      Regroup(head, OnPage(a[1..], p), OnPage(b, p));
    }
  }

  lemma Regroup<E>(a: seq<E>, b: seq<E>, c: seq<E>)
    ensures a + (b + c) == (a + b) + c
  {
  }

  lemma {:induction false} OnPageMisses<E>(ps: seq<(nat, E)>, p: nat)
    requires forall i :: 0 <= i < |ps| ==> ps[i].0 != p
    ensures OnPage(ps, p) == []
  {
    if ps != [] {
      OnPageMisses(ps[1..], p);
    }
  }

  /** Sending the second half first does not reorder the writes of any page. */
  lemma SwapKeepsOnPage<E>(first: Item<E>, second: Item<E>, p: nat)
    requires first.start + |first.batch| == second.start
    ensures OnPage(Pages(second) + Pages(first), p) == OnPage(Pages(first) + Pages(second), p)
  {
    OnPageConcat(Pages(second), Pages(first), p);
    OnPageConcat(Pages(first), Pages(second), p);
    if p < second.start {
      OnPageMisses(Pages(second), p);
    } else {
      OnPageMisses(Pages(first), p);
    }
  }

  lemma PartsKeepOnPage<E>(item: Item<E>, parts: seq<Part<E>>, p: nat)
    requires 1 <= |parts| <= 2
    requires |parts| == 1 ==> parts[0].item == item
    requires |parts| == 2 ==> Sized(parts[0].item) && Sized(parts[1].item)
                              && Pages(parts[1].item) + Pages(parts[0].item) == Pages(item)
    ensures OnPage(PartPages(parts), p) == OnPage(Pages(item), p)
  {
    assert PartPages(parts[1..]) == if |parts| == 1 then [] else Pages(parts[1].item) by {
      assert |parts| == 2 ==> parts[1..][1..] == [];
    }
    if |parts| == 2 {
      var first, second, all := parts[1].item, parts[0].item, Pages(item);
      assert all[0] == Pages(first)[0] && all[|first.batch|] == Pages(second)[0];
      SwapKeepsOnPage(first, second, p);
    } else {
      assert Pages(item) + [] == Pages(item);
    }
  }

  lemma {:induction false} PartPagesConcat<E>(a: seq<Part<E>>, b: seq<Part<E>>)
    ensures PartPages(a + b) == PartPages(a) + PartPages(b)
  {
    if a == [] {
      assert a + b == b;
    } else {
      assert (a + b)[1..] == a[1..] + b;
      PartPagesConcat(a[1..], b);
    }
  }

  /** One more item sent, in its parts, is one more item in every page's order. */
  lemma PostedMore<E>(posted: seq<Part<E>>, parts: seq<Part<E>>, before: seq<Item<E>>, item: Item<E>, p: nat)
    requires 1 <= |parts| <= 2
    requires |parts| == 1 ==> parts[0].item == item
    requires |parts| == 2 ==> Sized(parts[0].item) && Sized(parts[1].item)
                              && Pages(parts[1].item) + Pages(parts[0].item) == Pages(item)
    requires OnPage(PartPages(posted), p) == OnPage(Flatten(before), p)
    ensures OnPage(PartPages(posted + parts), p) == OnPage(Flatten(before + [item]), p)
  {
    PartPagesConcat(posted, parts);
    OnPageConcat(PartPages(posted), PartPages(parts), p);
    PartsKeepOnPage(item, parts, p);
    FlattenSnoc(before, item);
    OnPageConcat(Flatten(before), Pages(item), p);
  }

  /** Draining the sending list: every RDMA write is placed, and for every page the writes
      posted are exactly those queued, in the order they were queued. */
  method SendAll<E>(queue: seq<Item<E>>) returns (posted: seq<Part<E>>)
    requires AllSized(queue)
    ensures forall i :: 0 <= i < |posted| ==> Placed(posted[i])
    ensures forall p :: OnPage(PartPages(posted), p) == OnPage(Flatten(queue), p)
  {
    var sent, forced, cut := RemoteSender(queue);
    posted := [];
    assert sent[..0] == [];
    for k := 0 to |sent|
      invariant forall i :: 0 <= i < |posted| ==> Placed(posted[i])
      invariant forall p :: OnPage(PartPages(posted), p) == OnPage(Flatten(sent[..k]), p)
    {
      var parts := RequestWrite(sent[k]);
      assert sent[..k + 1] == sent[..k] + [sent[k]];
      forall p
        ensures OnPage(PartPages(posted + parts), p) == OnPage(Flatten(sent[..k + 1]), p)
      {
        PostedMore(posted, parts, sent[..k], sent[k], p);
      }
      posted := posted + parts;
    }
    assert sent[..|sent|] == sent;
  }
}
