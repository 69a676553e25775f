/** Choosing servers for a block: probe servers in random order for their free memory, stop
    when enough have answered, sort by free memory and take the best. */
module NodeSelection {
  import opened Config
  import opened Distinctness

  predicate Usable(states: seq<nat>, x: nat) { x < |states| && states[x] < CB_MIGRATING }

  /** The usable nodes among the first `n`, in order. */
  function Candidates(states: seq<nat>, n: nat): (r: seq<nat>)
    requires n <= |states|
    ensures forall x: nat :: x in r <==> x < n && Usable(states, x)
  {
    if n == 0 then [] else Candidates(states, n - 1) + (if Usable(states, n - 1) then [n - 1] else [])
  }

  lemma {:induction false} CandidatesDistinct(states: seq<nat>, n: nat)
    requires n <= |states|
    ensures Distinct(Candidates(states, n)) && |Candidates(states, n)| <= n && AllBelow(Candidates(states, n), n)
    ensures forall t, u :: 0 <= t < u < |Candidates(states, n)| ==> Candidates(states, n)[t] < Candidates(states, n)[u]
  {
    if n > 0 {
      CandidatesDistinct(states, n - 1);
      assert n - 1 !in Candidates(states, n - 1);
    }
  }

  predicate AllBelow(s: seq<nat>, n: nat) {
    forall t :: 0 <= t < |s| ==> s[t] < n
  }

  /** The queried nodes that reported free memory, in the order queried. */
  function Answered(queried: seq<nat>, replies: seq<nat>): (r: seq<nat>)
    requires AllBelow(queried, |replies|)
    ensures |r| <= |queried| && forall x: nat :: x in r <==> x in queried && x < |replies| && replies[x] != 0
  {
    if queried == [] then []
    else
      var init, last := queried[..|queried| - 1], queried[|queried| - 1];
      Answered(init, replies) + (if replies[last] != 0 then [last] else [])
  }

  lemma {:induction false} AnsweredDistinct(queried: seq<nat>, replies: seq<nat>)
    requires Distinct(queried) && AllBelow(queried, |replies|)
    ensures Distinct(Answered(queried, replies))
  {
    if queried != [] {
      var init, last := queried[..|queried| - 1], queried[|queried| - 1];
      AnsweredDistinct(init, replies);
      assert last !in init;
      assert last !in Answered(init, replies);
    }
  }

  // ------------------------------------------------------------------ probing

  /** The slot `d` steps ahead of `k0`, going round. */
  function Round(k0: nat, d: nat, m: nat): (k: nat)
    requires k0 < m && d < m
    ensures k < m
  {
    if k0 + d < m then k0 + d else k0 + d - m
  }

  /** From slot `k0` on, going round, the first slot not yet chosen. */
  method Probe(history: array<nat>, m: nat, k0: nat) returns (k: nat)
    requires k0 < m <= history.Length && exists j :: 0 <= j < m && history[j] != 1
    ensures k < m && history[k] != 1
    ensures exists d :: 0 <= d < m && k == Round(k0, d, m) && forall e :: 0 <= e < d ==> history[Round(k0, e, m)] == 1
  {
    k := k0;
    ghost var d := 0;
    while history[k] == 1
      invariant k < m && d < m && k == Round(k0, d, m)
      invariant forall e :: 0 <= e < d ==> history[Round(k0, e, m)] == 1
      decreases m - d
    {
      if d + 1 == m {
        AllChosen(history[..], m, k0);
        assert false;
      }
      WrapStep(k, m);
      k := k + 1;
      k := k % m;
      d := d + 1;
    }
  }

  lemma WrapStep(k: nat, m: nat)
    requires k < m
    ensures (k + 1) % m == if k + 1 == m then 0 else k + 1
  {
  }

  /** Going once round from `k0` visits every slot. */
  lemma AllChosen(history: seq<nat>, m: nat, k0: nat)
    requires k0 < m <= |history| && forall e :: 0 <= e < m ==> history[Round(k0, e, m)] == 1
    ensures forall j :: 0 <= j < m ==> history[j] == 1
  {
    forall j | 0 <= j < m
      ensures history[j] == 1
    {
      assert Round(k0, if k0 <= j then j - k0 else j + m - k0, m) == j;
    }
  }

  // ------------------------------------------------------------------ sorting

  predicate Matches(free: seq<nat>, nodes: seq<nat>, replies: seq<nat>) {
    |free| == |nodes| && forall t :: 0 <= t < |nodes| ==> nodes[t] < |replies| && free[t] == replies[nodes[t]]
  }

  predicate Descending(free: seq<nat>) {
    forall t, u :: 0 <= t < u < |free| ==> free[t] >= free[u]
  }

  function Swapped(s: seq<nat>, i: nat, j: nat): (r: seq<nat>)
    requires i < |s| && j < |s|
  {
    s[i := s[j]][j := s[i]]
  }

  lemma SwapBag(s: seq<nat>, i: nat, j: nat)
    requires i < |s| && j < |s|
    ensures multiset(Swapped(s, i, j)) == multiset(s)
  {
  }

  method Exchange(a: array<nat>, i: nat, j: nat, n: nat)
    requires i < j < n <= a.Length
    modifies a
    ensures a[..n] == Swapped(old(a[..n]), i, j) && multiset(a[..n]) == multiset(old(a[..n]))
    ensures a[n..] == old(a[n..])
  {
    ghost var s := a[..n];
    SwapBag(s, i, j);
    var tmp := a[i];
    a[i] := a[j];
    a[j] := tmp;
    assert a[..n] == Swapped(s, i, j);
  }

  /** The sort's outer invariant: the first `i` are in order and no smaller than the rest. */
  predicate SortedUpTo(free: seq<nat>, i: nat) {
    forall t, u :: 0 <= t < i && t < u < |free| ==> free[t] >= free[u]
  }

  predicate TopOf(free: seq<nat>, i: nat, j: nat) {
    i < |free| && forall u :: i < u < j && u < |free| ==> free[i] >= free[u]
  }

  /** Exchanging a smaller earlier entry with a larger later one. */
  lemma ExchangeKeeps(free: seq<nat>, i: nat, j: nat)
    requires i < j < |free| && SortedUpTo(free, i) && TopOf(free, i, j) && free[i] < free[j]
    ensures SortedUpTo(Swapped(free, i, j), i) && TopOf(Swapped(free, i, j), i, j + 1)
  {
  }

  lemma MatchesSwapped(free: seq<nat>, nodes: seq<nat>, replies: seq<nat>, i: nat, j: nat)
    requires Matches(free, nodes, replies) && i < |free| && j < |free|
    ensures Matches(Swapped(free, i, j), Swapped(nodes, i, j), replies)
  {
  }

  /** Place of the first of the largest among the first `n`. */
  function FirstBest(free: seq<nat>, n: nat): (k: nat)
    requires 1 <= n <= |free|
    ensures k < n && (forall u :: 0 <= u < n ==> free[u] <= free[k]) && forall u :: 0 <= u < k ==> free[u] < free[k]
  {
    if n == 1 then 0
    else
      var k := FirstBest(free, n - 1);
      if free[k] < free[n - 1] then n - 1 else k
  }

  /** While the front is being filled: it holds the first of the best so far, and the rest is as it was. */
  ghost predicate FrontOf(free: seq<nat>, nodes: seq<nat>, wasFree: seq<nat>, was: seq<nat>, j: nat) {
    && 1 <= j <= |free| == |nodes| == |wasFree| == |was|
    && free[0] == wasFree[FirstBest(wasFree, j)] && nodes[0] == was[FirstBest(wasFree, j)]
    && free[j..] == wasFree[j..] && nodes[j..] == was[j..]
  }

  lemma FrontMore(free: seq<nat>, nodes: seq<nat>, wasFree: seq<nat>, was: seq<nat>, j: nat)
    requires FrontOf(free, nodes, wasFree, was, j) && j < |free|
    ensures free[0] < free[j] ==> FrontOf(Swapped(free, 0, j), Swapped(nodes, 0, j), wasFree, was, j + 1)
    ensures free[0] >= free[j] ==> FrontOf(free, nodes, wasFree, was, j + 1)
  {
    assert free[j] == free[j..][0] == wasFree[j] && nodes[j] == nodes[j..][0] == was[j];
    assert free[j + 1..] == free[j..][1..] && nodes[j + 1..] == nodes[j..][1..];
    assert wasFree[j + 1..] == wasFree[j..][1..] && was[j + 1..] == was[j..][1..];
    assert Swapped(free, 0, j)[j + 1..] == free[j + 1..] && Swapped(nodes, 0, j)[j + 1..] == nodes[j + 1..];
  }

  /** What the inner loop keeps: place `i` holds the best of the rest up to `j`. */
  ghost predicate Selecting(free: seq<nat>, nodes: seq<nat>, wasFree: seq<nat>, was: seq<nat>, replies: seq<nat>,
                            i: nat, j: nat) {
    && i < j <= |free| == |nodes| == |wasFree| == |was|
    && Matches(free, nodes, replies) && multiset(nodes) == multiset(was)
    && SortedUpTo(free, i) && TopOf(free, i, j)
    && (if i == 0 then FrontOf(free, nodes, wasFree, was, j) else nodes[0] == was[0])
  }

  lemma SelectMore(free: seq<nat>, nodes: seq<nat>, wasFree: seq<nat>, was: seq<nat>, replies: seq<nat>, i: nat, j: nat)
    requires Selecting(free, nodes, wasFree, was, replies, i, j) && j < |free|
    ensures free[i] < free[j] ==>
              Selecting(Swapped(free, i, j), Swapped(nodes, i, j), wasFree, was, replies, i, j + 1)
    ensures free[i] >= free[j] ==> Selecting(free, nodes, wasFree, was, replies, i, j + 1)
  {
    if i == 0 {
      FrontMore(free, nodes, wasFree, was, j);
    }
    if free[i] < free[j] {
      ExchangeKeeps(free, i, j);
      MatchesSwapped(free, nodes, replies, i, j);
      SwapBag(nodes, i, j);
    }
  }

  /** The inner loop: the best of the rest comes to place `i`. */
  method SelectNext(free: array<nat>, nodes: array<nat>, n: nat, i: nat, ghost replies: seq<nat>)
    requires i < n <= free.Length && n <= nodes.Length && free != nodes
    requires Matches(free[..n], nodes[..n], replies) && SortedUpTo(free[..n], i)
    modifies free, nodes
    ensures Selecting(free[..n], nodes[..n], old(free[..n]), old(nodes[..n]), replies, i, n)
  {
    ghost var wasFree, was := free[..n], nodes[..n];
    for j := i + 1 to n
      invariant Selecting(free[..n], nodes[..n], wasFree, was, replies, i, j)
    {
      SelectMore(free[..n], nodes[..n], wasFree, was, replies, i, j);
      if free[i] < free[j] {
        Exchange(free, i, j, n);
        Exchange(nodes, i, j, n);
      }
    }
  }

  /** Sorted up to place `i`, and from the first round on the first of the best is in front. */
  ghost predicate Sorting(free: seq<nat>, nodes: seq<nat>, wasFree: seq<nat>, was: seq<nat>, replies: seq<nat>,
                          i: nat) {
    && i <= |free| == |nodes| == |wasFree| == |was|
    && Matches(free, nodes, replies) && multiset(nodes) == multiset(was) && SortedUpTo(free, i)
    && (if i == 0 then free == wasFree && nodes == was else nodes[0] == was[FirstBest(wasFree, |wasFree|)])
  }

  lemma SortMore(free: seq<nat>, nodes: seq<nat>, mid: seq<nat>, midNodes: seq<nat>, wasFree: seq<nat>, was: seq<nat>,
                 replies: seq<nat>, i: nat)
    requires Sorting(mid, midNodes, wasFree, was, replies, i) && i < |free|
    requires Selecting(free, nodes, mid, midNodes, replies, i, |free|)
    ensures Sorting(free, nodes, wasFree, was, replies, i + 1)
  {
  }

  /** Free memory and node numbers are exchanged together: the nodes end up permuted, in
      descending order of their free memory, the first of the best in front. */
  method SortPairs(free: array<nat>, nodes: array<nat>, n: nat, ghost replies: seq<nat>)
    requires n <= free.Length && n <= nodes.Length && free != nodes && Matches(free[..n], nodes[..n], replies)
    modifies free, nodes
    ensures Matches(free[..n], nodes[..n], replies) && Descending(free[..n])
    ensures multiset(nodes[..n]) == multiset(old(nodes[..n]))
    ensures n >= 1 ==> nodes[..n][0] == old(nodes[..n])[FirstBest(old(free[..n]), n)]
  {
    ghost var wasFree, was := free[..n], nodes[..n];
    var i := 0;
    while i + 1 < n
      invariant i <= n && Sorting(free[..n], nodes[..n], wasFree, was, replies, i)
    {
      ghost var mid, midNodes := free[..n], nodes[..n];
      SelectNext(free, nodes, n, i, replies);
      SortMore(free[..n], nodes[..n], mid, midNodes, wasFree, was, replies, i);
      i := i + 1;
    }
  }

  // ------------------------------------------------------------------ querying

  method GatherCandidates(states: array<nat>) returns (candidate: array<nat>, possible: nat)
    ensures fresh(candidate) && candidate.Length == states.Length && possible <= candidate.Length
    ensures candidate[..possible] == Candidates(states[..], states.Length)
  {
    candidate := new nat[states.Length];
    possible := 0;
    CandidatesDistinct(states[..], 0);
    for i := 0 to states.Length
      invariant possible <= i && candidate[..possible] == Candidates(states[..], i)
    {
      if states[i] < CB_MIGRATING {
        candidate[possible] := i;
        possible := possible + 1;
        assert candidate[..possible] == candidate[..possible - 1] + [i];
      }
    }
  }

  /** The nodes queried so far, given by their places among the candidates. */
  ghost predicate Picked(cand: seq<nat>, picks: seq<nat>, queried: seq<nat>) {
    && Distinct(picks) && AllBelow(picks, |cand|) && |queried| == |picks|
    && forall t :: 0 <= t < |picks| ==> queried[t] == cand[picks[t]]
  }

  lemma PickedDistinct(cand: seq<nat>, picks: seq<nat>, queried: seq<nat>)
    requires Distinct(cand) && Picked(cand, picks, queried)
    ensures Distinct(queried) && forall x :: x in queried ==> x in cand
    ensures |picks| == |cand| ==> forall x :: x in cand ==> x in queried
  {
    DistinctFit(picks, |cand|);
    if |picks| == |cand| {
      forall x | x in cand
        ensures x in queried
      {
        var k :| 0 <= k < |cand| && cand[k] == x;
        assert k in picks;
        var t :| 0 <= t < |picks| && picks[t] == k;
        assert queried[t] == x;
      }
    }
  }

  /** The marks kept while probing at random; when there are few candidates they are taken in order. */
  ghost predicate Marked(history: seq<nat>, picks: seq<nat>, m: nat, limit: nat) {
    && (m <= limit ==> forall t :: 0 <= t < |picks| ==> picks[t] == t)
    && (m > limit ==> |history| == m && forall j: nat :: j < m ==> (history[j] == 1 <==> j in picks))
  }

  /** Place `k` is the first one not in `picks`, going round the `m` places from `k0`. */
  ghost predicate FirstLeft(picks: seq<nat>, m: nat, k0: nat, k: nat) {
    && k0 < m && k < m && k !in picks
    && exists d :: 0 <= d < m && k == Round(k0, d, m) && forall e :: 0 <= e < d ==> Round(k0, e, m) in picks
  }

  /** The places in the order they are queried: as they come when there are at most `limit` of
      them, otherwise each the first one left from a random draw. */
  ghost predicate InOrder(picks: seq<nat>, m: nat, limit: nat, random: nat -> nat) {
    forall t :: 0 <= t < |picks| ==>
      if m <= limit then picks[t] == t else m > 0 && FirstLeft(picks[..t], m, random(t) % m, picks[t])
  }

  lemma InOrderSnoc(picks: seq<nat>, m: nat, limit: nat, random: nat -> nat, k: nat)
    requires InOrder(picks, m, limit, random)
    requires if m <= limit then k == |picks| else m > 0 && FirstLeft(picks, m, random(|picks|) % m, k)
    ensures InOrder(picks + [k], m, limit, random)
  {
    var picks' := picks + [k];
    forall t | 0 <= t < |picks'|
      ensures if m <= limit then picks'[t] == t else m > 0 && FirstLeft(picks'[..t], m, random(t) % m, picks'[t])
    {
      assert picks'[..t] == picks[..t];
      assert picks[..|picks|] == picks;
    }
  }

  /** The next place to query: one not picked before. */
  method NextPlace(history: array<nat>, m: nat, limit: nat, draw: nat, i: nat, ghost picks: seq<nat>) returns (k: nat)
    requires i == |picks| < m == history.Length && Distinct(picks) && AllBelow(picks, m)
    requires Marked(history[..], picks, m, limit)
    modifies history
    ensures k < m && k !in picks && Marked(history[..], picks + [k], m, limit)
    ensures if m <= limit then k == i else FirstLeft(picks, m, draw % m, k)
  {
    k := i;
    if m > limit {
      SomeLeft(picks, m);
      k := Probe(history, m, draw % m);
      assert FirstLeft(picks, m, draw % m, k);
      history[k] := 1;
    }
  }

  lemma SomeLeft(picks: seq<nat>, m: nat)
    requires |picks| < m && Distinct(picks) && AllBelow(picks, m)
    ensures exists j: nat :: j < m && j !in picks
  {
    DistinctSize(picks);
    FillsRange(Elems(picks), m);
    var j: nat :| j < m && j !in Elems(picks);
  }

  /** Querying connects idle nodes and leaves the state of the others alone. */
  ghost predicate Connected(before: seq<nat>, after: seq<nat>, queried: seq<nat>) {
    |before| == |after| && forall x: nat :: x < |after| ==>
      after[x] == if x in queried && before[x] == CB_IDLE then CB_CONNECTED else before[x]
  }

  /** What the query loop leaves behind after querying `queried`: the answers in order. */
  ghost predicate Recorded(free: seq<nat>, nodes: seq<nat>, available: nat, queried: seq<nat>, replies: seq<nat>) {
    && available <= |free| && available <= |nodes| && AllBelow(queried, |replies|)
    && nodes[..available] == Answered(queried, replies) && Matches(free[..available], nodes[..available], replies)
  }

  /** Ask one node and record the answer unless it is 0. */
  method AskNode(states: array<nat>, free: array<nat>, nodes: array<nat>, available: nat, x: nat,
                 replies: seq<nat>, ghost before: seq<nat>, ghost queried: seq<nat>) returns (available': nat)
    requires free != nodes && states != free && states != nodes
    requires x < states.Length == |replies| && x !in queried && available < free.Length == nodes.Length
    requires Connected(before, states[..], queried) && Recorded(free[..], nodes[..], available, queried, replies)
    modifies states, free, nodes
    ensures Connected(before, states[..], queried + [x])
    ensures available <= available' <= available + 1
    ensures Recorded(free[..], nodes[..], available', queried + [x], replies)
  {
    if states[x] <= CB_IDLE {
      states[x] := CB_CONNECTED;
    }
    ghost var q := queried + [x];
    assert q[..|q| - 1] == queried;
    available' := available;
    if replies[x] != 0 {
      free[available] := replies[x];
      nodes[available] := x;
      available' := available + 1;
      assert nodes[..available'] == nodes[..available] + [x];
      assert free[..available'] == free[..available] + [replies[x]];
    }
  }

  /** The places taken are the driver's, and before the last of them too few had answered. */
  ghost predicate Asked(cand: seq<nat>, picks: seq<nat>, queried: seq<nat>, limit: nat, random: nat -> nat,
                        replies: seq<nat>) {
    && Picked(cand, picks, queried) && InOrder(picks, |cand|, limit, random) && AllBelow(queried, |replies|)
    && (queried != [] ==> |Answered(queried[..|queried| - 1], replies)| < limit)
  }

  lemma NewNode(cand: seq<nat>, picks: seq<nat>, queried: seq<nat>, k: nat)
    requires Distinct(cand) && Picked(cand, picks, queried) && k < |cand| && k !in picks
    ensures cand[k] !in queried && Picked(cand, picks + [k], queried + [cand[k]])
  {
  }

  lemma AskedMore(cand: seq<nat>, picks: seq<nat>, queried: seq<nat>, limit: nat, random: nat -> nat,
                  replies: seq<nat>, k: nat)
    requires Asked(cand, picks, queried, limit, random, replies) && |Answered(queried, replies)| < limit
    requires Distinct(cand) && k < |cand| && k !in picks && cand[k] < |replies|
    requires if |cand| <= limit then k == |picks| else FirstLeft(picks, |cand|, random(|picks|) % |cand|, k)
    ensures cand[k] !in queried && Asked(cand, picks + [k], queried + [cand[k]], limit, random, replies)
  {
    NewNode(cand, picks, queried, k);
    InOrderSnoc(picks, |cand|, limit, random, k);
    assert (queried + [cand[k]])[..|queried|] == queried;
  }

  /** Query candidates, in order when they are few and at random otherwise, until `limit` of
      them have reported free memory or all have been asked. */
  method QueryNodes(states: array<nat>, candidate: seq<nat>, limit: nat, random: nat -> nat,
                    replies: seq<nat>, free: array<nat>, nodes: array<nat>)
    returns (available: nat, ghost picks: seq<nat>, ghost queried: seq<nat>)
    requires free.Length == nodes.Length == limit >= 1 && states.Length == |replies|
    requires free != nodes && states != free && states != nodes
    requires Distinct(candidate) && AllBelow(candidate, states.Length)
    modifies states, free, nodes
    ensures available <= limit && Recorded(free[..], nodes[..], available, queried, replies)
    ensures Connected(old(states[..]), states[..], queried)
    ensures Asked(candidate, picks, queried, limit, random, replies)
    ensures Distinct(queried) && forall x :: x in queried ==> x in candidate
    ensures available < limit ==> forall x :: x in candidate ==> x in queried
  {
    ghost var before := states[..];
    var history := new nat[|candidate|](_ => 0);
    available, picks, queried := 0, [], [];
    for i := 0 to |candidate|
      invariant available < limit && |picks| == i
      invariant Asked(candidate, picks, queried, limit, random, replies)
      invariant Connected(before, states[..], queried)
      invariant Recorded(free[..], nodes[..], available, queried, replies)
      invariant Marked(history[..], picks, |candidate|, limit)
    {
      var k := NextPlace(history, |candidate|, limit, random(i), i, picks);
      AskedMore(candidate, picks, queried, limit, random, replies, k);
      picks := picks + [k];
      available := AskNode(states, free, nodes, available, candidate[k], replies, before, queried);
      queried := queried + [candidate[k]];
      if available == limit {
        break;
      }
    }
    PickedDistinct(candidate, picks, queried);
  }

  // ------------------------------------------------------------------ the choice

  /** The nodes that could serve: usable, with free memory. */
  ghost function Serving(states: seq<nat>, replies: seq<nat>): (r: set<nat>)
    requires |states| == |replies|
    ensures forall x: nat :: x in r <==> Usable(states, x) && replies[x] != 0
  {
    set x: nat | x < |states| && Usable(states, x) && replies[x] != 0
  }

  /** The best `n` of the queried nodes that have free memory, best first. */
  ghost predicate BestOf(chosen: seq<nat>, queried: seq<nat>, replies: seq<nat>, n: nat)
    requires AllBelow(queried, |replies|)
  {
    && |chosen| == n && Distinct(chosen)
    && (forall x :: x in chosen ==> x in Answered(queried, replies))
    && (forall t, u :: 0 <= t < u < n && chosen[t] < |replies| && chosen[u] < |replies| ==>
          replies[chosen[t]] >= replies[chosen[u]])
    && forall x, t :: x in Answered(queried, replies) && x !in chosen && 0 <= t < n
                      && x < |replies| && chosen[t] < |replies| ==>
         replies[chosen[t]] >= replies[x]
  }

  lemma DistinctByBag(a: seq<nat>, b: seq<nat>)
    requires Distinct(a) && multiset(a) == multiset(b)
    ensures Distinct(b) && forall x: nat :: x in b <==> x in a
  {
    assert forall x: nat :: x in b <==> x in multiset(b);
    assert forall x: nat :: x in a <==> x in multiset(a);
    forall k, m | 0 <= k < m < |b|
      ensures b[k] != b[m]
    {
      if b[k] == b[m] {
        OnceInDistinct(a, b[k]);
        TwiceInBag(b, k, m);
      }
    }
  }

  lemma TwiceInBag(b: seq<nat>, k: nat, m: nat)
    requires k < m < |b| && b[k] == b[m]
    ensures multiset(b)[b[k]] >= 2
  {
    assert b == b[..m] + b[m..];
    assert b[..m][k] in multiset(b[..m]);
    assert b[m..][0] in multiset(b[m..]);
  }

  /** Anything that is not among the first `n` of a descending list is no better than they are. */
  lemma LaterIsWorse(nodes: seq<nat>, free: seq<nat>, replies: seq<nat>, n: nat, x: nat, t: nat)
    requires n <= |nodes| && Matches(free, nodes, replies) && Descending(free)
    requires x in nodes && x !in nodes[..n] && t < n
    ensures x < |replies| && nodes[t] < |replies| && replies[nodes[t]] >= replies[x]
  {
    assert nodes == nodes[..n] + nodes[n..];
    var u :| 0 <= u < |nodes[n..]| && nodes[n..][u] == x;
    assert free[t] >= free[n + u];
  }

  /** A sorted permutation of the answers starts with the best of them. */
  lemma BestPrefix(nodes: seq<nat>, free: seq<nat>, queried: seq<nat>, replies: seq<nat>, n: nat)
    requires AllBelow(queried, |replies|) && Distinct(queried) && n <= |nodes|
    requires Matches(free, nodes, replies) && Descending(free)
    requires multiset(nodes) == multiset(Answered(queried, replies))
    ensures BestOf(nodes[..n], queried, replies, n)
  {
    var answered := Answered(queried, replies);
    AnsweredDistinct(queried, replies);
    DistinctByBag(answered, nodes);
    forall x, t | x in answered && x !in nodes[..n] && 0 <= t < n
      ensures replies[nodes[t]] >= replies[x]
    {
      LaterIsWorse(nodes, free, replies, n, x, t);
    }
    forall t, u | 0 <= t < u < n
      ensures replies[nodes[t]] >= replies[nodes[u]]
    {
      assert free[t] >= free[u];
    }
  }

  /** Either the limit was reached or everyone who could serve has answered. */
  lemma AnsweredCount(states: seq<nat>, replies: seq<nat>, queried: seq<nat>, limit: nat)
    requires |states| == |replies| && AllBelow(queried, |replies|) && Distinct(queried)
    requires forall x :: x in queried ==> x in Candidates(states, |states|)
    requires |Answered(queried, replies)| <= limit
    requires |Answered(queried, replies)| < limit ==> forall x :: x in Candidates(states, |states|) ==> x in queried
    ensures |Answered(queried, replies)| == Min(limit, |Serving(states, replies)|)
    ensures |Serving(states, replies)| <= limit ==>
              forall x :: x in Serving(states, replies) ==> x in Answered(queried, replies)
  {
    var answered, serving := Answered(queried, replies), Serving(states, replies);
    AnsweredDistinct(queried, replies);
    DistinctSize(answered);
    assert Elems(answered) <= serving;
    SubsetSize(Elems(answered), serving);
    if |answered| < limit {
      assert Elems(answered) == serving;
    } else if |serving| <= limit {
      SubsetSize(serving - Elems(answered), serving);
      assert serving == Elems(answered) + (serving - Elems(answered));
    }
  }

  /** Queried in the driver's order, each a usable node, and no further than until `limit` nodes
      with free memory have answered; those are as many as there are, up to `limit`. */
  ghost predicate Queried(states: seq<nat>, replies: seq<nat>, random: nat -> nat, limit: nat,
                          picks: seq<nat>, queried: seq<nat>)
    requires |states| == |replies|
  {
    var cand := Candidates(states, |states|);
    && Asked(cand, picks, queried, limit, random, replies) && Distinct(queried)
    && |Answered(queried, replies)| == Min(limit, |Serving(states, replies)|)
  }

  /** The first half of `find_the_best_node`: find the usable nodes and query them. */
  method Survey(states: array<nat>, replies: seq<nat>, random: nat -> nat, limit: nat)
    returns (free: array<nat>, nodes: array<nat>, available: nat, ghost picks: seq<nat>, ghost queried: seq<nat>)
    requires |replies| == states.Length && limit >= 1
    modifies states
    ensures fresh(free) && fresh(nodes) && free != nodes
    ensures Recorded(free[..], nodes[..], available, queried, replies)
    ensures Connected(old(states[..]), states[..], queried)
    ensures Queried(old(states[..]), replies, random, limit, picks, queried)
    ensures |Serving(old(states[..]), replies)| <= limit ==>
              forall x :: x in Serving(old(states[..]), replies) ==> x in Answered(queried, replies)
  {
    free, nodes := new nat[limit], new nat[limit];
    var candidate, possible := GatherCandidates(states);
    CandidatesDistinct(states[..], states.Length);
    ghost var was := states[..];
    available, picks, queried := QueryNodes(states, candidate[..possible], limit, random, replies, free, nodes);
    AnsweredCount(was, replies, queried, limit);
  }

  /** No node that answered has more free memory, and none that answered before it has as much. */
  ghost predicate FirstOfBest(x: nat, queried: seq<nat>, replies: seq<nat>)
    requires AllBelow(queried, |replies|)
  {
    var answered := Answered(queried, replies);
    exists k :: 0 <= k < |answered| && answered[k] == x
                && forall u :: 0 <= u < |answered| ==> FreeOf(answered[u], replies) <= FreeOf(x, replies)
                                                       && (u < k ==> FreeOf(answered[u], replies) < FreeOf(x, replies))
  }

  function FreeOf(x: nat, replies: seq<nat>): (free: nat) {
    if x < |replies| then replies[x] else 0
  }

  lemma FirstIs(nodes: seq<nat>, free: seq<nat>, queried: seq<nat>, replies: seq<nat>)
    requires AllBelow(queried, |replies|) && nodes == Answered(queried, replies) && Matches(free, nodes, replies)
    requires |nodes| >= 1
    ensures FirstOfBest(nodes[FirstBest(free, |free|)], queried, replies)
  {
    var k := FirstBest(free, |free|);
    assert forall u :: 0 <= u < |nodes| ==> FreeOf(nodes[u], replies) == free[u];
    assert Answered(queried, replies)[k] == nodes[k];
  }

  /** The second half: sort the answers and take the first `n`. */
  method SortAndTake(free: array<nat>, nodes: array<nat>, available: nat,
                     ghost queried: seq<nat>, ghost replies: seq<nat>, n: nat)
    returns (chosen: seq<nat>)
    requires free != nodes && Recorded(free[..], nodes[..], available, queried, replies)
    requires Distinct(queried) && n <= available
    modifies free, nodes
    ensures BestOf(chosen, queried, replies, n)
    ensures n >= 1 ==> FirstOfBest(chosen[0], queried, replies)
  {
    assert free[..][..available] == free[..available] && nodes[..][..available] == nodes[..available];
    ghost var wasFree, was := free[..available], nodes[..available];
    SortPairs(free, nodes, available, replies);
    ghost var sorted := nodes[..available];
    BestPrefix(sorted, free[..available], queried, replies, n);
    chosen := CopyOut(nodes, n);
    assert chosen == sorted[..n];
    if n >= 1 {
      FirstIs(was, wasFree, queried, replies);
      assert chosen[0] == was[FirstBest(wasFree, available)];
    }
  }

  /** `find_the_best_node`, for any random draws and any replies: it asks until `limit` usable nodes
      with free memory have answered or all have been asked; it fails exactly when fewer than
      `numReplica` have answered, and otherwise returns that many distinct nodes, the best of
      those it asked, best first. */
  method FindTheBestNode(states: array<nat>, replies: seq<nat>, random: nat -> nat, numReplica: nat, limit: nat)
    returns (chosen: seq<nat>, ghost picks: seq<nat>, ghost queried: seq<nat>)
    requires |replies| == states.Length && numReplica <= limit && limit >= 1
    modifies states
    ensures Queried(old(states[..]), replies, random, limit, picks, queried)
    ensures Connected(old(states[..]), states[..], queried)
    ensures |Serving(old(states[..]), replies)| < numReplica ==> chosen == []
    ensures |Serving(old(states[..]), replies)| >= numReplica ==> BestOf(chosen, queried, replies, numReplica)
    ensures 1 <= numReplica <= |Serving(old(states[..]), replies)| ==> FirstOfBest(chosen[0], queried, replies)
    ensures numReplica <= |Serving(old(states[..]), replies)| <= limit ==>
              BestServing(chosen, old(states[..]), replies, numReplica)
  {
    var free, nodes, available;
    ghost var was := states[..];
    free, nodes, available, picks, queried := Survey(states, replies, random, limit);
    if available < numReplica {
      chosen := [];
    } else {
      chosen := SortAndTake(free, nodes, available, queried, replies, numReplica);
      if |Serving(was, replies)| <= limit {
        BestOfAll(chosen, was, queried, replies, numReplica);
      }
    }
  }

  /** No serving node left out has more free memory than one chosen. */
  ghost predicate BestServing(chosen: seq<nat>, states: seq<nat>, replies: seq<nat>, n: nat)
    requires |states| == |replies|
  {
    && |chosen| == n && Distinct(chosen) && (forall x :: x in chosen ==> x in Serving(states, replies))
    && forall x, t :: x in Serving(states, replies) && x !in chosen && 0 <= t < n && chosen[t] < |replies| ==>
         replies[chosen[t]] >= replies[x]
  }

  /** With at most `limit` serving nodes all of them are asked, so the best of them are chosen. */
  lemma BestOfAll(chosen: seq<nat>, states: seq<nat>, queried: seq<nat>, replies: seq<nat>, n: nat)
    requires |states| == |replies| && AllBelow(queried, |replies|) && BestOf(chosen, queried, replies, n)
    requires forall x :: x in queried ==> Usable(states, x)
    requires forall x :: x in Serving(states, replies) ==> x in Answered(queried, replies)
    ensures BestServing(chosen, states, replies, n)
  {
  }

  method CopyOut(nodes: array<nat>, n: nat) returns (chosen: seq<nat>)
    requires n <= nodes.Length
    ensures chosen == nodes[..n]
  {
    chosen := [];
    for i := 0 to n
      invariant chosen == nodes[..i]
    {
      chosen := chosen + [nodes[i]];
    }
  }
}
