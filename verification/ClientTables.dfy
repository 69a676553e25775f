/** The client's mapping tables as its handlers update them in place. Together with the
    server's half, each handler is the corresponding step of `Agreement`. */
module ClientTables {
  import opened Options
  import opened Config
  import opened Daemon
  import opened Eviction
  import opened Agreement

  function With(states: seq<nat>, i: nat, state: nat): (r: seq<nat>)
    requires i < |states|
  {
    states[i := state]
  }

  /** The client's own tables for one node. */
  datatype Own = Own(cbState: nat, rbState: seq<nat>, rbIdx: seq<int>, remote: seq<Mr>, bits: seq<set<nat>>)

  /** A node with the client's own tables put in. */
  function NodeOf(r: Node, own: Own): Node {
    r.(cbState := own.cbState, rbState := own.rbState, rbIdx := own.rbIdx, remote := own.remote, bits := own.bits)
  }

  function NodesOf(remotes: seq<Node>, owns: seq<Own>): (nodes: seq<Node>)
    requires |remotes| == |owns|
    ensures |nodes| == |remotes|
    ensures forall n :: 0 <= n < |nodes| ==> nodes[n] == NodeOf(remotes[n], owns[n])
  {
    if remotes == [] then []
    else
      var m := |remotes| - 1;
      NodesOf(remotes[..m], owns[..m]) + [NodeOf(remotes[m], owns[m])]
  }

  lemma OneNode(remotes: seq<Node>, owns: seq<Own>, n: nat, r: Node, own: Own)
    requires |remotes| == |owns| && n < |owns|
    ensures NodesOf(remotes[n := r], owns[n := own]) == NodesOf(remotes, owns)[n := NodeOf(r, own)]
  {
  }

  /** The tables of one node have an entry for every block. */
  predicate Even(own: Own, blocks: nat) {
    |own.rbState| == |own.rbIdx| == |own.remote| == |own.bits| == blocks
  }

  class Client {
    var cbIndex: seq<int>
    var toRb: seq<int>
    var own: seq<Own>
    ghost var lastOn: seq<int>
    ghost var written: seq<set<nat>>

    ghost predicate Shaped(nodes: nat)
      reads this
    {
      |own| == nodes && |cbIndex| == |toRb| == |lastOn| == |written|
    }

    ghost function Model(remotes: seq<Node>): (st: State)
      requires Shaped(|remotes|)
      reads this
    {
      State(cbIndex, toRb, lastOn, written, NodesOf(remotes, own))
    }

    constructor (swapspaces: nat, nodes: nat)
      ensures Shaped(nodes) && |cbIndex| == swapspaces
      ensures forall s :: 0 <= s < swapspaces ==> cbIndex[s] == NO_CB_MAPPED
      ensures forall n :: 0 <= n < nodes ==> own[n].cbState == CB_IDLE && Even(own[n], MAX_FREE_MEM_GB)
    {
      cbIndex := seq(swapspaces, _ => NO_CB_MAPPED);
      toRb, lastOn := seq(swapspaces, _ => 0), seq(swapspaces, _ => NO_CB_MAPPED);
      written := seq(swapspaces, _ => {});
      own := seq(nodes, _ => Own(CB_IDLE, seq(MAX_FREE_MEM_GB, _ => 0), seq(MAX_FREE_MEM_GB, _ => -1),
                                 seq(MAX_FREE_MEM_GB, _ => NO_MR), seq(MAX_FREE_MEM_GB, _ => {})));
    }

    /** The reply to a map request, with `valet_remote_block_init`: the first key that is set
        names the block; its key, address and an empty bitmap are recorded with it. */
    method MapReply(n: nat, s: nat, keys: seq<nat>, bufs: seq<nat>)
      requires Shaped(|own|) && n < |own| && s < |cbIndex| && Even(own[n], |keys|) && |bufs| == |keys|
      modifies this
      ensures Shaped(old(|own|))
      ensures var i, mine := FirstKey(keys, 0), old(own)[n];
              if i == |keys| then
                && cbIndex == old(cbIndex) && toRb == old(toRb) && lastOn == old(lastOn) && written == old(written)
                && own == old(own)[n := mine.(cbState := CB_MAPPED)]
              else
                && cbIndex == old(cbIndex)[s := n] && toRb == old(toRb)[s := i]
                && lastOn == old(lastOn)[s := n] && written == old(written)[s := {}]
                && own == old(own)[n := Own(CB_MAPPED, mine.rbState[i := ACTIVE], mine.rbIdx[i := s],
                                            mine.remote[i := Mr(keys[i], bufs[i])], mine.bits[i := {}])]
    {
      var mine := own[n].(cbState := CB_MAPPED);
      var i := 0;
      while i < |keys| && keys[i] == 0
        invariant i <= |keys| && FirstKey(keys, 0) == FirstKey(keys, i)
      {
        i := i + 1;
      }
      if i < |keys| {
        mine := mine.(remote := mine.remote[i := Mr(keys[i], bufs[i])], bits := mine.bits[i := {}]);
        toRb := toRb[s := i];
        mine := mine.(rbIdx := mine.rbIdx[i := s]);
        cbIndex, lastOn, written := cbIndex[s := n], lastOn[s := n], written[s := {}];
        mine := mine.(rbState := mine.rbState[i := ACTIVE]);
      }
      own := own[n := mine];
    }

    /** `get_cb` and the look-up after it: where a write or read of swap space `s` goes. An unmapped
        swap space is first mapped to `n`, the node that selection found. What comes back is the
        recorded place if and only if the swap space was mapped or the reply names a block;
        otherwise it is a block of `n` under the number the swap space had before. */
    method GetCb(n: nat, s: nat, keys: seq<nat>, bufs: seq<nat>) returns (node: nat, block: int)
      requires Shaped(|own|) && s < |cbIndex| && (cbIndex[s] == NO_CB_MAPPED || InRange(|own|, cbIndex[s]))
      requires cbIndex[s] == NO_CB_MAPPED ==> n < |own| && Even(own[n], |keys|) && |bufs| == |keys|
      modifies this
      ensures Shaped(old(|own|)) && node < |own| && |cbIndex| == old(|cbIndex|)
      ensures cbIndex[s] == node && toRb[s] == block
              <==> old(cbIndex[s]) != NO_CB_MAPPED || FirstKey(keys, 0) < |keys|
      ensures old(cbIndex[s]) != NO_CB_MAPPED ==>
                && cbIndex == old(cbIndex) && toRb == old(toRb) && own == old(own)
                && lastOn == old(lastOn) && written == old(written)
      ensures old(cbIndex[s]) == NO_CB_MAPPED && FirstKey(keys, 0) < |keys| ==>
                && node == n && block == FirstKey(keys, 0) && own[n].rbIdx == old(own)[n].rbIdx[block := s]
                && own[n].remote == old(own)[n].remote[block := Mr(keys[block], bufs[block])]
      ensures old(cbIndex[s]) == NO_CB_MAPPED && FirstKey(keys, 0) == |keys| ==>
                && node == n && block == old(toRb[s]) && cbIndex == old(cbIndex) && toRb == old(toRb)
                && own == old(own)[n := old(own)[n].(cbState := CB_MAPPED)]
    {
      if cbIndex[s] == NO_CB_MAPPED {
        MapReply(n, s, keys, bufs);
        node := n;
      } else {
        node := cbIndex[s];
      }
      block := toRb[s];
    }

    /** A map request and its reply are the step `MapTo`: the server's reply sets the key of
        the block it took and no other, and makes the connection ready. */
    method MapRequest(n: nat, s: nat, ghost remotes: seq<Node>, ghost mr: Mr, keys: seq<nat>, bufs: seq<nat>)
      requires Shaped(|remotes|) && n < |remotes| && Enabled(Model(remotes), MapTo(s, n, mr))
      requires |bufs| == |keys| == |remotes[n].table.blocks|
      requires var i := First(IsFree, remotes[n].table.blocks, 0);
               i < |keys| && FirstKey(keys, 0) == i && Mr(keys[i], bufs[i]) == mr
      modifies this
      ensures Shaped(|remotes|)
      ensures Model(remotes[n := MapNode(old(Model(remotes)).nodes[n], s, mr)])
              == Next(old(Model(remotes)), MapTo(s, n, mr))
    {
      ghost var st, was := Model(remotes), own;
      MapReply(n, s, keys, bufs);
      OneNode(remotes, was, n, MapNode(st.nodes[n], s, mr), own[n]);
    }

    /** `set_rb_state`. */
    method SetState(n: nat, s: nat, state: nat)
      requires Shaped(|own|) && n < |own| && s < |toRb| && InRange(|own[n].rbState|, toRb[s])
      modifies this`own
      ensures Shaped(old(|own|))
      ensures own == old(own)[n := old(own)[n].(rbState := With(old(own)[n].rbState, toRb[s], state))]
    {
      own := own[n := own[n].(rbState := With(own[n].rbState, toRb[s], state))];
    }

    /** The thread stops writes to the block it evicts: the step `Freeze`. */
    method FreezeEvicted(n: nat, s: nat, ghost i: nat, ghost remotes: seq<Node>)
      requires Shaped(|remotes|) && n < |remotes| && remotes[n].thread == Noted(s, i)
      requires Enabled(Model(remotes), Freeze(n))
      modifies this`own
      ensures Shaped(|remotes|)
      ensures Model(remotes[n := remotes[n].(thread := Frozen(s, i))]) == Next(old(Model(remotes)), Freeze(n))
    {
      ghost var was := own;
      SetState(n, s, READONLY);
      OneNode(remotes, was, n, remotes[n].(thread := Frozen(s, i)), own[n]);
    }

    /** The end of an eviction, through whatever block number the swap space has by then: the
        step `Finish`. */
    method FinishEvicted(n: nat, s: nat, ghost i: nat, ghost remotes: seq<Node>)
      requires Shaped(|remotes|) && n < |remotes| && remotes[n].thread == Unmapped(s, i)
      requires Enabled(Model(remotes), Finish(n))
      modifies this`own
      ensures Shaped(|remotes|)
      ensures Model(remotes[n := remotes[n].(thread := Waiting)]) == Next(old(Model(remotes)), Finish(n))
    {
      ghost var was := own;
      SetState(n, s, INACTIVE);
      OneNode(remotes, was, n, remotes[n].(thread := Waiting), own[n]);
    }

    /** `reset_migration_info` without a destination: every marked block loses its key, address,
        bitmap and index, and the swap space its mapping if anything was marked. */
    method ResetMigrationInfo(n: nat, s: nat, marks: seq<bool>)
      requires Shaped(|own|) && n < |own| && s < |cbIndex| && Even(own[n], |marks|)
      modifies this`own, this`cbIndex
      ensures Shaped(old(|own|)) && own == old(own)[n := own[n]] && Cleared(old(own)[n], own[n], marks, |marks|)
      ensures cbIndex == if exists i :: 0 <= i < |marks| && marks[i] then old(cbIndex)[s := NO_CB_MAPPED]
                         else old(cbIndex)
    {
      for i := 0 to |marks|
        invariant |cbIndex| == old(|cbIndex|) && |own| == old(|own|) && own == old(own)[n := own[n]]
        invariant Cleared(old(own)[n], own[n], marks, i)
        invariant cbIndex == if exists k :: 0 <= k < i && marks[k] then old(cbIndex)[s := NO_CB_MAPPED]
                             else old(cbIndex)
      {
        if marks[i] {
          var mine := own[n];
          own := own[n := mine.(remote := mine.remote[i := NO_MR], bits := mine.bits[i := {}],
                                rbIdx := mine.rbIdx[i := -1])];
          cbIndex := cbIndex[s := NO_CB_MAPPED];
        }
      }
    }

    /** Clearing the marked block, and the record of the thread's swap space, is the step `Reset`. */
    method ResetEvicted(n: nat, marks: seq<bool>, s: nat, ghost remotes: seq<Node>)
      requires Shaped(|remotes|) && n < |remotes| && remotes[n].thread.Woken? && remotes[n].thread.s == s
      requires Enabled(Model(remotes), Reset(n)) && |marks| == |remotes[n].table.blocks|
      requires forall k :: 0 <= k < |marks| ==> (marks[k] <==> remotes[n].mark == Some(k))
      modifies this`own, this`cbIndex
      ensures Shaped(|remotes|)
      ensures Model(remotes[n := ResetNode(old(Model(remotes)).nodes[n])]) == Next(old(Model(remotes)), Reset(n))
    {
      ghost var st, was := Model(remotes), own;
      ResetMigrationInfo(n, s, marks);
      ClearedIsReset(st.nodes[n], was[n], own[n], marks);
      OneNode(remotes, was, n, ResetNode(st.nodes[n]), own[n]);
      if remotes[n].mark.Some? {
        assert marks[remotes[n].mark.value];
      }
    }
  }

  /** The first `n` blocks have been looked at, and the marked ones cleared. */
  ghost predicate Cleared(was: Own, now: Own, marks: seq<bool>, n: nat) {
    && Even(was, |marks|) && Even(now, |marks|) && now.cbState == was.cbState && now.rbState == was.rbState
    && forall i :: 0 <= i < |marks| ==>
         if i < n && marks[i] then now.remote[i] == NO_MR && now.bits[i] == {} && now.rbIdx[i] == -1
         else now.remote[i] == was.remote[i] && now.bits[i] == was.bits[i] && now.rbIdx[i] == was.rbIdx[i]
  }

  lemma ClearedIsReset(node: Node, was: Own, now: Own, marks: seq<bool>)
    requires node == NodeOf(node, was) && node.thread.Woken? && Agreement.Sized(node)
    requires Cleared(was, now, marks, |marks|)
    requires |marks| == |node.rbIdx| && (node.mark.Some? ==> node.mark.value < |marks|)
    requires forall k :: 0 <= k < |marks| ==> (marks[k] <==> node.mark == Some(k))
    ensures NodeOf(ResetNode(node), now) == ResetNode(node)
  {
    var reset := ResetNode(node);
    assert now.remote == reset.remote && now.bits == reset.bits && now.rbIdx == reset.rbIdx;
  }
}
