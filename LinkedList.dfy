/**
 * The list engine: a singly linked chain of `int` nodes that starts at a
 * caller-owned head node. The head counts as position 0, is never released
 * and its `data` is never written; every operation walks the chain from the
 * head until it meets the terminal node (the one without a successor).
 *
 * The chain is described by a ghost sequence of its nodes (`nodes[0]` is the
 * head). Every engine method takes that description and returns the
 * description of the chain it leaves behind.
 */
module LinkedList {

  /** linkedlist_std_ret_t */
  datatype Status = OpSuccess | OpFail

  /** unsigned short, the type of the engine's `node_index` parameter */
  newtype UShort = x: int | 0 <= x < 0x1_0000

  /** struct node_t */
  class Node {
    var data: int
    var next: Node?

    constructor (data: int)
      ensures this.data == data && next == null
    {
      this.data := data;
      next := null;
    }
  }

  /**
   * `nodes` is the chain reachable from `head`: it starts at the head, each
   * node links to the one after it and the last node has no successor.
   */
  ghost predicate IsChain(head: Node, nodes: seq<Node>)
    reads Elems(nodes)`next
  {
    && |nodes| >= 1
    && nodes[0] == head
    && (forall k :: 0 <= k < |nodes| - 1 ==> nodes[k].next == nodes[k + 1])
    && (forall k :: 0 <= k < |nodes| ==> (nodes[k].next == null <==> k == |nodes| - 1))
  }

  /**
   * A chain holds no node twice: were `nodes[j]` and `nodes[k]` the same
   * node, the two walks from them would stay in step and reach the end of
   * the chain at the same time, which they cannot, since one of them starts
   * later.
   */
  lemma {:induction false} NodesDistinct(head: Node, nodes: seq<Node>, j: nat, k: nat)
    requires IsChain(head, nodes) && j < k < |nodes|
    ensures nodes[j] != nodes[k]
    decreases |nodes| - k
  {
    if k == |nodes| - 1 {
      assert nodes[j].next == nodes[j + 1];
      assert nodes[k].next == null;
    } else {
      NodesDistinct(head, nodes, j + 1, k + 1);
      assert nodes[j].next == nodes[j + 1];
      assert nodes[k].next == nodes[k + 1];
    }
  }

  /** A node of a chain sits at one position only: no other position holds it. */
  lemma NodeUnique(head: Node, nodes: seq<Node>, i: nat)
    requires IsChain(head, nodes) && i < |nodes|
    ensures forall k :: 0 <= k < |nodes| && k != i ==> nodes[k] != nodes[i]
  {
    forall k | 0 <= k < |nodes| && k != i
      ensures nodes[k] != nodes[i]
    {
      if k < i {
        NodesDistinct(head, nodes, k, i);
      } else {
        NodesDistinct(head, nodes, i, k);
      }
    }
  }

  /**
   * The chain `nodes` holds the values `vals`, position by position (the
   * head's value first). Only the nodes' `data` fields matter, so relinking
   * nodes never disturbs it.
   */
  ghost predicate Holds(nodes: seq<Node>, vals: seq<int>)
    reads Elems(nodes)`data
  {
    && |vals| == |nodes|
    && (forall k :: 0 <= k < |nodes| ==> nodes[k].data == vals[k])
  }

  /** Splicing a node into a chain splices its value into the values held. */
  lemma HoldsSpliced(nodes: seq<Node>, vals: seq<int>, i: nat, x: Node)
    requires Holds(nodes, vals) && i <= |nodes|
    ensures Holds(nodes[..i] + [x] + nodes[i..], Spliced(vals, i, x.data))
  {
    var s := nodes[..i] + [x] + nodes[i..];
    forall k | 0 <= k < |s|
      ensures s[k].data == Spliced(vals, i, x.data)[k]
    {
      if k > i {
        assert s[k] == nodes[k - 1];
      }
    }
  }

  /** Unlinking the node at `i` removes its value from the values held. */
  lemma HoldsRemoved(nodes: seq<Node>, vals: seq<int>, i: nat)
    requires Holds(nodes, vals) && i < |nodes|
    ensures Holds(nodes[..i] + nodes[i + 1..], Removed(vals, i))
  {
    var s := nodes[..i] + nodes[i + 1..];
    forall k | 0 <= k < |s|
      ensures s[k].data == Removed(vals, i)[k]
    {
      if k >= i {
        assert s[k] == nodes[k + 1];
      }
    }
  }

  /**
   * Linking `x` between positions `i - 1` and `i` of a chain, every other
   * link left as it was, gives a chain with `x` at position `i`.
   */
  lemma SplicedChain(head: Node, nodes: seq<Node>, i: nat, x: Node)
    requires 1 <= i < |nodes| && nodes[0] == head && x !in nodes
    requires forall k :: 0 <= k < |nodes| - 1 && k != i - 1 ==> nodes[k].next == nodes[k + 1]
    requires nodes[|nodes| - 1].next == null
    requires nodes[i - 1].next == x && x.next == nodes[i]
    ensures IsChain(head, nodes[..i] + [x] + nodes[i..])
  {
    var s := nodes[..i] + [x] + nodes[i..];
    forall k | 0 <= k < |s| - 1
      ensures s[k].next == s[k + 1]
    {
      if k < i - 1 {
        assert s[k] == nodes[k] && s[k + 1] == nodes[k + 1];
      } else if k > i {
        assert s[k] == nodes[k - 1] && s[k + 1] == nodes[k];
      }
    }
    forall k | 0 <= k < |s|
      ensures s[k].next == null <==> k == |s| - 1
    {
      if k < |s| - 1 {
        assert s[k].next == s[k + 1];
      } else {
        assert s[k] == nodes[|nodes| - 1];
      }
    }
  }

  /** Splicing adds exactly the spliced node to a chain's objects. */
  lemma ElemsSpliced(nodes: seq<Node>, i: nat, x: Node)
    requires i <= |nodes|
    ensures Elems(nodes[..i] + [x] + nodes[i..]) == Elems(nodes) + {x}
  {
    assert nodes == nodes[..i] + nodes[i..];
  }

  /** The objects of a chain. */
  ghost function Elems(nodes: seq<Node>): set<Node>
  {
    set n | n in nodes
  }

  /** `v` placed at position `i`, the values from `i` on moved one place up. */
  function Spliced(s: seq<int>, i: nat, v: int): (r: seq<int>)
    requires i <= |s|
    ensures |r| == |s| + 1 && r[i] == v
    ensures forall j :: 0 <= j < i ==> r[j] == s[j]
    ensures forall j :: i < j < |r| ==> r[j] == s[j - 1]
  {
    s[..i] + [v] + s[i..]
  }

  /** The value at position `i` dropped, the later values moved one place down. */
  function Removed(s: seq<int>, i: nat): (r: seq<int>)
    requires i < |s|
    ensures |r| == |s| - 1
    ensures forall j :: 0 <= j < i ==> r[j] == s[j]
    ensures forall j :: i <= j < |r| ==> r[j] == s[j + 1]
  {
    s[..i] + s[i + 1..]
  }

  /** Removing the value spliced in at `i` gives the original values back. */
  lemma RemovedSpliced(s: seq<int>, i: nat, v: int)
    requires i <= |s|
    ensures Removed(Spliced(s, i, v), i) == s
  {
  }

  /** Splicing a removed value back in at its old position undoes the removal. */
  lemma SplicedRemoved(s: seq<int>, i: nat)
    requires i < |s|
    ensures Spliced(Removed(s, i), i, s[i]) == s
  {
  }

  /**
   * The positions at which insert_index splices and delete_index unlinks: the
   * node at `i - 1` must exist and have a successor, so position 0 (the head)
   * and the position one past the end are both refused.
   */
  predicate AfterHead(len: nat, i: int)
  {
    1 <= i <= len - 1
  }

  /**
   * The positions get_index reads: any position of the chain, but only when
   * the head has a successor (a head-only chain answers nothing, not even at 0).
   */
  predicate Readable(len: nat, i: int)
  {
    2 <= len && 0 <= i <= len - 1
  }

  /** linkedlist_insert_end: append `newData` after the terminal node. */
  method InsertEnd(head: Node, newData: int, allocOk: bool, ghost nodes: seq<Node>, ghost vals: seq<int>)
    returns (ret: Status, ghost nodes': seq<Node>)
    requires IsChain(head, nodes) && Holds(nodes, vals)
    modifies Elems(nodes)`next
    ensures IsChain(head, nodes')
    ensures fresh(Elems(nodes') - Elems(nodes))
    ensures ret == (if allocOk then OpSuccess else OpFail)
    ensures ret == OpSuccess ==>
              && |nodes'| == |nodes| + 1
              && nodes'[..|nodes|] == nodes
              && fresh(nodes'[|nodes|])
              && Holds(nodes', vals + [newData])
    ensures ret == OpFail ==> nodes' == nodes && Holds(nodes', vals)
  {
    ret := OpFail;
    nodes' := nodes;
    if allocOk {
      var nodeNew := new Node(newData);
      var current := head;
      ghost var k := 0;
      while current.next != null
        invariant 0 <= k < |nodes| && current == nodes[k]
        decreases |nodes| - k
      {
        current := current.next;
        k := k + 1;
      }
      current.next := nodeNew;
      nodes' := nodes + [nodeNew];
      ret := OpSuccess;
    }
  }

  /** linkedlist_insert_index: splice `newData` in so that it sits at `nodeIndex`. */
  method InsertIndex(head: Node, nodeIndex: UShort, newData: int, ghost nodes: seq<Node>, ghost vals: seq<int>)
    returns (ret: Status, ghost nodes': seq<Node>)
    requires IsChain(head, nodes) && Holds(nodes, vals)
    modifies Elems(nodes)`next
    ensures IsChain(head, nodes')
    ensures fresh(Elems(nodes') - Elems(nodes))
    ensures ret == OpSuccess <==> AfterHead(|nodes|, nodeIndex as int)
    ensures ret == OpSuccess ==>
              && |nodes'| == |nodes| + 1
              && nodes' == nodes[..nodeIndex as int] + [nodes'[nodeIndex as int]] + nodes[nodeIndex as int..]
              && fresh(nodes'[nodeIndex as int])
              && Holds(nodes', Spliced(vals, nodeIndex as nat, newData))
    ensures ret == OpFail ==> nodes' == nodes && Holds(nodes', vals)
  {
    ret := OpFail;
    nodes' := nodes;
    var current := head;
    // the node is allocated (and its data written) before the walk, whatever its outcome
    var nodeNew := new Node(newData);
    var loopCntr := 0;
    while current.next != null
      invariant 0 <= loopCntr < |nodes| && current == nodes[loopCntr]
      invariant IsChain(head, nodes) && ret == OpFail && nodes' == nodes
      invariant nodeIndex as int - 1 < 0 || loopCntr <= nodeIndex as int - 1
      decreases |nodes| - loopCntr
    {
      if loopCntr == nodeIndex as int - 1 {
        NodeUnique(head, nodes, loopCntr);
        nodeNew.next := current.next;
        current.next := nodeNew;
        ret := OpSuccess;
        nodes' := nodes[..nodeIndex as int] + [nodeNew] + nodes[nodeIndex as int..];
        SplicedChain(head, nodes, nodeIndex as nat, nodeNew);
        HoldsSpliced(nodes, vals, nodeIndex as nat, nodeNew);
        ElemsSpliced(nodes, nodeIndex as nat, nodeNew);
        break;
      }
      current := current.next;
      loopCntr := loopCntr + 1;
    }
  }

  /** linkedlist_get_end: the value of the terminal node (the head's when it stands alone). */
  method GetEnd(head: Node, ghost nodes: seq<Node>, ghost vals: seq<int>) returns (ret: Status, currentData: int)
    requires IsChain(head, nodes) && Holds(nodes, vals)
    ensures ret == OpSuccess
    ensures currentData == vals[|vals| - 1]
  {
    var current := head;
    ghost var k := 0;
    while current.next != null
      invariant 0 <= k < |nodes| && current == nodes[k]
      decreases |nodes| - k
    {
      current := current.next;
      k := k + 1;
    }
    currentData := current.data;
    ret := OpSuccess;
  }

  /**
   * linkedlist_get_index: the value at `nodeIndex`. `data0` is what the
   * caller's out-variable held before; on failure it is left as it was.
   */
  method GetIndex(head: Node, nodeIndex: UShort, data0: int, ghost nodes: seq<Node>, ghost vals: seq<int>)
    returns (ret: Status, data: int)
    requires IsChain(head, nodes) && Holds(nodes, vals)
    ensures ret == OpSuccess <==> Readable(|nodes|, nodeIndex as int)
    ensures data == if ret == OpSuccess then vals[nodeIndex as int] else data0
  {
    ret := OpFail;
    data := data0;
    var current := head;
    var loopCntr := 0;
    while current.next != null
      invariant 0 <= loopCntr < |nodes| && current == nodes[loopCntr]
      invariant loopCntr == 0 || loopCntr < nodeIndex as int
      invariant ret == OpFail && data == data0
      decreases |nodes| - loopCntr
    {
      if loopCntr == nodeIndex as int {
        data := current.data;
        ret := OpSuccess;
        break;
      }
      current := current.next;
      loopCntr := loopCntr + 1;
      if loopCntr == nodeIndex as int {
        data := current.data;
        ret := OpSuccess;
        break;
      }
    }
  }

  /**
   * linkedlist_delete_end: unlink the terminal node, unless the head stands
   * alone. `freed` is the set of nodes handed back to the allocator: the
   * source frees the terminal node's (null) successor instead of the node.
   */
  method DeleteEnd(head: Node, ghost nodes: seq<Node>, ghost vals: seq<int>)
    returns (ret: Status, ghost nodes': seq<Node>, ghost freed: set<Node>)
    requires IsChain(head, nodes) && Holds(nodes, vals)
    modifies Elems(nodes)`next
    ensures IsChain(head, nodes') && Elems(nodes') <= Elems(nodes)
    ensures ret == OpSuccess <==> |nodes| >= 2
    ensures ret == OpSuccess ==>
              && nodes' == nodes[..|nodes| - 1]
              && Holds(nodes', vals[..|vals| - 1])
    ensures ret == OpFail ==> nodes' == nodes && Holds(nodes', vals)
    ensures freed == {}
  {
    ret := OpFail;
    nodes' := nodes;
    freed := {};
    var current := head;
    var toDelete: Node? := null;
    if head.next != null {
      ghost var k := 0;
      while current.next != null
        invariant 0 <= k < |nodes| && current == nodes[k]
        invariant if k == 0 then toDelete == null else toDelete == nodes[k - 1]
        decreases |nodes| - k
      {
        toDelete := current;
        current := current.next;
        k := k + 1;
      }
      // current is the terminal node and toDelete the one before it;
      // free(current->next) releases nothing, since that pointer is null
      NodeUnique(head, nodes, k - 1);
      toDelete.next := null;
      nodes' := nodes[..|nodes| - 1];
      ret := OpSuccess;
    }
  }

  /**
   * linkedlist_delete_index: unlink the node at `nodeIndex`; `freed` is the
   * node released afterwards (none on failure).
   */
  method DeleteIndex(head: Node, nodeIndex: UShort, ghost nodes: seq<Node>, ghost vals: seq<int>)
    returns (ret: Status, ghost nodes': seq<Node>, ghost freed: set<Node>)
    requires IsChain(head, nodes) && Holds(nodes, vals)
    modifies Elems(nodes)`next
    ensures IsChain(head, nodes') && Elems(nodes') <= Elems(nodes)
    ensures ret == OpSuccess <==> AfterHead(|nodes|, nodeIndex as int)
    ensures ret == OpSuccess ==>
              && nodes' == nodes[..nodeIndex as int] + nodes[nodeIndex as int + 1..]
              && freed == {nodes[nodeIndex as int]}
              && Holds(nodes', Removed(vals, nodeIndex as nat))
    ensures ret == OpFail ==> nodes' == nodes && Holds(nodes', vals) && freed == {}
  {
    ret := OpFail;
    nodes' := nodes;
    freed := {};
    var current := head;
    var toDelete: Node? := null;
    var loopCntr := 0;
    while current.next != null
      invariant 0 <= loopCntr < |nodes| && current == nodes[loopCntr]
      invariant IsChain(head, nodes) && ret == OpFail && nodes' == nodes && toDelete == null
      invariant nodeIndex as int - 1 < 0 || loopCntr <= nodeIndex as int - 1
      decreases |nodes| - loopCntr
    {
      if loopCntr == nodeIndex as int - 1 {
        toDelete := current.next;
        assert toDelete == nodes[loopCntr + 1];
        NodeUnique(head, nodes, loopCntr);
        ghost var after := toDelete.next;
        current.next := current.next.next;
        ret := OpSuccess;
        nodes' := nodes[..nodeIndex as int] + nodes[nodeIndex as int + 1..];
        assert after == null <==> loopCntr == |nodes'| - 1;
        HoldsRemoved(nodes, vals, nodeIndex as nat);
        break;
      }
      current := current.next;
      loopCntr := loopCntr + 1;
    }
    // free(node_to_delete), a no-op when it is still null
    if toDelete != null {
      freed := {toDelete};
    }
  }

  /**
   * linkedlist_delete_all: detach everything after the head, then walk the
   * detached part releasing each node (reading its successor first).
   * `freed` is the set of nodes that walk releases.
   */
  method DeleteAll(head: Node, ghost nodes: seq<Node>, ghost vals: seq<int>)
    returns (ret: Status, ghost nodes': seq<Node>, ghost freed: set<Node>)
    requires IsChain(head, nodes) && Holds(nodes, vals)
    modifies Elems(nodes)`next
    ensures IsChain(head, nodes') && Elems(nodes') <= Elems(nodes)
    ensures ret == OpSuccess <==> |nodes| >= 2
    ensures ret == OpSuccess ==> nodes' == [head] && Holds(nodes', [vals[0]])
    ensures ret == OpFail ==> nodes' == nodes && Holds(nodes', vals)
    ensures freed == Elems(nodes[1..])
  {
    ret := OpFail;
    nodes' := nodes;
    freed := {};
    if head.next != null {
      var current: Node? := head.next;
      NodeUnique(head, nodes, 0);
      head.next := null;
      ghost var k := 1;
      while current != null
        invariant 1 <= k <= |nodes|
        invariant if k < |nodes| then current == nodes[k] else current == null
        invariant forall j :: 1 <= j < |nodes| - 1 ==> nodes[j].next == nodes[j + 1]
        invariant nodes[|nodes| - 1].next == null
        invariant freed == Elems(nodes[1..k])
        decreases |nodes| - k
      {
        var nextNode := current.next;
        freed := freed + {current};
        current := nextNode;
        k := k + 1;
      }
      nodes' := [head];
      ret := OpSuccess;
    }
  }
}
