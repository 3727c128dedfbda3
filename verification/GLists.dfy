/** GLib's doubly linked lists of strings, as nodes on the heap. */
module GLists {

  class Node {
    const data: string
    var next: Node?
    var prev: Node?

    constructor (data: string)
      ensures this.data == data && next == null && prev == null
    {
      this.data, next, prev := data, null, null;
    }
  }

  function Data(nodes: seq<Node>): (r: seq<string>)
    ensures |r| == |nodes| && forall i :: 0 <= i < |nodes| ==> r[i] == nodes[i].data
  {
    seq(|nodes|, i requires 0 <= i < |nodes| => nodes[i].data)
  }

  ghost predicate Distinct(nodes: seq<Node>) {
    forall i, j :: 0 <= i < j < |nodes| ==> nodes[i] != nodes[j]
  }

  ghost function At(nodes: seq<Node>, i: int): Node? {
    if 0 <= i < |nodes| then nodes[i] else null
  }

  /** The next pointers run through the nodes and end. */
  ghost predicate Chain(nodes: seq<Node>)
    reads nodes
  {
    Distinct(nodes) && forall i :: 0 <= i < |nodes| ==> nodes[i].next == At(nodes, i + 1)
  }

  /** A well-formed doubly linked list. */
  ghost predicate Linked(nodes: seq<Node>)
    reads nodes
  {
    Chain(nodes) && forall i :: 0 <= i < |nodes| ==> nodes[i].prev == At(nodes, i - 1)
  }

  lemma RestIsChain(nodes: seq<Node>, k: nat)
    requires Chain(nodes) && k <= |nodes|
    ensures Chain(nodes[k..])
  {
  }

  lemma LinkedIsChain(nodes: seq<Node>)
    requires Linked(nodes)
    ensures Chain(nodes) && Distinct(nodes)
    ensures forall i :: 0 <= i < |nodes| ==> nodes[i].next == At(nodes, i + 1)
  {
  }

  lemma LinkedIsDistinct(nodes: seq<Node>)
    requires Linked(nodes)
    ensures Distinct(nodes)
  {
  }

  /** A list whose links have not changed is as well-formed as before. */
  twostate lemma StillLinked(nodes: seq<Node>)
    requires old(Linked(nodes))
    requires forall i :: 0 <= i < |nodes| ==> nodes[i].next == old(nodes[i].next) && nodes[i].prev == old(nodes[i].prev)
    ensures Linked(nodes)
  {
  }

  lemma DataSnoc(nodes: seq<Node>, node: Node)
    ensures Data(nodes + [node]) == Data(nodes) + [node.data]
  {
  }

  /** A new last node. */
  method AppendNode(data: string, last: Node?, ghost nodes: seq<Node>) returns (node: Node)
    requires Linked(nodes) && last == At(nodes, |nodes| - 1)
    modifies nodes
    ensures fresh(node) && node.data == data && Linked(nodes + [node])
  {
    node := new Node(data);
    node.prev := last;
    if last != null {
      last.next := node;
    }
    ghost var all := nodes + [node];
    assert forall i :: 0 <= i < |nodes| ==> all[i] == nodes[i] && all[i] != node;
    assert forall i :: 0 <= i < |nodes| - 1 ==> nodes[i].next == nodes[i + 1];
    forall i | 0 <= i < |all| ensures all[i].next == At(all, i + 1) && all[i].prev == At(all, i - 1) {
      if i < |nodes| {
        assert all[i] == nodes[i];
      }
    }
  }

  /** g_list_copy. */
  method GListCopy(list: Node?, ghost nodes: seq<Node>) returns (copy: Node?, ghost copies: seq<Node>)
    requires Chain(nodes) && list == At(nodes, 0)
    ensures fresh(copies) && Linked(copies) && copy == At(copies, 0)
    ensures Data(copies) == Data(nodes)
  {
    hide Data, Linked, Distinct, Chain;
    EmptyLinked();
    copy, copies := null, [];
    var scan := list;
    var last: Node? := null;
    while scan != null
      invariant |copies| <= |nodes| && scan == At(nodes, |copies|)
      invariant fresh(copies) && Linked(copies) && copy == At(copies, 0) && last == At(copies, |copies| - 1)
      invariant Data(copies) == Data(nodes)[..|copies|]
      invariant Chain(nodes)
      decreases |nodes| - |copies|
    {
      ChainAt(nodes, |copies|);
      var node := AppendNode(scan.data, last, copies);
      DataSnoc(copies, node);
      if last == null {
        copy := node;
      }
      copies := copies + [node];
      last := node;
      scan := scan.next;
    }
    assert Data(nodes)[..|copies|] == Data(nodes);
  }

  lemma ChainAt(nodes: seq<Node>, i: nat)
    requires Chain(nodes) && i < |nodes|
    ensures nodes[i].next == At(nodes, i + 1)
  {
  }

  lemma EmptyLinked()
    ensures Linked([])
  {
  }

  ghost function Without(nodes: seq<Node>, i: nat): seq<Node>
    requires i < |nodes|
  {
    nodes[..i] + nodes[i + 1..]
  }

  lemma WithoutIsLinked(nodes: seq<Node>, i: nat)
    requires i < |nodes| && Distinct(nodes)
    requires forall k :: 0 <= k < |nodes| && k != i ==>
               nodes[k].next == (if k + 1 == i then At(nodes, i + 1) else At(nodes, k + 1))
               && nodes[k].prev == (if k == i + 1 then At(nodes, i - 1) else At(nodes, k - 1))
    ensures Linked(Without(nodes, i))
  {
    var w := Without(nodes, i);
    forall k | 0 <= k < |w| ensures w[k].next == At(w, k + 1) && w[k].prev == At(w, k - 1) {
      assert w[k] == if k < i then nodes[k] else nodes[k + 1];
    }
  }

  /** g_list_remove_link: the list goes on without the node, which keeps no links. */
  method GListRemoveLink(list: Node?, link: Node, ghost nodes: seq<Node>, ghost i: nat) returns (rest: Node?)
    requires Linked(nodes) && i < |nodes| && list == At(nodes, 0) && link == nodes[i]
    modifies nodes
    ensures Linked(Without(nodes, i)) && rest == At(Without(nodes, i), 0)
    ensures link.next == null && link.prev == null
  {
    hide Data;
    if link.prev != null {
      link.prev.next := link.next;
    }
    if link.next != null {
      link.next.prev := link.prev;
    }
    rest := if link == list then list.next else list;
    link.next := null;
    link.prev := null;
    WithoutIsLinked(nodes, i);
  }
}
