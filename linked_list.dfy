/** The singly linked, address-keyed list of linked_list.c: nodes carry a
    key, a payload and a `next` link; the list is reached through a cell
    holding the head pointer (the `list_node_t **head` argument). */
module LinkedList {
  import opened AssocList

  /** A list_node_t. */
  class Node<V> {
    var key: Ptr
    var val: V
    var next: Node?<V>

    /** A freshly allocated node with its link cleared, as the profiler's
        zero-filled allocation gives it. */
    constructor (key: Ptr, val: V)
      ensures this.key == key && this.val == val && next == null
    {
      this.key := key;
      this.val := val;
      next := null;
    }
  }

  /** No element occurs twice. */
  ghost predicate Distinct<T>(s: seq<T>)
  {
    forall i, j :: 0 <= i < j < |s| ==> s[i] != s[j]
  }

  /** Each node of `nodes` links to the next one and the last links to null;
      `first` is the first node (null for no nodes). */
  ghost predicate Linked<V>(first: Node?<V>, nodes: seq<Node<V>>)
    reads nodes
  {
    && first == (if nodes == [] then null else nodes[0])
    && forall i {:trigger nodes[i].next} :: 0 <= i < |nodes| ==>
         nodes[i].next == (if i + 1 < |nodes| then nodes[i + 1] else null)
  }

  /** `nodes` is the chain that starts at `first`, with no node twice. */
  ghost predicate Chain<V>(first: Node?<V>, nodes: seq<Node<V>>)
    reads nodes
  {
    Distinct(nodes) && Linked(first, nodes)
  }

  /** The (key, val) pairs of a chain, head first. */
  ghost function Entries<V>(nodes: seq<Node<V>>): seq<(Ptr, V)>
    reads nodes
  {
    seq(|nodes|, i reads nodes requires 0 <= i < |nodes| => (nodes[i].key, nodes[i].val))
  }

  /** The memory cell holding a list's head pointer. */
  class ListHead<V> {
    var first: Node?<V>
    ghost var nodes: seq<Node<V>>

    /** An empty list: the head pointer is NULL. */
    constructor ()
      ensures Valid() && nodes == [] && Contents() == []
    {
      first := null;
      nodes := [];
    }

    ghost predicate Valid()
      reads this, nodes
    {
      Chain(first, nodes)
    }

    ghost function Contents(): seq<(Ptr, V)>
      reads this, nodes
    {
      Entries(nodes)
    }
  }

  /** A node that links to the head of a chain, and is not in it, heads a
      chain one longer. */
  lemma ChainPrepend<V>(node: Node<V>, first: Node?<V>, nodes: seq<Node<V>>)
    requires Chain(first, nodes) && node !in nodes && node.next == first
    ensures Chain(node, [node] + nodes)
  {
    var r := [node] + nodes;
    forall i | 0 <= i < |r|
      ensures r[i].next == (if i + 1 < |r| then r[i + 1] else null)
    {
      if i > 0 {
        assert r[i] == nodes[i - 1];
      }
    }
  }

  /** Once the head cell moves past its first node, the rest is a chain. */
  lemma ChainTail<V>(first: Node?<V>, nodes: seq<Node<V>>)
    requires Chain(first, nodes) && nodes != []
    ensures Chain(nodes[0].next, nodes[1..])
  {
  }

  /** Dropping one element keeps the others distinct. */
  lemma DistinctRemoveAt<T>(s: seq<T>, i: nat)
    requires Distinct(s) && i < |s|
    ensures Distinct(s[..i] + s[i + 1..])
  {
    var r := s[..i] + s[i + 1..];
    forall j, k | 0 <= j < k < |r|
      ensures r[j] != r[k]
    {
      var j' := if j < i then j else j + 1;
      var k' := if k < i then k else k + 1;
      assert r[j] == s[j'] && r[k] == s[k'] && j' < k';
    }
  }

  /** Linking node i - 1 to node i + 1 leaves the chain without node i. */
  lemma LinkedSplice<V>(first: Node?<V>, nodes: seq<Node<V>>, i: nat)
    requires 0 < i < |nodes|
    requires first == nodes[0]
    requires forall k {:trigger nodes[k].next} :: 0 <= k < |nodes| && k != i - 1 ==>
               nodes[k].next == (if k + 1 < |nodes| then nodes[k + 1] else null)
    requires nodes[i - 1].next == (if i + 1 < |nodes| then nodes[i + 1] else null)
    ensures Linked(first, nodes[..i] + nodes[i + 1..])
  {
    var r := nodes[..i] + nodes[i + 1..];
    forall k | 0 <= k < |r|
      ensures r[k].next == (if k + 1 < |r| then r[k + 1] else null)
    {
      if k < i - 1 {
        assert r[k] == nodes[k] && r[k + 1] == nodes[k + 1];
      } else if k == i - 1 {
        assert r[k] == nodes[i - 1];
        assert k + 1 < |r| ==> r[k + 1] == nodes[i + 1];
      } else {
        assert r[k] == nodes[k + 1];
        assert k + 1 < |r| ==> r[k + 1] == nodes[k + 2];
      }
    }
  }

  /** Dropping a node drops its entry. */
  lemma EntriesRemoveAt<V>(nodes: seq<Node<V>>, i: nat)
    requires i < |nodes|
    ensures Entries(nodes[..i] + nodes[i + 1..]) == RemoveAt(Entries(nodes), i)
  {
    var r := nodes[..i] + nodes[i + 1..];
    assert forall k :: 0 <= k < |r| ==> r[k] == if k < i then nodes[k] else nodes[k + 1];
  }

  /** Entries depends only on the keys and payloads of the nodes, not on
      their links. */
  twostate lemma EntriesFrame<V>(nodes: seq<Node<V>>)
    requires forall n :: n in nodes ==> n.key == old(n.key) && n.val == old(n.val)
    ensures Entries(nodes) == old(Entries(nodes))
  {
  }

  /** The objects a delete may touch: the head cell and the nodes. */
  ghost function Footprint<V>(head: ListHead?<V>): set<object>
    reads head
  {
    if head == null then {} else {head as object} + set n: object | n in head.nodes
  }

  /** list_insert: a NULL head cell is ignored; otherwise `node` becomes the
      new head and links to the old one. */
  method ListInsert<V>(head: ListHead?<V>, node: Node<V>)
    requires head != null ==> head.Valid() && node !in head.nodes
    modifies head, node
    ensures head == null ==> unchanged(node)
    ensures node.key == old(node.key) && node.val == old(node.val)
    ensures head != null ==> head.Valid() && head.first == node
    ensures head != null ==> head.nodes == [node] + old(head.nodes)
    ensures head != null ==> head.Contents() == [(node.key, node.val)] + old(head.Contents())
  {
    if head == null {
      return;
    }
    ghost var ns := head.nodes;
    node.next := head.first;
    ChainPrepend(node, head.first, ns);
    head.first := node;
    head.nodes := [node] + ns;
  }

  /** The splice `prev->next = current->next` of list_delete, where `prev`
      is node i - 1 and `current` node i. */
  method Unlink<V>(head: ListHead<V>, prev: Node<V>, current: Node<V>, ghost i: nat)
    requires head.Valid() && 0 < i < |head.nodes|
    requires prev == head.nodes[i - 1] && current == head.nodes[i]
    modifies head, prev
    ensures head.Valid() && head.first == old(head.first)
    ensures head.nodes == old(head.nodes[..i] + head.nodes[i + 1..])
    ensures head.Contents() == RemoveAt(old(head.Contents()), i)
    ensures unchanged(current)
  {
    ghost var ns := head.nodes;
    ghost var rest := ns[..i] + ns[i + 1..];
    ghost var target := RemoveAt(Entries(ns), i);
    assert ns[i - 1] != ns[i];
    assert Distinct(rest) by { DistinctRemoveAt(ns, i); }
    assert Entries(rest) == target by { EntriesRemoveAt(ns, i); }
    prev.next := current.next;
    assert Entries(rest) == target by { EntriesFrame(rest); }
    assert Linked(head.first, rest) by { LinkedSplice(head.first, ns, i); }
    head.nodes := rest;
  }

  /** The head case `*head = current->next` of list_delete, where `current`
      is the first node. */
  method UnlinkHead<V>(head: ListHead<V>, current: Node<V>)
    requires head.Valid() && head.nodes != [] && current == head.nodes[0]
    modifies head
    ensures head.Valid() && head.first == current.next
    ensures head.nodes == old(head.nodes[1..])
    ensures head.Contents() == RemoveAt(old(head.Contents()), 0)
  {
    ghost var ns := head.nodes;
    ChainTail(current, ns);
    head.first := current.next;
    head.nodes := ns[1..];
    EntriesRemoveAt(ns, 0);
    assert ns[..0] + ns[1..] == ns[1..];
  }

  /** list_delete: unlinks and returns the first node whose key is `key`,
      or returns null (and changes nothing) when there is none. */
  method ListDelete<V>(head: ListHead?<V>, key: Ptr) returns (r: Node?<V>)
    requires head != null ==> head.Valid()
    modifies Footprint(head)
    ensures head == null ==> r == null
    ensures head != null ==> head.Valid()
    ensures head != null ==> (r != null <==> HasKey(old(head.Contents()), key))
    ensures head != null ==>
              var i := FirstIndex(old(head.Contents()), key);
              && r == (if i < |old(head.nodes)| then old(head.nodes)[i] else null)
              && head.nodes == RemoveAt(old(head.nodes), i)
    ensures head != null ==> head.Contents() == Remove(old(head.Contents()), key)
    ensures r != null ==> r.key == key && r.val == old(r.val) && r.next == old(r.next)
  {
    if head == null {
      return null;
    }
    ghost var entries := head.Contents();
    ghost var ns := head.nodes;
    var current := head.first;
    assert Chain(current, ns);
    if current != null && current.key == key {
      // special case for head
      UnlinkHead(head, current);
      assert FirstIndex(entries, key) == 0;
    } else {
      var prev: Node?<V> := null;
      ghost var i := 0;
      while current != null && current.key != key
        invariant 0 <= i <= |ns|
        invariant current == if i < |ns| then ns[i] else null
        invariant prev == if i == 0 then null else ns[i - 1]
        invariant ns != [] ==> ns[0].key != key
        invariant forall j :: 0 <= j < i ==> ns[j].key != key
        decreases |ns| - i
      {
        prev := current;
        current := current.next;
        i := i + 1;
      }
      FirstIndexAt(entries, key, i);
      if current != null {
        Unlink(head, prev, current, i);
        assert head.Contents() == Remove(entries, key);
      } else {
        assert head.Contents() == Remove(entries, key);
      }
    }
    r := current;
  }

  /** list_find: a read-only scan from `head`; returns the first node whose
      key is `key` (the holder of the val the C code returns the address of),
      or null. */
  method ListFind<V>(head: Node?<V>, key: Ptr, ghost nodes: seq<Node<V>>) returns (r: Node?<V>)
    requires Chain(head, nodes)
    ensures var i := FirstIndex(Entries(nodes), key);
            r == if i < |nodes| then nodes[i] else null
    ensures r != null <==> HasKey(Entries(nodes), key)
    ensures r != null ==> r.key == key && Lookup(Entries(nodes), key) == Some(r.val)
  {
    var current := head;
    ghost var i := 0;
    while current != null && current.key != key
      invariant 0 <= i <= |nodes|
      invariant current == if i < |nodes| then nodes[i] else null
      invariant forall j :: 0 <= j < i ==> nodes[j].key != key
      decreases |nodes| - i
    {
      current := current.next;
      i := i + 1;
    }
    FirstIndexAt(Entries(nodes), key, i);
    r := current;
  }
}
