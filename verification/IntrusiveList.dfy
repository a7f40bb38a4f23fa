/** The circular doubly linked list of the TEE client header: links are rewritten in place,
    a sentinel node closes the ring, and removed nodes are poisoned. `Ring` says which
    sequence of nodes a sentinel stands for. */
module IntrusiveList {

  datatype Link = PoisonNext | PoisonPrev | To(node: Node)

  class Node {
    var next: Link
    var prev: Link
  }

  /** The sentinel at both ends of its list, and the listed nodes between. */
  ghost function At(head: Node, nodes: seq<Node>, i: int): Node
    requires -1 <= i <= |nodes|
  {
    if i == -1 || i == |nodes| then head else nodes[i]
  }

  ghost function Span(head: Node, nodes: seq<Node>): set<Node> {
    {head} + set node | node in nodes
  }

  ghost predicate Distinct(head: Node, nodes: seq<Node>) {
    && head !in nodes
    && (forall i, j :: 0 <= i < j < |nodes| ==> nodes[i] != nodes[j])
  }

  /** Following `next` from the sentinel visits exactly `nodes` and comes back, and `prev`
      inverts `next` everywhere. */
  ghost predicate Ring(head: Node, nodes: seq<Node>)
    reads Span(head, nodes)
  {
    && Distinct(head, nodes)
    && (forall i {:trigger At(head, nodes, i).next} :: -1 <= i < |nodes| ==>
          At(head, nodes, i).next == To(At(head, nodes, i + 1)))
    && (forall i {:trigger At(head, nodes, i).prev} :: 0 <= i <= |nodes| ==>
          At(head, nodes, i).prev == To(At(head, nodes, i - 1)))
  }

  ghost predicate Poisoned(node: Node)
    reads node
  {
    node.next == PoisonNext && node.prev == PoisonPrev
  }

  method InitListHead(head: Node)
    modifies head
    ensures Ring(head, [])
  {
    head.next := To(head);
    head.prev := To(head);
  }

  /** `__list_add` */
  method AddBetween(prev: Node, next: Node, node: Node)
    requires node != prev && node != next
    modifies prev`next, next`prev, node
    ensures node.prev == To(prev) && node.next == To(next)
    ensures prev.next == To(node) && next.prev == To(node)
  {
    node.prev := To(prev);
    node.next := To(next);
    prev.next := To(node);
    next.prev := To(node);
  }

  ghost function InsertAt(nodes: seq<Node>, i: int, node: Node): seq<Node>
    requires 0 <= i <= |nodes|
  {
    nodes[..i] + [node] + nodes[i..]
  }

  /** `list_add`: after any node of the ring; after the sentinel it is a front insert. */
  method ListAdd(at: Node, node: Node, ghost head: Node, ghost nodes: seq<Node>, ghost i: int)
    requires Ring(head, nodes) && node != head && node !in nodes
    requires -1 <= i < |nodes| && at == At(head, nodes, i)
    modifies Span(head, nodes), node
    ensures Ring(head, InsertAt(nodes, i + 1, node))
  {
    AddBetween(at, at.next.node, node);
    ghost var nodes' := InsertAt(nodes, i + 1, node);
    assert forall k {:trigger At(head, nodes', k)} :: -1 <= k <= |nodes'| ==>
      At(head, nodes', k) == if k <= i then At(head, nodes, k)
                             else if k == i + 1 then node else At(head, nodes, k - 1);
  }

  /** `list_add_tail`: before any node of the ring; before the sentinel it appends. */
  method ListAddTail(tnode: Node, node: Node, ghost head: Node, ghost nodes: seq<Node>, ghost i: int)
    requires Ring(head, nodes) && node != head && node !in nodes
    requires 0 <= i <= |nodes| && tnode == At(head, nodes, i)
    modifies Span(head, nodes), node
    ensures Ring(head, InsertAt(nodes, i, node))
  {
    AddBetween(tnode.prev.node, tnode, node);
    ghost var nodes' := InsertAt(nodes, i, node);
    assert forall k {:trigger At(head, nodes', k)} :: -1 <= k <= |nodes'| ==>
      At(head, nodes', k) == if k < i then At(head, nodes, k)
                             else if k == i then node else At(head, nodes, k - 1);
  }

  /** `__list_del` */
  method Unlink(node: Node, prev: Node, next: Node)
    modifies prev`next, next`prev, node
    ensures node.next == PoisonNext && node.prev == PoisonPrev
    ensures prev != node ==> prev.next == old(node.next)
    ensures next != node ==> next.prev == old(node.prev)
  {
    prev.next := node.next;
    next.prev := node.prev;
    node.next := PoisonNext;
    node.prev := PoisonPrev;
  }

  ghost function RemoveAt(nodes: seq<Node>, i: int): seq<Node>
    requires 0 <= i < |nodes|
  {
    nodes[..i] + nodes[i + 1..]
  }

  lemma RemoveAtEnds(nodes: seq<Node>)
    requires nodes != []
    ensures RemoveAt(nodes, 0) == nodes[1..]
    ensures RemoveAt(nodes, |nodes| - 1) == nodes[..|nodes| - 1]
  {
  }

  /** The links on both sides of place `i` of a ring. */
  lemma LinksAt(head: Node, nodes: seq<Node>, i: int)
    requires Ring(head, nodes) && 0 <= i <= |nodes|
    ensures At(head, nodes, i - 1).next == To(At(head, nodes, i))
    ensures At(head, nodes, i).prev == To(At(head, nodes, i - 1))
  {
  }

  /** `list_del` of any listed node. On an empty ring it can only be the sentinel that is deleted,
      and then it is poisoned. */
  method ListDel(node: Node, ghost head: Node, ghost nodes: seq<Node>, ghost i: int)
    requires Ring(head, nodes)
    requires if nodes == [] then node == head else 0 <= i < |nodes| && node == nodes[i]
    modifies Span(head, nodes)
    ensures nodes != [] ==> Ring(head, RemoveAt(nodes, i))
    ensures Poisoned(node)
  {
    LinksAt(head, nodes, if nodes == [] then 0 else i);
    LinksAt(head, nodes, if nodes == [] then 0 else i + 1);
    Unlink(node, node.prev.node, node.next.node);
    if nodes != [] {
      ghost var nodes' := RemoveAt(nodes, i);
      assert forall k {:trigger At(head, nodes', k)} :: -1 <= k <= |nodes'| ==>
        At(head, nodes', k) == if k < i then At(head, nodes, k) else At(head, nodes, k + 1);
    }
  }

  /** `list_pop` takes the first node. On an empty list it takes, and poisons, the sentinel. */
  method ListPop(head: Node, ghost nodes: seq<Node>) returns (node: Node)
    requires Ring(head, nodes)
    modifies Span(head, nodes)
    ensures node.next == PoisonNext && node.prev == PoisonPrev
    ensures nodes != [] ==> node == nodes[0] && Ring(head, nodes[1..])
    ensures nodes == [] ==> node == head
  {
    LinksAt(head, nodes, 0);
    node := head.next.node;
    ListDel(head.next.node, head, nodes, 0);
    if nodes != [] {
      RemoveAtEnds(nodes);
    }
  }

  /** `list_pop_tail` takes the last node, and has the same fault on an empty list. */
  method ListPopTail(head: Node, ghost nodes: seq<Node>) returns (node: Node)
    requires Ring(head, nodes)
    modifies Span(head, nodes)
    ensures node.next == PoisonNext && node.prev == PoisonPrev
    ensures nodes != [] ==> node == nodes[|nodes| - 1] && Ring(head, nodes[..|nodes| - 1])
    ensures nodes == [] ==> node == head
  {
    LinksAt(head, nodes, |nodes|);
    node := head.prev.node;
    ListDel(head.prev.node, head, nodes, |nodes| - 1);
    if nodes != [] {
      RemoveAtEnds(nodes);
    }
  }

  /** `list_empty` */
  method ListEmpty(head: Node, ghost nodes: seq<Node>) returns (empty: bool)
    requires Ring(head, nodes)
    ensures empty <==> nodes == []
  {
    LinksAt(head, nodes, 0);
    empty := head.next == To(head);
  }

  /** A ring stands for one sequence only. */
  lemma {:induction false} RingIsUnique(head: Node, nodes: seq<Node>, nodes': seq<Node>)
    requires Ring(head, nodes) && Ring(head, nodes')
    ensures nodes == nodes'
  {
    var n := if |nodes| < |nodes'| then |nodes| else |nodes'|;
    SamePrefix(head, nodes, nodes', n);
    assert At(head, nodes, n) == At(head, nodes', n);
  }

  lemma {:induction false} SamePrefix(head: Node, nodes: seq<Node>, nodes': seq<Node>, n: nat)
    requires Ring(head, nodes) && Ring(head, nodes') && n <= |nodes| && n <= |nodes'|
    ensures nodes[..n] == nodes'[..n]
    ensures At(head, nodes, n) == At(head, nodes', n)
  {
    if n > 0 {
      SamePrefix(head, nodes, nodes', n - 1);
      assert nodes[n - 1] == At(head, nodes, n - 1) == At(head, nodes', n - 1) == nodes'[n - 1];
    }
    assert At(head, nodes, n - 1).next == To(At(head, nodes, n));
    assert At(head, nodes', n - 1).next == To(At(head, nodes', n));
  }

  // ---------- iteration that tolerates removal ----------

  function Kept(nodes: seq<Node>, remove: Node -> bool): seq<Node> {
    if nodes == [] then []
    else (if remove(nodes[0]) then [] else [nodes[0]]) + Kept(nodes[1..], remove)
  }

  ghost function First(head: Node, rest: seq<Node>): Node {
    if rest == [] then head else rest[0]
  }

  /** `next` of the node before `rest` is the first of `rest`, or the sentinel. */
  lemma NextInRing(head: Node, kept: seq<Node>, rest: seq<Node>)
    requires Ring(head, kept + rest)
    ensures kept == [] ==> head.next == To(First(head, rest))
    ensures kept != [] ==> kept[|kept| - 1].next == To(First(head, rest))
    ensures rest == [] ==> head.next.To?
  {
    var all := kept + rest;
    LinksAt(head, all, |kept|);
    LinksAt(head, all, 0);
  }

  lemma {:induction false} KeptThenOne(s: seq<Node>, x: Node, remove: Node -> bool)
    ensures Kept(s + [x], remove) == if remove(x) then Kept(s, remove) else Kept(s, remove) + [x]
  {
    if s == [] {
      assert s + [x] == [x];
    } else {
      assert (s + [x])[1..] == s[1..] + [x] && (s + [x])[0] == s[0];
      KeptThenOne(s[1..], x, remove);
    }
  }

  lemma {:induction false} KeptIsTheRest(s: seq<Node>, remove: Node -> bool)
    ensures forall x :: x in Kept(s, remove) <==> x in s && !remove(x)
  {
    if s != [] {
      KeptIsTheRest(s[1..], remove);
    }
  }

  /** Entries already deleted are no longer part of the ring, so later steps leave them alone. */
  lemma DeletedAreOutside(head: Node, visited: seq<Node>, rest: seq<Node>, remove: Node -> bool)
    requires Distinct(head, visited + rest)
    ensures forall x :: x in visited && remove(x) ==> x != head && x !in Kept(visited, remove) && x !in rest
    ensures forall x :: x in Kept(visited, remove) || x in rest ==> x in visited + rest
  {
    KeptIsTheRest(visited, remove);
    forall x | x in visited ensures x !in rest && x != head {
      var i :| 0 <= i < |visited| && visited[i] == x;
      assert (visited + rest)[i] == x;
      assert forall j :: 0 <= j < |rest| ==> (visited + rest)[|visited| + j] == rest[j];
    }
  }

  lemma SecondInRing(head: Node, kept: seq<Node>, rest: seq<Node>)
    requires Ring(head, kept + rest)
    ensures First(head, rest).next.To?
    ensures rest != [] ==> rest[0].next == To(First(head, rest[1..]))
  {
    var all := kept + rest;
    assert At(head, all, |kept|) == First(head, rest);
    if rest == [] {
      NextInRing(head, kept, rest);
    } else {
      LinksAt(head, all, |kept| + 1);
    }
  }

  /** The iteration has reached `rest`: the kept entries and `rest` form the ring, and all
      deleted entries are poisoned. */
  ghost predicate Reached(head: Node, nodes: seq<Node>, visited: seq<Node>, rest: seq<Node>, remove: Node -> bool)
    reads Span(head, nodes)
  {
    && visited + rest == nodes
    && Span(head, Kept(visited, remove) + rest) <= Span(head, nodes)
    && Ring(head, Kept(visited, remove) + rest)
    && (forall node :: node in visited && remove(node) ==> Poisoned(node))
  }

  lemma FirstMovesOver(s: seq<Node>, rest: seq<Node>)
    requires rest != []
    ensures s + [rest[0]] + rest[1..] == s + rest
  {
  }

  lemma FirstIsRemoved(s: seq<Node>, rest: seq<Node>)
    requires rest != []
    ensures RemoveAt(s + rest, |s|) == s + rest[1..]
  {
  }

  /** On sequences: what visiting `rest[0]` makes of the ring's contents. */
  lemma VisitedOneMore(visited: seq<Node>, rest: seq<Node>, remove: Node -> bool)
    requires rest != []
    ensures var kept, kept' := Kept(visited, remove), Kept(visited + [rest[0]], remove);
            kept' + rest[1..] == if remove(rest[0]) then RemoveAt(kept + rest, |kept|) else kept + rest
    ensures visited + [rest[0]] + rest[1..] == visited + rest
  {
    KeptThenOne(visited, rest[0], remove);
    FirstMovesOver(visited, rest);
    FirstMovesOver(Kept(visited, remove), rest);
    FirstIsRemoved(Kept(visited, remove), rest);
  }

  /** The loop body: it may delete the current entry, `rest[0]`. */
  method Visit(pos: Node, remove: Node -> bool, ghost head: Node, ghost nodes: seq<Node>,
        ghost visited: seq<Node>, ghost rest: seq<Node>)
    requires Distinct(head, nodes) && Reached(head, nodes, visited, rest, remove)
    requires rest != [] && pos == rest[0]
    modifies Span(head, nodes)
    ensures Reached(head, nodes, visited + [pos], rest[1..], remove)
  {
    DeletedAreOutside(head, visited, rest, remove);
    VisitedOneMore(visited, rest, remove);
    if remove(pos) {
      ghost var kept := Kept(visited, remove);
      ListDel(pos, head, kept + rest, |kept|);
    }
  }

  lemma ReachedFromStart(head: Node, nodes: seq<Node>, remove: Node -> bool)
    requires Ring(head, nodes)
    ensures Reached(head, nodes, [], nodes, remove)
    ensures head.next == To(First(head, nodes))
  {
    assert [] + nodes == nodes;
    NextInRing(head, [], nodes);
  }

  lemma ReachedFromNext(head: Node, nodes: seq<Node>, visited: seq<Node>, rest: seq<Node>, remove: Node -> bool)
    requires Reached(head, nodes, visited, rest, remove)
    ensures First(head, rest).next.To?
    ensures rest != [] ==> rest[0].next == To(First(head, rest[1..]))
  {
    SecondInRing(head, Kept(visited, remove), rest);
  }

  lemma ReachedTheEnd(head: Node, nodes: seq<Node>, visited: seq<Node>, remove: Node -> bool)
    requires Reached(head, nodes, visited, [], remove)
    ensures visited == nodes && Ring(head, Kept(nodes, remove))
    ensures forall node :: node in nodes && remove(node) ==> Poisoned(node)
  {
    assert Kept(visited, remove) + [] == Kept(visited, remove);
    assert visited + [] == visited;
  }

  /** `list_for_each_entry_safe` around a body that may delete the current entry: every entry is
      visited once, in order, and exactly the others stay, in order. */
  method ForEachEntrySafe(head: Node, remove: Node -> bool, ghost nodes: seq<Node>)
    returns (visited: seq<Node>)
    requires Ring(head, nodes)
    modifies Span(head, nodes)
    ensures visited == nodes
    ensures Ring(head, Kept(nodes, remove))
    ensures forall node :: node in nodes && remove(node) ==> Poisoned(node)
  {
    visited := [];
    ghost var rest := nodes;
    ReachedFromStart(head, nodes, remove);
    ReachedFromNext(head, nodes, visited, rest, remove);
    var pos := head.next.node;
    var n := pos.next.node;
    while pos != head
      invariant Reached(head, nodes, visited, rest, remove)
      invariant pos == First(head, rest)
      invariant rest != [] ==> n == First(head, rest[1..])
      decreases |rest|
    {
      Visit(pos, remove, head, nodes, visited, rest);
      visited := visited + [pos];
      rest := rest[1..];
      pos := n;
      ReachedFromNext(head, nodes, visited, rest, remove);
      n := n.next.node;
    }
    ReachedTheEnd(head, nodes, visited, remove);
  }
}
