/** Any number of disjoint lists in one heap, and any sequence of operations on them. */
module ManyLists {
  import opened IntrusiveList

  /** Which sequence each sentinel stands for. */
  type Contents = map<Node, seq<Node>>

  /** `Add` puts `node` after `at` and `AddTail` before it; `at` is the sentinel or a listed node. */
  datatype Op =
    | Add(head: Node, at: Node, node: Node)
    | AddTail(head: Node, at: Node, node: Node)
    | Del(head: Node, node: Node)
    | Pop(head: Node)
    | PopTail(head: Node)

  ghost function Members(w: Contents): set<Node> {
    set head, node | head in w && node in Span(head, w[head]) :: node
  }

  /** No node is in two lists. */
  ghost predicate Apart(w: Contents) {
    forall h, h' :: h in w && h' in w && h != h' ==> Span(h, w[h]) !! Span(h', w[h'])
  }

  /** Every sentinel's ring is in the heap, and no node is in two of them. */
  ghost predicate Lists(w: Contents)
    reads Members(w)
  {
    && (forall head :: head in w ==> Ring(head, w[head]))
    && Apart(w)
  }

  function IndexOf(s: seq<Node>, node: Node): (i: nat)
    requires node in s
    ensures i < |s| && s[i] == node
  {
    if s[0] == node then 0 else 1 + IndexOf(s[1..], node)
  }

  /** Where a node goes that is put after, or before, `at`. */
  function PlaceAfter(s: seq<Node>, head: Node, at: Node): (i: nat)
    requires at == head || at in s
    ensures i <= |s|
  {
    if at == head then 0 else IndexOf(s, at) + 1
  }

  function PlaceBefore(s: seq<Node>, head: Node, at: Node): (i: nat)
    requires at == head || at in s
    ensures i <= |s|
  {
    if at == head then |s| else IndexOf(s, at)
  }

  /** What the callers of the header must see to: a node joins only when it is in no list and at a
      place of the list, a deleted node is in the list, and nothing is popped from an empty list. */
  ghost predicate Legal(w: Contents, op: Op) {
    && op.head in w
    && match op
       case Add(head, at, node) => node !in Members(w) && (at == head || at in w[head])
       case AddTail(head, at, node) => node !in Members(w) && (at == head || at in w[head])
       case Del(head, node) => node in w[head]
       case Pop(head) => w[head] != []
       case PopTail(head) => w[head] != []
  }

  ghost function Apply(w: Contents, op: Op): Contents
    requires Legal(w, op)
  {
    match op
    case Add(h, at, node) => w[h := InsertAt(w[h], PlaceAfter(w[h], h, at), node)]
    case AddTail(h, at, node) => w[h := InsertAt(w[h], PlaceBefore(w[h], h, at), node)]
    case Del(h, node) => w[h := RemoveAt(w[h], IndexOf(w[h], node))]
    case Pop(h) => w[h := w[h][1..]]
    case PopTail(h) => w[h := w[h][..|w[h]| - 1]]
  }

  /** The node an operation hands back, if any. */
  ghost function Output(w: Contents, op: Op): seq<Node>
    requires Legal(w, op)
  {
    match op
    case Pop(h) => [w[h][0]]
    case PopTail(h) => [w[h][|w[h]| - 1]]
    case _ => []
  }

  ghost function Joining(op: Op): set<Node> {
    if op.Add? || op.AddTail? then {op.node} else {}
  }

  ghost function Leaving(w: Contents, op: Op): set<Node>
    requires Legal(w, op)
  {
    match op
    case Del(_, node) => {node}
    case Pop(h) => {w[h][0]}
    case PopTail(h) => {w[h][|w[h]| - 1]}
    case _ => {}
  }

  lemma IndexOfFirst(s: seq<Node>, a: seq<Node>, at: Node, b: seq<Node>)
    requires s == a + [at] + b && at !in a
    ensures at in s && IndexOf(s, at) == |a|
  {
    if a != [] {
      assert s[1..] == a[1..] + [at] + b;
      IndexOfFirst(s[1..], a[1..], at, b);
    }
  }

  /** What the three operations that name a listed node do around it. */
  lemma AroundANode(w: Contents, h: Node, a: seq<Node>, at: Node, b: seq<Node>, node: Node)
    requires h in w && w[h] == a + [at] + b && at !in a && at != h && node !in Members(w)
    ensures Apply(w, Add(h, at, node)) == w[h := a + [at, node] + b]
    ensures Apply(w, AddTail(h, at, node)) == w[h := a + [node, at] + b]
    ensures Apply(w, Del(h, at)) == w[h := a + b]
  {
    IndexOfFirst(w[h], a, at, b);
    assert InsertAt(w[h], |a| + 1, node) == a + [at, node] + b;
    assert InsertAt(w[h], |a|, node) == a + [node, at] + b;
    assert RemoveAt(w[h], |a|) == a + b;
  }

  /** And what they do at the sentinel, with the two pops. */
  lemma AtTheSentinel(w: Contents, h: Node, node: Node)
    requires h in w && node !in Members(w)
    ensures Apply(w, Add(h, h, node)) == w[h := [node] + w[h]]
    ensures Apply(w, AddTail(h, h, node)) == w[h := w[h] + [node]]
  {
    AppendAndPush(w[h], node);
  }

  lemma SpanAfter(w: Contents, op: Op)
    requires Legal(w, op)
    ensures Span(op.head, Apply(w, op)[op.head]) <= Span(op.head, w[op.head]) + Joining(op)
    ensures Span(op.head, w[op.head]) <= Members(w)
    ensures Joining(op) !! Members(w)
  {
  }

  lemma MembersAfter(w: Contents, op: Op)
    requires Legal(w, op)
    ensures Members(Apply(w, op)) <= Members(w) + Joining(op)
  {
    var w' := Apply(w, op);
    SpanAfter(w, op);
    forall x | x in Members(w') ensures x in Members(w) + Joining(op) {
      var h :| h in w' && x in Span(h, w'[h]);
      assert h != op.head ==> w'[h] == w[h];
    }
  }

  /** A node that leaves a list of distinct nodes is in no list afterwards. */
  lemma LeavingIsGone(w: Contents, op: Op)
    requires Legal(w, op) && Apart(w) && Distinct(op.head, w[op.head])
    ensures Leaving(w, op) <= Span(op.head, w[op.head])
    ensures Leaving(w, op) !! Members(Apply(w, op))
  {
    var w', s := Apply(w, op), w[op.head];
    forall x | x in Leaving(w, op) ensures x in Span(op.head, s) && x !in Members(w') {
      forall h | h in w' ensures x !in Span(h, w'[h]) {
        if h == op.head {
          LeftOnce(s, w'[h], x, if op.Del? then IndexOf(s, x) else if op.Pop? then 0 else |s| - 1);
        }
      }
    }
  }

  lemma LeftOnce(s: seq<Node>, s': seq<Node>, x: Node, i: nat)
    requires i < |s| && s[i] == x && s' == RemoveAt(s, i)
    requires forall j, k :: 0 <= j < k < |s| ==> s[j] != s[k]
    ensures x in s && x !in s'
  {
  }

  /** The other lists share no node with the list an operation works on, before or after it. */
  lemma OthersAreApart(w: Contents, op: Op, h: Node)
    requires Legal(w, op) && Apart(w) && h in w && h != op.head
    ensures Apply(w, op)[h] == w[h]
    ensures Span(h, w[h]) !! Span(op.head, w[op.head]) + Joining(op)
    ensures Span(h, w[h]) !! Span(op.head, Apply(w, op)[op.head])
  {
    SpanAfter(w, op);
    assert Span(h, w[h]) <= Members(w);
  }

  lemma StayApart(w: Contents, op: Op)
    requires Legal(w, op) && Apart(w)
    ensures Apart(Apply(w, op))
  {
    var w' := Apply(w, op);
    forall h, h' | h in w' && h' in w' && h != h' ensures Span(h, w'[h]) !! Span(h', w'[h']) {
      if h == op.head {
        OthersAreApart(w, op, h');
      } else {
        OthersAreApart(w, op, h);
        if h' != op.head {
          OthersAreApart(w, op, h');
        }
      }
    }
  }

  /** An operation rewrites one ring, and may only touch that ring and the joining node. */
  method PerformOnRing(op: Op, ghost w: Contents) returns (out: seq<Node>)
    requires Legal(w, op) && Ring(op.head, w[op.head])
    modifies Span(op.head, w[op.head]), Joining(op)
    ensures Ring(op.head, Apply(w, op)[op.head])
    ensures out == Output(w, op)
    ensures forall node :: node in Leaving(w, op) ==> Poisoned(node)
  {
    ghost var s := w[op.head];
    SpanAfter(w, op);
    out := [];
    match op {
      case Add(head, at, node) =>
        ListAdd(at, node, head, s, PlaceAfter(s, head, at) - 1);
      case AddTail(head, at, node) =>
        ListAddTail(at, node, head, s, PlaceBefore(s, head, at));
      case Del(head, node) =>
        ListDel(node, head, s, IndexOf(s, node));
      case Pop(head) =>
        var node := ListPop(head, s);
        out := [node];
      case PopTail(head) =>
        var node := ListPopTail(head, s);
        out := [node];
    }
  }

  /** One operation on one list: that list becomes what `Apply` says, all others stay, still no node
      is in two lists, and a node that left is poisoned. */
  method Perform(op: Op, ghost w: Contents) returns (out: seq<Node>)
    requires Lists(w) && Legal(w, op)
    modifies Span(op.head, w[op.head]), Joining(op)
    ensures Lists(Apply(w, op))
    ensures out == Output(w, op)
    ensures forall node :: node in Leaving(w, op) ==> Poisoned(node)
  {
    forall h | h in w && h != op.head
      ensures Apply(w, op)[h] == w[h] && Span(h, w[h]) !! Span(op.head, w[op.head]) + Joining(op)
    {
      OthersAreApart(w, op, h);
    }
    StayApart(w, op);
    out := PerformOnRing(op, w);
  }

  // ---------- sequences of operations ----------

  ghost predicate LegalRun(w: Contents, ops: seq<Op>) {
    ops == [] || (Legal(w, ops[0]) && LegalRun(Apply(w, ops[0]), ops[1..]))
  }

  ghost function ApplyAll(w: Contents, ops: seq<Op>): Contents
    requires LegalRun(w, ops)
  {
    if ops == [] then w else ApplyAll(Apply(w, ops[0]), ops[1..])
  }

  /** Everything handed back by the operations on one list. */
  ghost function PoppedFrom(w: Contents, ops: seq<Op>, head: Node): seq<Node>
    requires LegalRun(w, ops)
  {
    if ops == [] then []
    else (if ops[0].head == head then Output(w, ops[0]) else [])
         + PoppedFrom(Apply(w, ops[0]), ops[1..], head)
  }

  ghost function AllJoining(ops: seq<Op>): set<Node> {
    if ops == [] then {} else Joining(ops[0]) + AllJoining(ops[1..])
  }

  /** The nodes that are loose after a sequence of operations, when `loose` were before it: those
      that have left a list and not joined one since. */
  ghost function LooseAfter(w: Contents, ops: seq<Op>, loose: set<Node>): set<Node>
    requires LegalRun(w, ops)
  {
    if ops == [] then loose
    else LooseAfter(Apply(w, ops[0]), ops[1..], loose - Joining(ops[0]) + Leaving(w, ops[0]))
  }

  ghost predicate AllPoisoned(loose: set<Node>)
    reads loose
  {
    forall node :: node in loose ==> Poisoned(node)
  }

  /** Any sequence of operations on any of the lists, at any of their places. `out` is what is
      popped from one of them; every node that is loose at the end is poisoned. */
  method PerformAll(ops: seq<Op>, ghost w: Contents, head: Node, ghost loose: set<Node>) returns (out: seq<Node>)
    requires Lists(w) && LegalRun(w, ops)
    requires AllPoisoned(loose) && loose !! Members(w)
    modifies Members(w), AllJoining(ops)
    ensures Lists(ApplyAll(w, ops))
    ensures out == PoppedFrom(w, ops, head)
    ensures AllPoisoned(LooseAfter(w, ops, loose))
  {
    out := [];
    if ops != [] {
      var op := ops[0];
      SpanAfter(w, op);
      MembersAfter(w, op);
      LeavingIsGone(w, op);
      ghost var loose' := loose - Joining(op) + Leaving(w, op);
      out := Perform(op, w);
      if op.head != head {
        out := [];
      }
      var more := PerformAll(ops[1..], Apply(w, op), head, loose');
      out := out + more;
    }
  }

  function Appended(ops: seq<Op>, head: Node): seq<Node> {
    if ops == [] then []
    else (if ops[0].AddTail? && ops[0].head == head then [ops[0].node] else []) + Appended(ops[1..], head)
  }

  lemma AppendAndPush(s: seq<Node>, node: Node)
    ensures InsertAt(s, |s|, node) == s + [node]
    ensures InsertAt(s, 0, node) == [node] + s
  {
  }

  lemma FifoStep(w: Contents, op: Op, head: Node, popped: seq<Node>, final: seq<Node>, more: seq<Node>)
    requires Legal(w, op) && head in w
    requires op.head == head ==> (op.AddTail? && op.at == head) || op.Pop?
    requires popped + final == Apply(w, op)[head] + more
    ensures (if op.head == head then Output(w, op) else []) + popped + final
         == w[head] + ((if op.AddTail? && op.head == head then [op.node] else []) + more)
  {
    assert [] + popped == popped && [] + more == more;
    if op.head == head && op.AddTail? {
      AppendAndPush(w[head], op.node);
      Regroup(w[head], [op.node], more);
    } else if op.head == head {
      Regroup([w[head][0]], popped, final);
      Regroup([w[head][0]], w[head][1..], more);
      assert w[head] == [w[head][0]] + w[head][1..];
    }
  }

  lemma Regroup(a: seq<Node>, b: seq<Node>, c: seq<Node>)
    ensures a + b + c == a + (b + c)
  {
  }

  /** list_add_tail at the sentinel with list_pop is a queue: whatever happens on other lists
      meanwhile, the nodes popped so far, followed by those still listed, are the nodes appended. */
  lemma {:induction false} AddTailAndPopAreFifo(w: Contents, ops: seq<Op>, head: Node)
    requires LegalRun(w, ops) && head in w
    requires forall op :: op in ops && op.head == head ==> (op.AddTail? && op.at == head) || op.Pop?
    ensures head in ApplyAll(w, ops)
    ensures PoppedFrom(w, ops, head) + ApplyAll(w, ops)[head] == w[head] + Appended(ops, head)
  {
    if ops != [] {
      var w' := Apply(w, ops[0]);
      AddTailAndPopAreFifo(w', ops[1..], head);
      FifoStep(w, ops[0], head, PoppedFrom(w', ops[1..], head), ApplyAll(w, ops)[head], Appended(ops[1..], head));
    }
  }

  /** The height of a stack that starts `height` above its base never falls below the base. */
  predicate StaysAbove(ops: seq<Op>, head: Node, height: nat) {
    ops == [] ||
    (if ops[0].head != head then StaysAbove(ops[1..], head, height)
     else if ops[0].Add? then ops[0].at == head && StaysAbove(ops[1..], head, height + 1)
     else ops[0].Pop? && height > 0 && StaysAbove(ops[1..], head, height - 1))
  }

  function HeightAfter(ops: seq<Op>, head: Node, height: nat): nat
    requires StaysAbove(ops, head, height)
  {
    if ops == [] then height
    else if ops[0].head != head then HeightAfter(ops[1..], head, height)
    else if ops[0].Add? then HeightAfter(ops[1..], head, height + 1)
    else HeightAfter(ops[1..], head, height - 1)
  }

  /** list_add at the sentinel and list_pop never disturb what lies below the height they keep to. */
  lemma {:induction false} StackKeepsItsBase(w: Contents, ops: seq<Op>, head: Node, height: nat)
    requires LegalRun(w, ops) && head in w && height <= |w[head]|
    requires StaysAbove(ops, head, height)
    ensures head in ApplyAll(w, ops)
    ensures var s := ApplyAll(w, ops)[head]; var h := HeightAfter(ops, head, height);
            h <= |s| && s[h..] == w[head][height..]
  {
    if ops != [] {
      var w' := Apply(w, ops[0]);
      if ops[0].head != head {
        StackKeepsItsBase(w', ops[1..], head, height);
      } else if ops[0].Add? {
        AppendAndPush(w[head], ops[0].node);
        assert w'[head][height + 1..] == w[head][height..];
        StackKeepsItsBase(w', ops[1..], head, height + 1);
      } else {
        assert w'[head][height - 1..] == w[head][height..];
        StackKeepsItsBase(w', ops[1..], head, height - 1);
      }
    }
  }

  /** list_add with list_pop is a stack: after a balanced run in between, list_pop hands back the
      node that list_add put there and restores the list. */
  lemma AddAndPopAreLifo(w: Contents, head: Node, node: Node, ops: seq<Op>)
    requires Legal(w, Add(head, head, node)) && LegalRun(Apply(w, Add(head, head, node)), ops)
    requires StaysAbove(ops, head, 0) && HeightAfter(ops, head, 0) == 0
    ensures var before := ApplyAll(Apply(w, Add(head, head, node)), ops);
            && Legal(before, Pop(head))
            && Output(before, Pop(head)) == [node]
            && Apply(before, Pop(head))[head] == w[head]
  {
    AppendAndPush(w[head], node);
    StackKeepsItsBase(Apply(w, Add(head, head, node)), ops, head, 0);
  }
}
