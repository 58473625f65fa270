/** The linked queue that the three Michael-Scott queues share: a dummy node at the head, the
    items in the nodes after it. Addresses are given out in the order in which nodes are
    linked in. */
module QueueModel {
  import opened History

  type Ref = int

  const NULL: Ref := -1

  datatype Option<+T> = None | Some(value: T)

  datatype Node = Node(item: int, next: Ref)

  /** `L` is what an algorithm keeps beside head and tail: its locks. */
  datatype Queue<+L> = Queue(nodes: seq<Node>, head: Ref, tail: Ref, locks: L)

  predicate In<L>(q: Queue<L>, r: Ref) {
    0 <= r < |q.nodes|
  }

  /** Every node but the last points to the node that was linked in after it. */
  ghost predicate Chained(nodes: seq<Node>) {
    forall i :: 0 <= i < |nodes| ==> nodes[i].next == if i + 1 < |nodes| then i + 1 else NULL
  }

  /** Where head and tail may be, for any of the queues: `lag` says how far behind the last
      node the tail may be, `ahead` how far head may be ahead of tail. */
  ghost predicate Shaped<L>(q: Queue<L>, lag: int, ahead: int) {
    && Chained(q.nodes) && 0 <= q.head < |q.nodes|
    && 0 <= q.tail < |q.nodes| <= q.tail + 1 + lag
    && q.head <= q.tail + ahead
  }

  function Items(nodes: seq<Node>): (s: seq<int>)
    ensures |s| == |nodes|
    ensures forall i :: 0 <= i < |nodes| ==> s[i] == nodes[i].item
  {
    seq(|nodes|, i requires 0 <= i < |nodes| => nodes[i].item)
  }

  /** What the queue holds, front first: the items after the dummy. */
  function Contents<L>(q: Queue<L>): seq<int> {
    if 0 <= q.head < |q.nodes| then Items(q.nodes[q.head + 1..]) else []
  }

  /** The only two ways in which a call may change the contents. */
  function Enqueues(item: int): (seq<int>, seq<int>) -> bool {
    (before, after) => after == before + [item]
  }

  function Dequeues(item: int): (seq<int>, seq<int>) -> bool {
    (before, after) => before == [item] + after
  }

  const IsEmpty: seq<int> -> bool := contents => contents == []

  /** What any step of any of the queues leaves alone: items never change, a next that is set
      stays, and head and tail only move forward. */
  ghost predicate Carried<L>(q: Queue<L>, q': Queue<L>) {
    && |q.nodes| <= |q'.nodes| && q.head <= q'.head && q.tail <= q'.tail
    && (forall i :: 0 <= i < |q.nodes| ==>
          q'.nodes[i].item == q.nodes[i].item && (q.nodes[i].next != NULL ==> q'.nodes[i].next == q.nodes[i].next))
  }

  lemma CarriedTransitive<L>(q0: Queue<L>, q1: Queue<L>, q2: Queue<L>)
    requires Carried(q0, q1) && Carried(q1, q2)
    ensures Carried(q0, q2)
  {
  }

  lemma {:induction false} RunCarries<L(!new), A(!new)>(inv: Queue<L> -> bool, step: (Queue<L>, nat, A, Queue<L>) -> bool,
                                                        m: Trace<Queue<L>, A>, tr: Trace<Queue<L>, A>)
    requires IsRunOf(inv, step, tr) && Within(m, tr)
    requires forall q, t, a, q' :: inv(q) && step(q, t, a, q') ==> inv(q') && Carried(q, q')
    ensures inv(tr.now) && Carried(m.now, tr.now)
    decreases tr
  {
    LastStep(inv, step, tr);
    if tr.Then? {
      RunCarries(inv, step, if m == tr then tr.before else m, tr.before);
      if m != tr { CarriedTransitive(m.now, tr.before.now, tr.now); }
    }
  }

  // ---------------------------------------------------------------- the steps

  function LinkIn(nodes: seq<Node>, last: Ref, item: int): seq<Node>
    requires 0 <= last < |nodes|
  {
    nodes[last := nodes[last].(next := |nodes|)] + [Node(item, NULL)]
  }

  /** Linking a node in behind the last one is one enqueue. */
  lemma LinkInEnqueues<L>(q: Queue<L>, q': Queue<L>, last: Ref, item: int)
    requires Chained(q.nodes) && In(q, q.head) && In(q, last) && q.nodes[last].next == NULL
    requires q'.nodes == LinkIn(q.nodes, last, item) && q'.head == q.head
    ensures last == |q.nodes| - 1 && Chained(q'.nodes)
    ensures Enqueues(item)(Contents(q), Contents(q'))
  {
    assert q.nodes[last].next == NULL;
    var a, b := q.nodes[q.head + 1..], q'.nodes[q.head + 1..];
    assert forall i :: 0 <= i < |a| ==> b[i].item == a[i].item;
    assert Contents(q') == Contents(q) + [item];
  }

  /** Moving head to the next node is one dequeue of the front item. */
  lemma HeadStepDequeues<L>(q: Queue<L>, q': Queue<L>)
    requires Chained(q.nodes) && In(q, q.head) && q.nodes[q.head].next != NULL
    requires q'.nodes == q.nodes && q'.head == q.nodes[q.head].next
    ensures q'.head == q.head + 1 && In(q, q'.head)
    ensures Dequeues(q.nodes[q'.head].item)(Contents(q), Contents(q'))
  {
    assert q.nodes[q.head].next == q.head + 1;
    assert q.nodes[q.head + 1..] == [q.nodes[q.head + 1]] + q.nodes[q.head + 2..];
    assert Contents(q) == [q.nodes[q'.head].item] + Contents(q');
  }

  /** A head without a next node means an empty queue. */
  lemma NoNextIsEmpty<L>(q: Queue<L>)
    requires Chained(q.nodes) && In(q, q.head)
    ensures q.nodes[q.head].next == NULL <==> Contents(q) == []
  {
    assert q.nodes[q.head].next == if q.head + 1 < |q.nodes| then q.head + 1 else NULL;
  }

  /** How far a queue has come: it counts the nodes linked in and the steps of head and tail. */
  function Moves<L>(q: Queue<L>): int {
    |q.nodes| + q.head + q.tail
  }

  /** A node with the item, linked in after the first `n`, is not behind the tail any more. */
  ghost predicate TailPast<L>(q: Queue<L>, n: nat, item: int) {
    exists node :: n <= node <= q.tail && In(q, node) && q.nodes[node].item == item
  }

  // ---------------------------------------------------------------- first in, first out

  /** All items that came in, in order, by what each step brings in; those there at the start come
      first. */
  ghost function Enqueued<S(!new), A(!new)>(contents: S -> seq<int>, more: A -> seq<int>, tr: Trace<S, A>): seq<int>
    decreases tr
  {
    match tr
    case Start(q) => contents(q)
    case Then(before, _, a, _) => Enqueued(contents, more, before) + more(a)
  }

  /** All items that went out, in order. */
  ghost function Dequeued<S(!new), A(!new)>(less: (S, A) -> seq<int>, tr: Trace<S, A>): seq<int>
    decreases tr
  {
    match tr
    case Start(_) => []
    case Then(before, _, a, _) => Dequeued(less, before) + less(before.now, a)
  }

  /** If every step balances, what has come in is at all times what has gone out and what is
      there. */
  lemma {:induction false} RunBalances<S(!new), A(!new)>(inv: S -> bool, step: (S, nat, A, S) -> bool,
      contents: S -> seq<int>, more: A -> seq<int>, less: (S, A) -> seq<int>, tr: Trace<S, A>)
    requires IsRunOf(inv, step, tr)
    requires forall q, t, a, q' :: inv(q) && step(q, t, a, q') ==> inv(q') && contents(q) + more(a) == less(q, a) + contents(q')
    ensures inv(tr.now) && Enqueued(contents, more, tr) == Dequeued(less, tr) + contents(tr.now)
    decreases tr
  {
    LastStep(inv, step, tr);
    if tr.Then? {
      var q, a := tr.before.now, tr.act;
      RunBalances(inv, step, contents, more, less, tr.before);
      LogsBalance(Enqueued(contents, more, tr.before), Dequeued(less, tr.before), contents(q), contents(tr.now), more(a), less(q, a));
    }
  }

  /** What has come in being what has gone out and what is there, a step that balances keeps it
      so. */
  lemma LogsBalance(enqueued: seq<int>, dequeued: seq<int>, contents: seq<int>, contents': seq<int>, more: seq<int>, less: seq<int>)
    requires enqueued == dequeued + contents && contents + more == less + contents'
    ensures enqueued + more == (dequeued + less) + contents'
  {
    assert enqueued + more == dequeued + (contents + more);
    assert (dequeued + less) + contents' == dequeued + (less + contents');
  }
}
