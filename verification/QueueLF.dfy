/** The lock-free Michael-Scott queue. */
module QueueLF {
  import opened History
  import opened Calls
  import opened QueueModel

  type Mem = Queue<()>

  datatype Act =
    | LinkNode(tail: Ref, item: int)        // CAS(&tail->next, NULL, node)
    | SwingTail(tail: Ref, next: Ref)       // CAS(&set->tail, tail, next)
    | SwingHead(head: Ref, next: Ref)       // CAS(&set->head, head, next)

  /** When the CAS succeeds. A thread links in only behind a node it has seen as tail, swings
      tail or head only to a next it has read, and head only if it has seen tail past it. */
  predicate Enabled(q: Mem, t: nat, a: Act) {
    match a
    case LinkNode(n, item) => In(q, n) && n <= q.tail && q.nodes[n].next == NULL
    case SwingTail(n, next) => In(q, n) && q.tail == n && q.nodes[n].next == next && next != NULL
    case SwingHead(n, next) => In(q, n) && q.head == n && q.nodes[n].next == next && next != NULL && n < q.tail
  }

  function Do(q: Mem, t: nat, a: Act): Mem
    requires Enabled(q, t, a)
  {
    match a
    case LinkNode(n, item) => q.(nodes := LinkIn(q.nodes, n, item))
    case SwingTail(n, next) => q.(tail := next)
    case SwingHead(n, next) => q.(head := next)
  }

  /** In every reachable state head does not pass tail, and tail is the last node or the one
      before it. */
  ghost predicate Inv(q: Mem) {
    Shaped(q, 1, 0)
  }

  function Init(): Mem {
    Queue([Node(0, NULL)], 0, 0, ())
  }

  /** One atomic step by any thread keeps the invariant; each successful next-CAS is one
      enqueue, each successful head-CAS one dequeue of the front item, and a step of tail is
      invisible. */
  lemma StepKeeps(q: Mem, t: nat, a: Act)
    requires Inv(q) && Enabled(q, t, a)
    ensures Inv(Do(q, t, a)) && Carried(q, Do(q, t, a))
    ensures match a
      case LinkNode(_, item) => Enqueues(item)(Contents(q), Contents(Do(q, t, a)))
      case SwingTail(_, _) => Contents(Do(q, t, a)) == Contents(q)
      case SwingHead(_, next) => In(q, next) && Dequeues(q.nodes[next].item)(Contents(q), Contents(Do(q, t, a)))
  {
    var q' := Do(q, t, a);
    match a
    case LinkNode(n, item) => LinkInEnqueues(q, q', n, item);
    case SwingTail(n, next) => assert q.nodes[n].next == n + 1;
    case SwingHead(n, next) => HeadStepDequeues(q, q');
  }

  // ---------------------------------------------------------------- runs

  type Run = Trace<Mem, Act>

  /** A run begins in any state that satisfies the invariant and goes on by enabled steps of any
      threads. */
  ghost function First(): Mem -> bool {
    q => Inv(q)
  }

  ghost function CanStep(): (Mem, nat, Act, Mem) -> bool {
    (q: Mem, t: nat, a: Act, q': Mem) => Enabled(q, t, a) && q' == Do(q, t, a)
  }

  ghost predicate IsRun(tr: Run) {
    IsRunOf(First(), CanStep(), tr)
  }

  /** Safety over whole runs: the invariant holds in every state, and head and tail have only
      moved forward since any earlier moment. */
  lemma RunMovesForward(m: Run, tr: Run)
    requires IsRun(tr) && Within(m, tr)
    ensures Inv(tr.now) && Carried(m.now, tr.now)
  {
    forall q, t, a, q' | First()(q) && CanStep()(q, t, a, q') ensures First()(q') && Carried(q, q') { StepKeeps(q, t, a); }
    RunCarries(First(), CanStep(), m, tr);
  }

  function EnqueuedBy(a: Act): seq<int> {
    if a.LinkNode? then [a.item] else []
  }

  function DequeuedBy(q: Mem, a: Act): seq<int> {
    if a.SwingHead? && In(q, a.next) then [q.nodes[a.next].item] else []
  }

  lemma StepBalances(q: Mem, t: nat, a: Act)
    requires Inv(q) && Enabled(q, t, a)
    ensures Contents(q) + EnqueuedBy(a) == DequeuedBy(q, a) + Contents(Do(q, t, a))
  {
    StepKeeps(q, t, a);
  }

  /** First in, first out, over all interleavings: in every run the items dequeued so far are a
      prefix of the items enqueued so far, and the queue holds the rest. */
  lemma Fifo(tr: Run)
    requires IsRun(tr)
    ensures Enqueued(Contents, EnqueuedBy, tr) == Dequeued(DequeuedBy, tr) + Contents(tr.now)
  {
    forall q, t, a, q' | First()(q) && CanStep()(q, t, a, q')
      ensures First()(q') && Contents(q) + EnqueuedBy(a) == DequeuedBy(q, a) + Contents(q')
    {
      StepKeeps(q, t, a);
      StepBalances(q, t, a);
    }
    RunBalances(First(), CanStep(), Contents, EnqueuedBy, DequeuedBy, tr);
  }

  // ---------------------------------------------------------------- the code

  class QueueLF {
    var queue: Mem
    ghost var tr: Run

    ghost predicate Valid()
      reads this
    {
      IsRun(tr) && tr.now == queue
    }

    constructor ()
      ensures Valid() && Contents(queue) == []
    {
      queue := Init();
      tr := Start(Init());
      RunBegins<Mem, Act>(First(), CanStep(), Init());
    }

    /** One step of thread `t`. */
    method Record(t: nat, a: Act)
      requires Valid() && Enabled(queue, t, a)
      modifies this
      ensures Valid() && Inv(queue) && queue == Do(old(queue), t, a) && tr == Then(old(tr), t, a, queue) && Carried(old(queue), queue)
      ensures forall u: nat :: u != t || a.SwingTail? ==> Calm(Contents, old(tr), tr, u)
    {
      RunMovesForward(tr, tr);
      StepKeeps(queue, t, a);
      RunGoesOn(First(), CanStep(), tr, t, a, Do(tr.now, t, a));
      forall u: nat | u != t || a.SwingTail? ensures Calm(Contents, tr, Then(tr, t, a, Do(queue, t, a)), u) {
        CalmStep(Contents, tr, t, a, Do(queue, t, a), u);
      }
      queue := Do(queue, t, a);
      tr := Then(tr, t, a, queue);
    }

    /** The other threads run: any number of steps, each by any thread but `t`, each one the
        code enables. Every access to shared memory below comes after such a pause. */
    method Interfere(t: nat)
      requires Valid()
      modifies this
      ensures Valid() && Inv(queue) && Carried(old(queue), queue) && Calm(Contents, old(tr), tr, t)
    {
      var n: nat := *;
      RunMovesForward(tr, tr);
      while n > 0
        invariant Valid() && Inv(queue) && Carried(old(queue), queue) && Calm(Contents, old(tr), tr, t)
      {
        var u: nat, a: Act := *, *;
        if u != t && Enabled(queue, u, a) {
          ghost var q1, tr1 := queue, tr;
          Record(u, a);
          CarriedTransitive(old(queue), q1, queue);
          CalmTransitive(Contents, old(tr), tr1, tr, t);
        }
        n := n - 1;
      }
    }

    /** CAS(&set->tail, tail, next) with a next read from `tail`. */
    method CasTail(t: nat, tail: Ref, next: Ref)
      requires Valid() && In(queue, tail) && next != NULL && queue.nodes[tail].next == next && tail <= queue.tail
      modifies this
      ensures Valid() && Calm(Contents, old(tr), tr, t)
      ensures Carried(old(queue), queue) && tail < queue.tail
    {
      Interfere(t);
      if queue.tail == tail {
        ghost var q1, tr1 := queue, tr;
        StepKeeps(queue, t, SwingTail(tail, next));
        Record(t, SwingTail(tail, next));
        CarriedTransitive(old(queue), q1, queue);
        CalmTransitive(Contents, old(tr), tr1, tr, t);
      }
    }

    /** CAS(&tail->next, NULL, node): on success this is the enqueue. */
    method CasNext(t: nat, tail: Ref, item: int, ghost from: Run) returns (ok: bool, node: Ref)
      requires Valid() && In(queue, tail) && tail <= queue.tail && Quiet(Contents, from, tr, t)
      modifies this
      ensures Valid() && Carried(old(queue), queue)
      ensures ok ==>
        && In(queue, tail) && queue.nodes[tail].next == node == tail + 1 && In(queue, node) && queue.nodes[node].item == item
        && |old(queue.nodes)| <= node && MadeOnce(Contents, from, tr, t, Enqueues(item))
      ensures !ok ==> Quiet(Contents, from, tr, t) && (old(queue).nodes[tail].next == NULL ==> |old(queue.nodes)| < |queue.nodes|)
    {
      RunMovesForward(tr, tr);
      assert queue.nodes[tail].next == NULL ==> tail == |queue.nodes| - 1;
      Interfere(t);
      ok, node := queue.nodes[tail].next == NULL, |queue.nodes|;
      assert !ok ==> tail + 1 < |queue.nodes|;
      if ok {
        ghost var q1 := queue;
        StepKeeps(queue, t, LinkNode(tail, item));
        Record(t, LinkNode(tail, item));
        CarriedTransitive(old(queue), q1, queue);
        MakeStep(Contents, from, tr, t, Enqueues(item));
      }
    }

    /** The four reads of a round of add: tail, set->tail->next, and tail again. */
    method ReadTail(t: nat) returns (tail: Ref, next: Ref, same: bool)
      requires Valid()
      modifies this
      ensures Valid() && Inv(queue) && Carried(old(queue), queue) && Calm(Contents, old(tr), tr, t)
      ensures In(queue, tail) && old(queue.tail) <= tail <= queue.tail && (!same ==> tail < queue.tail)
      ensures same ==> tail == queue.tail && (next != NULL ==> queue.nodes[tail].next == next)
      ensures same && next == NULL && |old(queue.nodes)| == |queue.nodes| ==> queue.nodes[tail].next == NULL
    {
      Interfere(t);
      tail := queue.tail;
      ghost var q1, tr1 := queue, tr;
      Interfere(t);
      CarriedTransitive(old(queue), q1, queue);
      CalmTransitive(Contents, old(tr), tr1, tr, t);
      var again := queue.tail;
      ghost var q2, tr2 := queue, tr;
      Interfere(t);
      CarriedTransitive(old(queue), q2, queue);
      CalmTransitive(Contents, old(tr), tr2, tr, t);
      next := queue.nodes[again].next;
      ghost var q3, tr3 := queue, tr;
      Interfere(t);
      CarriedTransitive(old(queue), q3, queue);
      CalmTransitive(Contents, old(tr), tr3, tr, t);
      same := tail == queue.tail;
      assert same ==> again == tail;
    }

    /** One round of add's loop: true when the node is linked in, and tail has passed it, and the
        call returns. In any other round the queue has moved on. */
    method TryAdd(t: nat, item: int, ghost from: Run) returns (done: bool)
      requires Valid() && Quiet(Contents, from, tr, t)
      modifies this
      ensures Valid() && Carried(old(queue), queue)
      ensures if done then MadeOnce(Contents, from, tr, t, Enqueues(item)) && TailPast(queue, |old(queue.nodes)|, item)
              else Quiet(Contents, from, tr, t) && Moves(old(queue)) < Moves(queue)
    {
      done := false;
      var tail, next, same := ReadTail(t);
      ghost var q1 := queue;
      if same {
        if next == NULL {
          var node;
          done, node := CasNext(t, tail, item, from);
          CarriedTransitive(old(queue), q1, queue);
          if done {
            ghost var q2 := queue;
            CasTail(t, tail, node);
            CarriedTransitive(old(queue), q2, queue);
            assert queue.nodes[node].item == item;
          }
        } else {
          CasTail(t, tail, next);
          CarriedTransitive(old(queue), q1, queue);
        }
      }
    }

    /** Adds the item; None when the call has not returned within `rounds` rounds, in each of which
        the queue has moved on: lock-freedom. */
    method Add(t: nat, item: int, rounds: nat) returns (r: Option<int>)
      requires Valid()
      modifies this
      ensures Valid()
      ensures match r
        case Some(n) => n == 1 && MadeOnce(Contents, old(tr), tr, t, Enqueues(item)) && TailPast(queue, |old(queue.nodes)|, item)
        case None => Quiet(Contents, old(tr), tr, t) && rounds <= Moves(queue) - Moves(old(queue))
    {
      var n := rounds;
      NothingYet(Contents, tr, t);
      while n > 0
        invariant Valid() && Quiet(Contents, old(tr), tr, t) && Carried(old(queue), queue)
        invariant rounds - n <= Moves(queue) - Moves(old(queue))
      {
        ghost var q1 := queue;
        var done := TryAdd(t, item, old(tr));
        CarriedTransitive(old(queue), q1, queue);
        if done { return Some(1); }
        n := n - 1;
      }
      r := None;
    }

    /** CAS(&set->head, head, next) and the read of the item: on success this is the dequeue. */
    method CasHead(t: nat, head: Ref, next: Ref, ghost from: Run) returns (ok: bool, item: int)
      requires Valid() && In(queue, head) && queue.nodes[head].next == next && next != NULL && head < queue.tail
      requires Quiet(Contents, from, tr, t)
      modifies this
      ensures Valid()
      ensures if ok then MadeOnce(Contents, from, tr, t, Dequeues(item)) else Quiet(Contents, from, tr, t)
      ensures Carried(old(queue), queue) && (head <= old(queue.head) ==> head < queue.head)
    {
      Interfere(t);
      ok, item := queue.head == head, 0;
      if ok {
        ghost var q1 := queue;
        StepKeeps(queue, t, SwingHead(head, next));
        Record(t, SwingHead(head, next));
        CarriedTransitive(old(queue), q1, queue);
        MakeStep(Contents, from, tr, t, Dequeues(queue.nodes[next].item));
        item := queue.nodes[next].item;
      }
    }

    /** One round of remove's loop: `done` when the call returns `item`; `empty` when it found
        the queue empty. */
    method TryRemove(t: nat, ghost from: Run) returns (item: int, done: bool, empty: bool)
      requires Valid() && Quiet(Contents, from, tr, t)
      modifies this
      ensures Valid()
      ensures !done ==> Quiet(Contents, from, tr, t) && Moves(old(queue)) < Moves(queue)
      ensures Carried(old(queue), queue)
      ensures done && !empty ==> MadeOnce(Contents, from, tr, t, Dequeues(item))
      ensures done && empty ==> item == 0 && Quiet(Contents, from, tr, t) && Saw(Contents, from, tr, IsEmpty)
    {
      item, done, empty := 0, false, false;
      Interfere(t);
      var head := queue.head;
      ghost var q1 := queue;
      Interfere(t);
      CarriedTransitive(old(queue), q1, queue);
      var tail := queue.tail;
      ghost var q2 := queue;
      Interfere(t);
      CarriedTransitive(old(queue), q2, queue);
      var next := queue.nodes[head].next;
      ghost var q3, seen := queue, tr;
      Interfere(t);
      CarriedTransitive(old(queue), q3, queue);
      ghost var q4 := queue;
      if head == queue.head {
        if head == tail {
          if next == NULL {
            assert seen.now.head == head;
            NoNextIsEmpty(seen.now);
            assert Saw(Contents, from, seen, IsEmpty);
            return 0, true, true;
          }
          CasTail(t, tail, next);
          CarriedTransitive(old(queue), q4, queue);
        } else {
          done, item := CasHead(t, head, next, from);
          CarriedTransitive(old(queue), q4, queue);
        }
      }
    }

    /** Removes the front item; 0 when the queue was empty; None when the call has not returned
        within `rounds` rounds, in each of which the queue has moved on: lock-freedom. */
    method Remove(t: nat, rounds: nat) returns (r: Option<int>)
      requires Valid()
      modifies this
      ensures Valid()
      ensures match r
        case Some(v) =>
          || MadeOnce(Contents, old(tr), tr, t, Dequeues(v))
          || (v == 0 && Quiet(Contents, old(tr), tr, t) && Saw(Contents, old(tr), tr, IsEmpty))
        case None => Quiet(Contents, old(tr), tr, t) && rounds <= Moves(queue) - Moves(old(queue))
    {
      var n := rounds;
      NothingYet(Contents, tr, t);
      while n > 0
        invariant Valid() && Quiet(Contents, old(tr), tr, t)
        invariant rounds - n <= Moves(queue) - Moves(old(queue))
      {
        var item, done, empty := TryRemove(t, old(tr));
        if done { return Some(item); }
        n := n - 1;
      }
      r := None;
    }
  }
}
