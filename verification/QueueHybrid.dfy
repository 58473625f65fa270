/** The hybrid Michael-Scott queue: enqueuers take a lock and use plain stores, dequeuers are
    lock-free and may help the tail forward behind the enqueuer's back. */
module QueueHybrid {
  import opened History
  import opened Calls
  import opened QueueModel

  /** The tail lock, and how far its holder has come. */
  datatype TailLock = Free | Held(who: nat) | Linked(who: nat, node: Ref) | Stored(who: nat)

  predicate HeldBy(l: TailLock, t: nat) {
    !l.Free? && l.who == t
  }

  type Mem = Queue<TailLock>

  datatype Act =
    | Lock
    | LinkNode(tail: Ref, item: int)        // set->tail->next = node
    | StoreTail(node: Ref)                  // set->tail = node
    | Unlock
    | SwingTail(tail: Ref, next: Ref)       // CAS(&set->tail, tail, next)
    | SwingHead(head: Ref, next: Ref)       // CAS(&set->head, head, next)

  /** When the step can happen. The stores are plain ones: nothing but the lock protects them,
      and neither looks at what it overwrites. The CAS steps are as in the lock-free queue. */
  predicate Enabled(q: Mem, t: nat, a: Act) {
    match a
    case Lock => q.locks.Free?
    case LinkNode(n, item) => q.locks == Held(t) && q.tail == n && In(q, n)
    case StoreTail(n) => q.locks == Linked(t, n)
    case Unlock => q.locks == Stored(t)
    case SwingTail(n, next) => In(q, n) && q.tail == n && q.nodes[n].next == next && next != NULL
    case SwingHead(n, next) => In(q, n) && q.head == n && q.nodes[n].next == next && next != NULL && n < q.tail
  }

  function Do(q: Mem, t: nat, a: Act): Mem
    requires Enabled(q, t, a)
  {
    match a
    case Lock => q.(locks := Held(t))
    case LinkNode(n, item) => q.(nodes := LinkIn(q.nodes, n, item), locks := Linked(t, |q.nodes|))
    case StoreTail(n) => q.(tail := n, locks := Stored(t))
    case Unlock => q.(locks := Free)
    case SwingTail(n, next) => q.(tail := next)
    case SwingHead(n, next) => q.(head := next)
  }

  /** In every reachable state head does not pass tail; tail is the last node, unless the holder
      of the lock has linked a node in and not stored it yet. */
  ghost predicate Inv(q: Mem) {
    && Shaped(q, if q.locks.Linked? then 1 else 0, 0)
    && (q.locks.Linked? ==> q.locks.node == |q.nodes| - 1)
  }

  /** Steps that clients cannot see. */
  predicate Silent(a: Act) {
    !a.LinkNode? && !a.SwingHead?
  }

  function Init(): Mem {
    Queue([Node(0, NULL)], 0, 0, Free)
  }

  /** What other threads leave alone: the lock of its holder, who alone links nodes in. */
  ghost predicate Kept(q: Mem, q': Mem, t: nat) {
    Carried(q, q') && (HeldBy(q.locks, t) <==> HeldBy(q'.locks, t)) && (HeldBy(q.locks, t) ==> q'.locks == q.locks && |q'.nodes| == |q.nodes|)
  }

  lemma KeptTransitive(q0: Mem, q1: Mem, q2: Mem, t: nat)
    requires Kept(q0, q1, t) && Kept(q1, q2, t)
    ensures Kept(q0, q2, t)
  {
  }

  /** One atomic step by any thread keeps the invariant; each store to next is one enqueue and
      overwrites no link, each successful head-CAS is one dequeue of the front item, and all
      other steps are invisible. The store to tail never moves it backwards, whatever helpers
      did before. */
  lemma StepKeeps(q: Mem, t: nat, a: Act)
    requires Inv(q) && Enabled(q, t, a)
    ensures Inv(Do(q, t, a)) && Carried(q, Do(q, t, a))
    ensures forall u :: u != t ==> Kept(q, Do(q, t, a), u)
    ensures match a
      case LinkNode(n, item) => q.nodes[n].next == NULL && Enqueues(item)(Contents(q), Contents(Do(q, t, a)))
      case SwingHead(_, next) => In(q, next) && Dequeues(q.nodes[next].item)(Contents(q), Contents(Do(q, t, a)))
      case _ => Contents(Do(q, t, a)) == Contents(q)
  {
    var q' := Do(q, t, a);
    match a
    case LinkNode(n, item) =>
      assert q.nodes[n].next == NULL;
      LinkInEnqueues(q, q', n, item);
    case SwingTail(n, next) => assert q.nodes[n].next == n + 1;
    case SwingHead(n, next) => HeadStepDequeues(q, q');
    case _ =>
  }

  // ---------------------------------------------------------------- runs

  type Run = Trace<Mem, Act>

  /** A run begins in any state that satisfies the invariant and goes on by enabled steps of any
      threads. */
  ghost function First(): Mem -> bool {
    q => Inv(q)
  }

  ghost function CanStep(): (Mem, nat, Act, Mem) -> bool {
    (q: Mem, t: nat, a: Act, q': Mem) => Enabled(q, t, a) && q' == Do(q, t, a)
  }

  ghost predicate IsRun(tr: Run) {
    IsRunOf(First(), CanStep(), tr)
  }

  /** Safety over whole runs: the invariant holds in every state, and head and tail have only
      moved forward since any earlier moment. */
  lemma RunMovesForward(m: Run, tr: Run)
    requires IsRun(tr) && Within(m, tr)
    ensures Inv(tr.now) && Carried(m.now, tr.now)
  {
    forall q, t, a, q' | First()(q) && CanStep()(q, t, a, q') ensures First()(q') && Carried(q, q') { StepKeeps(q, t, a); }
    RunCarries(First(), CanStep(), m, tr);
  }

  function EnqueuedBy(a: Act): seq<int> {
    if a.LinkNode? then [a.item] else []
  }

  function DequeuedBy(q: Mem, a: Act): seq<int> {
    if a.SwingHead? && In(q, a.next) then [q.nodes[a.next].item] else []
  }

  lemma StepBalances(q: Mem, t: nat, a: Act)
    requires Inv(q) && Enabled(q, t, a)
    ensures Contents(q) + EnqueuedBy(a) == DequeuedBy(q, a) + Contents(Do(q, t, a))
  {
    StepKeeps(q, t, a);
  }

  /** First in, first out, over all interleavings: in every run the items dequeued so far are a
      prefix of the items enqueued so far, and the queue holds the rest. */
  lemma Fifo(tr: Run)
    requires IsRun(tr)
    ensures Enqueued(Contents, EnqueuedBy, tr) == Dequeued(DequeuedBy, tr) + Contents(tr.now)
  {
    forall q, t, a, q' | First()(q) && CanStep()(q, t, a, q')
      ensures First()(q') && Contents(q) + EnqueuedBy(a) == DequeuedBy(q, a) + Contents(q')
    {
      StepKeeps(q, t, a);
      StepBalances(q, t, a);
    }
    RunBalances(First(), CanStep(), Contents, EnqueuedBy, DequeuedBy, tr);
  }

  // ---------------------------------------------------------------- the code

  /** There was a moment from `from` on at which the lock was held. */
  ghost predicate SawHeld(from: Run, tr: Run) {
    exists m :: Within(from, m) && Within(m, tr) && !m.now.locks.Free?
  }

  lemma HeldNow(from: Run, tr: Run)
    requires Within(from, tr) && !tr.now.locks.Free?
    ensures SawHeld(from, tr)
  {
    assert Within(tr, tr);
  }

  lemma HeldStays(from: Run, m: Run, tr: Run)
    requires SawHeld(from, m) && forall i :: Within(i, m) ==> Within(i, tr)
    ensures SawHeld(from, tr)
  {
  }

  class QueueHybrid {
    var queue: Mem
    ghost var tr: Run

    ghost predicate Valid()
      reads this
    {
      IsRun(tr) && tr.now == queue
    }

    constructor ()
      ensures Valid() && Contents(queue) == []
    {
      queue := Init();
      tr := Start(Init());
      RunBegins<Mem, Act>(First(), CanStep(), Init());
    }

    /** One step of thread `t`. */
    method Record(t: nat, a: Act)
      requires Valid() && Enabled(queue, t, a)
      modifies this
      ensures Valid() && Inv(queue) && queue == Do(old(queue), t, a) && tr == Then(old(tr), t, a, queue)
      ensures Carried(old(queue), queue) && forall u :: u != t ==> Kept(old(queue), queue, u)
      ensures forall u: nat :: u != t || Silent(a) ==> Calm(Contents, old(tr), tr, u)
    {
      RunMovesForward(tr, tr);
      StepKeeps(queue, t, a);
      RunGoesOn(First(), CanStep(), tr, t, a, Do(tr.now, t, a));
      forall u: nat | u != t || Silent(a) ensures Calm(Contents, tr, Then(tr, t, a, Do(queue, t, a)), u) {
        CalmStep(Contents, tr, t, a, Do(queue, t, a), u);
      }
      queue := Do(queue, t, a);
      tr := Then(tr, t, a, queue);
    }

    /** The other threads run: any number of steps, each by any thread but `t`, each one the
        code enables. Every access to shared memory below comes after such a pause. */
    method Interfere(t: nat)
      requires Valid()
      modifies this
      ensures Valid() && Inv(queue) && Kept(old(queue), queue, t) && Calm(Contents, old(tr), tr, t)
    {
      var n: nat := *;
      RunMovesForward(tr, tr);
      while n > 0
        invariant Valid() && Inv(queue) && Kept(old(queue), queue, t) && Calm(Contents, old(tr), tr, t)
      {
        var u: nat, a: Act := *, *;
        if u != t && Enabled(queue, u, a) {
          ghost var q1, tr1 := queue, tr;
          Record(u, a);
          KeptTransitive(old(queue), q1, queue, t);
          CalmTransitive(Contents, old(tr), tr1, tr, t);
        }
        n := n - 1;
      }
    }

    /** CAS(&set->tail, tail, next) with a next read from `tail`. */
    method CasTail(t: nat, tail: Ref, next: Ref)
      requires Valid() && In(queue, tail) && next != NULL && queue.nodes[tail].next == next && tail <= queue.tail
      modifies this
      ensures Valid() && (HeldBy(queue.locks, t) == old(HeldBy(queue.locks, t))) && Calm(Contents, old(tr), tr, t)
      ensures Carried(old(queue), queue) && tail < queue.tail
    {
      Interfere(t);
      if queue.tail == tail {
        ghost var q1, tr1 := queue, tr;
        StepKeeps(queue, t, SwingTail(tail, next));
        Record(t, SwingTail(tail, next));
        CarriedTransitive(old(queue), q1, queue);
        CalmTransitive(Contents, old(tr), tr1, tr, t);
      }
    }

    /** set->tail->next = node, under the lock: this is the enqueue. */
    method StoreNext(t: nat, item: int, ghost from: Run)
      requires Valid() && queue.locks == Held(t) && Quiet(Contents, from, tr, t)
      modifies this
      ensures Valid() && queue.locks == Linked(t, |queue.nodes| - 1) && MadeOnce(Contents, from, tr, t, Enqueues(item))
    {
      Interfere(t);
      var tail := queue.tail;
      Interfere(t);
      StepKeeps(queue, t, LinkNode(tail, item));
      Record(t, LinkNode(tail, item));
      MakeStep(Contents, from, tr, t, Enqueues(item));
    }

    /** set->tail = node and the release. */
    method StoreTailUnlock(t: nat, node: Ref)
      requires Valid() && queue.locks == Linked(t, node)
      modifies this
      ensures Valid() && !HeldBy(queue.locks, t) && Calm(Contents, old(tr), tr, t)
    {
      Interfere(t);
      ghost var tr1 := tr;
      Record(t, StoreTail(node));
      CalmTransitive(Contents, old(tr), tr1, tr, t);
      ghost var tr2 := tr;
      Interfere(t);
      CalmTransitive(Contents, old(tr), tr2, tr, t);
      ghost var tr3 := tr;
      Record(t, Unlock);
      CalmTransitive(Contents, old(tr), tr3, tr, t);
    }

    /** Adds the item; None when the lock was not acquired within `spins` attempts. */
    method Add(t: nat, item: int, spins: nat) returns (r: Option<int>)
      requires Valid() && !HeldBy(queue.locks, t)
      modifies this
      ensures Valid() && !HeldBy(queue.locks, t)
      ensures match r
        case Some(n) => n == 1 && MadeOnce(Contents, old(tr), tr, t, Enqueues(item))
        case None => Quiet(Contents, old(tr), tr, t) && (spins == 0 || SawHeld(old(tr), tr))
    {
      var n := spins;
      NothingYet(Contents, tr, t);
      while n > 0
        invariant Valid() && !HeldBy(queue.locks, t) && Quiet(Contents, old(tr), tr, t)
        invariant n == spins || SawHeld(old(tr), tr)
      {
        ghost var tr1 := tr;
        Interfere(t);
        if n != spins { HeldStays(old(tr), tr1, tr); }
        if queue.locks.Free? {
          Record(t, Lock);
          StoreNext(t, item, old(tr));
          StoreTailUnlock(t, queue.locks.node);
          return Some(1);
        }
        HeldNow(old(tr), tr);
        n := n - 1;
      }
      r := None;
    }

    /** CAS(&set->head, head, next) and the read of the item: on success this is the dequeue. */
    method CasHead(t: nat, head: Ref, next: Ref, ghost from: Run) returns (ok: bool, item: int)
      requires Valid() && In(queue, head) && queue.nodes[head].next == next && next != NULL && head < queue.tail
      requires Quiet(Contents, from, tr, t)
      modifies this
      ensures Valid() && HeldBy(queue.locks, t) == old(HeldBy(queue.locks, t))
      ensures if ok then MadeOnce(Contents, from, tr, t, Dequeues(item)) else Quiet(Contents, from, tr, t)
      ensures Carried(old(queue), queue) && (head <= old(queue.head) ==> head < queue.head)
    {
      Interfere(t);
      ok, item := queue.head == head, 0;
      if ok {
        ghost var q1 := queue;
        StepKeeps(queue, t, SwingHead(head, next));
        Record(t, SwingHead(head, next));
        CarriedTransitive(old(queue), q1, queue);
        MakeStep(Contents, from, tr, t, Dequeues(queue.nodes[next].item));
        item := queue.nodes[next].item;
      }
    }

    /** One round of remove's loop: `done` when the call returns `item`; `empty` when it found
        the queue empty. */
    method TryRemove(t: nat, ghost from: Run) returns (item: int, done: bool, empty: bool)
      requires Valid() && Quiet(Contents, from, tr, t)
      modifies this
      ensures Valid() && HeldBy(queue.locks, t) == old(HeldBy(queue.locks, t))
      ensures !done ==> Quiet(Contents, from, tr, t) && Moves(old(queue)) < Moves(queue)
      ensures Carried(old(queue), queue)
      ensures done && !empty ==> MadeOnce(Contents, from, tr, t, Dequeues(item))
      ensures done && empty ==> item == 0 && Quiet(Contents, from, tr, t) && Saw(Contents, from, tr, IsEmpty)
    {
      item, done, empty := 0, false, false;
      Interfere(t);
      var head := queue.head;
      ghost var q1 := queue;
      Interfere(t);
      CarriedTransitive(old(queue), q1, queue);
      var tail := queue.tail;
      ghost var q2 := queue;
      Interfere(t);
      CarriedTransitive(old(queue), q2, queue);
      var next := queue.nodes[head].next;
      ghost var q3, seen := queue, tr;
      Interfere(t);
      CarriedTransitive(old(queue), q3, queue);
      ghost var q4 := queue;
      if head == queue.head {
        if head == tail {
          if next == NULL {
            assert seen.now.head == head;
            NoNextIsEmpty(seen.now);
            assert Saw(Contents, from, seen, IsEmpty);
            return 0, true, true;
          }
          CasTail(t, tail, next);
          CarriedTransitive(old(queue), q4, queue);
        } else {
          done, item := CasHead(t, head, next, from);
          CarriedTransitive(old(queue), q4, queue);
        }
      }
    }

    /** Removes the front item; 0 when the queue was empty; None when the call has not returned
        within `rounds` rounds, in each of which the queue has moved on: lock-freedom. */
    method Remove(t: nat, rounds: nat) returns (r: Option<int>)
      requires Valid()
      modifies this
      ensures Valid() && HeldBy(queue.locks, t) == old(HeldBy(queue.locks, t))
      ensures match r
        case Some(v) =>
          || MadeOnce(Contents, old(tr), tr, t, Dequeues(v))
          || (v == 0 && Quiet(Contents, old(tr), tr, t) && Saw(Contents, old(tr), tr, IsEmpty))
        case None => Quiet(Contents, old(tr), tr, t) && rounds <= Moves(queue) - Moves(old(queue))
    {
      var n := rounds;
      NothingYet(Contents, tr, t);
      while n > 0
        invariant Valid() && HeldBy(queue.locks, t) == old(HeldBy(queue.locks, t)) && Quiet(Contents, old(tr), tr, t)
        invariant rounds - n <= Moves(queue) - Moves(old(queue))
      {
        var item, done, empty := TryRemove(t, old(tr));
        if done { return Some(item); }
        n := n - 1;
      }
      r := None;
    }
  }
}
