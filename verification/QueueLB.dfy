/** The two-lock Michael-Scott queue: one lock for enqueuers, one for dequeuers, plain stores
    under each. */
module QueueLB {
  import opened History
  import opened Calls
  import opened QueueModel

  /** The tail lock, and how far its holder has come. */
  datatype TailLock = TailFree | Held(who: nat) | Linked(who: nat, node: Ref) | Stored(who: nat)

  /** The head lock, and how far its holder has come. */
  datatype HeadLock = HeadFree | Holding(who: nat) | Taken(who: nat)

  datatype Locks = Locks(tail: TailLock, head: HeadLock)

  predicate HoldsTail(l: Locks, t: nat) {
    !l.tail.TailFree? && l.tail.who == t
  }

  predicate HoldsHead(l: Locks, t: nat) {
    !l.head.HeadFree? && l.head.who == t
  }

  predicate Unlocked(l: Locks, t: nat) {
    !HoldsTail(l, t) && !HoldsHead(l, t)
  }

  type Mem = Queue<Locks>

  datatype Act =
    | LockTail
    | LinkNode(tail: Ref, item: int)        // set->tail->next = node
    | StoreTail(node: Ref)                  // set->tail = node
    | UnlockTail
    | LockHead
    | StoreHead(head: Ref, next: Ref)       // set->head = head_new
    | UnlockHead

  /** When the step can happen: a store needs its lock, and nothing more. */
  predicate Enabled(q: Mem, t: nat, a: Act) {
    match a
    case LockTail => q.locks.tail.TailFree?
    case LinkNode(n, item) => q.locks.tail == Held(t) && q.tail == n && In(q, n)
    case StoreTail(n) => q.locks.tail == Linked(t, n)
    case UnlockTail => q.locks.tail == Stored(t)
    case LockHead => q.locks.head.HeadFree?
    case StoreHead(n, next) => q.locks.head == Holding(t) && q.head == n && In(q, n) && q.nodes[n].next == next && next != NULL
    case UnlockHead => HoldsHead(q.locks, t)
  }

  function Do(q: Mem, t: nat, a: Act): Mem
    requires Enabled(q, t, a)
  {
    match a
    case LockTail => q.(locks := Locks(Held(t), q.locks.head))
    case LinkNode(n, item) => q.(nodes := LinkIn(q.nodes, n, item), locks := Locks(Linked(t, |q.nodes|), q.locks.head))
    case StoreTail(n) => q.(tail := n, locks := Locks(Stored(t), q.locks.head))
    case UnlockTail => q.(locks := Locks(TailFree, q.locks.head))
    case LockHead => q.(locks := Locks(q.locks.tail, Holding(t)))
    case StoreHead(n, next) => q.(head := next, locks := Locks(q.locks.tail, Taken(t)))
    case UnlockHead => q.(locks := Locks(q.locks.tail, HeadFree))
  }

  /** In every reachable state tail is the last node and head does not pass it, unless the
      holder of the tail lock has linked a node in and not stored it yet: then tail is one
      behind, and head may be one ahead of it. */
  ghost predicate Inv(q: Mem) {
    var linked := if q.locks.tail.Linked? then 1 else 0;
    Shaped(q, linked, linked) && (linked == 1 ==> q.locks.tail.node == |q.nodes| - 1)
  }

  /** Head may be ahead of tail, but only while the tail lock is held. */
  lemma HeadAheadOnlyUnderLock(q: Mem)
    requires Inv(q) && q.tail < q.head
    ensures q.locks.tail.Linked? && q.head == q.tail + 1 && Contents(q) == []
  {
  }

  /** Steps that clients cannot see. */
  predicate Silent(a: Act) {
    !a.LinkNode? && !a.StoreHead?
  }

  function Init(): Mem {
    Queue([Node(0, NULL)], 0, 0, Locks(TailFree, HeadFree))
  }

  /** What other threads leave alone: a lock and what it protects. Only its holder links nodes
      in, only its holder moves head. */
  ghost predicate Kept(q: Mem, q': Mem, t: nat) {
    && Carried(q, q')
    && (HoldsTail(q.locks, t) <==> HoldsTail(q'.locks, t)) && (HoldsHead(q.locks, t) <==> HoldsHead(q'.locks, t))
    && (HoldsTail(q.locks, t) ==> q'.locks.tail == q.locks.tail && |q'.nodes| == |q.nodes| && q'.tail == q.tail)
    && (HoldsHead(q.locks, t) ==> q'.locks.head == q.locks.head && q'.head == q.head)
  }

  lemma KeptTransitive(q0: Mem, q1: Mem, q2: Mem, t: nat)
    requires Kept(q0, q1, t) && Kept(q1, q2, t)
    ensures Kept(q0, q2, t)
  {
  }

  /** One atomic step by any thread keeps the invariant; each store to next is one enqueue and
      overwrites no link, each store to head is one dequeue of the front item, and all other
      steps are invisible. */
  lemma StepKeeps(q: Mem, t: nat, a: Act)
    requires Inv(q) && Enabled(q, t, a)
    ensures Inv(Do(q, t, a)) && Carried(q, Do(q, t, a))
    ensures forall u :: u != t ==> Kept(q, Do(q, t, a), u)
    ensures match a
      case LinkNode(n, item) => q.nodes[n].next == NULL && Enqueues(item)(Contents(q), Contents(Do(q, t, a)))
      case StoreHead(_, next) => In(q, next) && Dequeues(q.nodes[next].item)(Contents(q), Contents(Do(q, t, a)))
      case _ => Contents(Do(q, t, a)) == Contents(q)
  {
    var q' := Do(q, t, a);
    match a
    case LinkNode(n, item) =>
      assert q.nodes[n].next == NULL;
      LinkInEnqueues(q, q', n, item);
    case StoreHead(n, next) => HeadStepDequeues(q, q');
    case _ =>
  }

  // ---------------------------------------------------------------- runs

  type Run = Trace<Mem, Act>

  /** A run begins in any state that satisfies the invariant and goes on by enabled steps of any
      threads. */
  ghost function First(): Mem -> bool {
    q => Inv(q)
  }

  ghost function CanStep(): (Mem, nat, Act, Mem) -> bool {
    (q: Mem, t: nat, a: Act, q': Mem) => Enabled(q, t, a) && q' == Do(q, t, a)
  }

  ghost predicate IsRun(tr: Run) {
    IsRunOf(First(), CanStep(), tr)
  }

  /** Safety over whole runs: the invariant holds in every state, and head and tail have only
      moved forward since any earlier moment. */
  lemma RunMovesForward(m: Run, tr: Run)
    requires IsRun(tr) && Within(m, tr)
    ensures Inv(tr.now) && Carried(m.now, tr.now)
  {
    forall q, t, a, q' | First()(q) && CanStep()(q, t, a, q') ensures First()(q') && Carried(q, q') { StepKeeps(q, t, a); }
    RunCarries(First(), CanStep(), m, tr);
  }

  /** Head does get ahead of tail in some run from the empty queue: one thread has linked a node
      in, another has already taken its item. */
  lemma HeadGetsAhead(item: int) returns (tr: Run)
    ensures IsRun(tr) && Within(Start(Init()), tr) && tr.now.tail < tr.now.head
  {
    var t0 := Start(Init());
    var t1 := Then(t0, 0, LockTail, Do(t0.now, 0, LockTail));
    var t2 := Then(t1, 0, LinkNode(0, item), Do(t1.now, 0, LinkNode(0, item)));
    var t3 := Then(t2, 1, LockHead, Do(t2.now, 1, LockHead));
    tr := Then(t3, 1, StoreHead(0, 1), Do(t3.now, 1, StoreHead(0, 1)));
    RunBegins<Mem, Act>(First(), CanStep(), Init());
    RunGoesOn(First(), CanStep(), t0, 0, LockTail, Do(t0.now, 0, LockTail));
    RunGoesOn(First(), CanStep(), t1, 0, LinkNode(0, item), Do(t1.now, 0, LinkNode(0, item)));
    RunGoesOn(First(), CanStep(), t2, 1, LockHead, Do(t2.now, 1, LockHead));
    RunGoesOn(First(), CanStep(), t3, 1, StoreHead(0, 1), Do(t3.now, 1, StoreHead(0, 1)));
    assert Within(t0, t1) && Within(t0, t2) && Within(t0, t3);
  }

  function EnqueuedBy(a: Act): seq<int> {
    if a.LinkNode? then [a.item] else []
  }

  function DequeuedBy(q: Mem, a: Act): seq<int> {
    if a.StoreHead? && In(q, a.next) then [q.nodes[a.next].item] else []
  }

  lemma StepBalances(q: Mem, t: nat, a: Act)
    requires Inv(q) && Enabled(q, t, a)
    ensures Contents(q) + EnqueuedBy(a) == DequeuedBy(q, a) + Contents(Do(q, t, a))
  {
    StepKeeps(q, t, a);
  }

  /** First in, first out, over all interleavings: in every run the items dequeued so far are a
      prefix of the items enqueued so far, and the queue holds the rest. */
  lemma Fifo(tr: Run)
    requires IsRun(tr)
    ensures Enqueued(Contents, EnqueuedBy, tr) == Dequeued(DequeuedBy, tr) + Contents(tr.now)
  {
    forall q, t, a, q' | First()(q) && CanStep()(q, t, a, q')
      ensures First()(q') && Contents(q) + EnqueuedBy(a) == DequeuedBy(q, a) + Contents(q')
    {
      StepKeeps(q, t, a);
      StepBalances(q, t, a);
    }
    RunBalances(First(), CanStep(), Contents, EnqueuedBy, DequeuedBy, tr);
  }

  // ---------------------------------------------------------------- the code

  const TailHeld: Locks -> bool := (l: Locks) => !l.tail.TailFree?

  const HeadHeld: Locks -> bool := (l: Locks) => !l.head.HeadFree?

  /** There was a moment from `from` on at which the lock was held. */
  ghost predicate SawHeld(from: Run, tr: Run, held: Locks -> bool) {
    exists m :: Within(from, m) && Within(m, tr) && held(m.now.locks)
  }

  lemma HeldNow(from: Run, tr: Run, held: Locks -> bool)
    requires Within(from, tr) && held(tr.now.locks)
    ensures SawHeld(from, tr, held)
  {
    assert Within(tr, tr);
  }

  lemma HeldStays(from: Run, m: Run, tr: Run, held: Locks -> bool)
    requires SawHeld(from, m, held) && forall i :: Within(i, m) ==> Within(i, tr)
    ensures SawHeld(from, tr, held)
  {
  }

  class QueueLB {
    var queue: Mem
    ghost var tr: Run

    ghost predicate Valid()
      reads this
    {
      IsRun(tr) && tr.now == queue
    }

    constructor ()
      ensures Valid() && Contents(queue) == []
    {
      queue := Init();
      tr := Start(Init());
      RunBegins<Mem, Act>(First(), CanStep(), Init());
    }

    /** One step of thread `t`. */
    method Record(t: nat, a: Act)
      requires Valid() && Enabled(queue, t, a)
      modifies this
      ensures Valid() && Inv(queue) && queue == Do(old(queue), t, a) && tr == Then(old(tr), t, a, queue)
      ensures Carried(old(queue), queue) && forall u :: u != t ==> Kept(old(queue), queue, u)
      ensures forall u: nat :: u != t || Silent(a) ==> Calm(Contents, old(tr), tr, u)
    {
      RunMovesForward(tr, tr);
      StepKeeps(queue, t, a);
      RunGoesOn(First(), CanStep(), tr, t, a, Do(tr.now, t, a));
      forall u: nat | u != t || Silent(a) ensures Calm(Contents, tr, Then(tr, t, a, Do(queue, t, a)), u) {
        CalmStep(Contents, tr, t, a, Do(queue, t, a), u);
      }
      queue := Do(queue, t, a);
      tr := Then(tr, t, a, queue);
    }

    /** The other threads run: any number of steps, each by any thread but `t`, each one the
        code enables. Every access to shared memory below comes after such a pause. */
    method Interfere(t: nat)
      requires Valid()
      modifies this
      ensures Valid() && Inv(queue) && Kept(old(queue), queue, t) && Calm(Contents, old(tr), tr, t)
    {
      var n: nat := *;
      RunMovesForward(tr, tr);
      while n > 0
        invariant Valid() && Inv(queue) && Kept(old(queue), queue, t) && Calm(Contents, old(tr), tr, t)
      {
        var u: nat, a: Act := *, *;
        if u != t && Enabled(queue, u, a) {
          ghost var q1, tr1 := queue, tr;
          Record(u, a);
          KeptTransitive(old(queue), q1, queue, t);
          CalmTransitive(Contents, old(tr), tr1, tr, t);
        }
        n := n - 1;
      }
    }

    /** set->tail->next = node, under the lock: this is the enqueue. */
    method StoreNext(t: nat, item: int, ghost from: Run)
      requires Valid() && queue.locks.tail == Held(t) && !HoldsHead(queue.locks, t) && Quiet(Contents, from, tr, t)
      modifies this
      ensures Valid() && queue.locks.tail == Linked(t, |queue.nodes| - 1) && !HoldsHead(queue.locks, t)
      ensures MadeOnce(Contents, from, tr, t, Enqueues(item))
    {
      Interfere(t);
      var tail := queue.tail;
      Interfere(t);
      StepKeeps(queue, t, LinkNode(tail, item));
      Record(t, LinkNode(tail, item));
      MakeStep(Contents, from, tr, t, Enqueues(item));
    }

    /** set->tail = node and the release. */
    method StoreTailUnlock(t: nat, node: Ref)
      requires Valid() && queue.locks.tail == Linked(t, node) && !HoldsHead(queue.locks, t)
      modifies this
      ensures Valid() && Unlocked(queue.locks, t) && Calm(Contents, old(tr), tr, t)
    {
      Interfere(t);
      ghost var tr1 := tr;
      Record(t, StoreTail(node));
      CalmTransitive(Contents, old(tr), tr1, tr, t);
      ghost var tr2 := tr;
      Interfere(t);
      CalmTransitive(Contents, old(tr), tr2, tr, t);
      ghost var tr3 := tr;
      Record(t, UnlockTail);
      CalmTransitive(Contents, old(tr), tr3, tr, t);
    }

    /** Adds the item; None when the tail lock was not acquired within `spins` attempts. */
    method Add(t: nat, item: int, spins: nat) returns (r: Option<int>)
      requires Valid() && Unlocked(queue.locks, t)
      modifies this
      ensures Valid() && Unlocked(queue.locks, t)
      ensures match r
        case Some(n) => n == 1 && MadeOnce(Contents, old(tr), tr, t, Enqueues(item))
        case None => Quiet(Contents, old(tr), tr, t) && (spins == 0 || SawHeld(old(tr), tr, TailHeld))
    {
      var n := spins;
      NothingYet(Contents, tr, t);
      while n > 0
        invariant Valid() && Unlocked(queue.locks, t) && Quiet(Contents, old(tr), tr, t)
        invariant n == spins || SawHeld(old(tr), tr, TailHeld)
      {
        ghost var tr1 := tr;
        Interfere(t);
        if n != spins { HeldStays(old(tr), tr1, tr, TailHeld); }
        if queue.locks.tail.TailFree? {
          Record(t, LockTail);
          StoreNext(t, item, old(tr));
          StoreTailUnlock(t, queue.locks.tail.node);
          return Some(1);
        }
        HeldNow(old(tr), tr, TailHeld);
        n := n - 1;
      }
      r := None;
    }

    /** The critical section of remove, up to the release: a next that is there is a dequeue, no
        next an empty queue. */
    method TakeFront(t: nat, ghost from: Run) returns (item: int, empty: bool)
      requires Valid() && queue.locks.head == Holding(t) && !HoldsTail(queue.locks, t) && Quiet(Contents, from, tr, t)
      modifies this
      ensures Valid() && HoldsHead(queue.locks, t) && !HoldsTail(queue.locks, t)
      ensures !empty ==> MadeOnce(Contents, from, tr, t, Dequeues(item))
      ensures empty ==> item == 0 && Quiet(Contents, from, tr, t) && Saw(Contents, from, tr, IsEmpty)
    {
      Interfere(t);
      var node := queue.head;
      Interfere(t);
      var headNew := queue.nodes[node].next;
      if headNew == NULL {
        NoNextIsEmpty(queue);
        assert Saw(Contents, from, tr, IsEmpty);
        return 0, true;
      }
      Interfere(t);
      item, empty := queue.nodes[headNew].item, false;
      Interfere(t);
      StepKeeps(queue, t, StoreHead(node, headNew));
      Record(t, StoreHead(node, headNew));
      MakeStep(Contents, from, tr, t, Dequeues(item));
    }

    method ReleaseHead(t: nat)
      requires Valid() && HoldsHead(queue.locks, t) && !HoldsTail(queue.locks, t)
      modifies this
      ensures Valid() && Unlocked(queue.locks, t) && Calm(Contents, old(tr), tr, t)
    {
      Interfere(t);
      ghost var tr1 := tr;
      Record(t, UnlockHead);
      CalmTransitive(Contents, old(tr), tr1, tr, t);
    }

    /** Removes the front item; 0 when the queue was empty; None when the head lock was not
        acquired within `spins` attempts. */
    method Remove(t: nat, spins: nat) returns (r: Option<int>)
      requires Valid() && Unlocked(queue.locks, t)
      modifies this
      ensures Valid() && Unlocked(queue.locks, t)
      ensures match r
        case Some(v) =>
          || MadeOnce(Contents, old(tr), tr, t, Dequeues(v))
          || (v == 0 && Quiet(Contents, old(tr), tr, t) && Saw(Contents, old(tr), tr, IsEmpty))
        case None => Quiet(Contents, old(tr), tr, t) && (spins == 0 || SawHeld(old(tr), tr, HeadHeld))
    {
      var n := spins;
      NothingYet(Contents, tr, t);
      while n > 0
        invariant Valid() && Unlocked(queue.locks, t) && Quiet(Contents, old(tr), tr, t)
        invariant n == spins || SawHeld(old(tr), tr, HeadHeld)
      {
        ghost var tr1 := tr;
        Interfere(t);
        if n != spins { HeldStays(old(tr), tr1, tr, HeadHeld); }
        if queue.locks.head.HeadFree? {
          Record(t, LockHead);
          var item, empty := TakeFront(t, old(tr));
          ReleaseHead(t);
          return Some(item);
        }
        HeldNow(old(tr), tr, HeadHeld);
        n := n - 1;
      }
      r := None;
    }
  }
}
