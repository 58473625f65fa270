/** The lazy list: locked insert and remove with validation, logical deletion by a mark
    before the unlink, and a search that takes no lock. */
module LazyList {
  import opened History
  import opened ListModel
  import Calls
  import SetCalls

  /** `Leaving` is held too, on a node that its holder has marked and not unlinked yet; the lock
      word does not tell the two apart. */
  datatype Lock = Free | By(t: nat) | Leaving(t: nat)

  predicate HeldBy(l: Lock, t: nat) {
    l == By(t) || l == Leaving(t)
  }

  type Mem = Heap<Lock>

  /** The atomic steps that write shared memory. */
  datatype Act =
    | TakeLock(n: Ref)
    | DropLock(n: Ref)
    | Link(pred: Ref, curr: Ref, key: int, val: int)  // pred->next = newnode
    | Mark(pred: Ref, curr: Ref)                      // curr->marked = 1
    | Unlink(pred: Ref, curr: Ref, next: Ref)         // pred->next = c_next

  /** When thread `t` may take the step: the guards the code establishes with its locks and
      its validation. The lock of a node that is leaving cannot be dropped. */
  predicate Enabled(h: Mem, t: nat, a: Act) {
    match a
    case TakeLock(n) => In(h, n) && h[n].lock == Free
    case DropLock(n) => In(h, n) && h[n].lock == By(t)
    case Link(p, c, key, val) =>
      && In(h, p) && In(h, c) && h[p].lock == By(t) && !h[p].marked && h[p].next == c
      && h[p].key < key < h[c].key
    case Mark(p, c) =>
      && In(h, p) && In(h, c) && c != TAIL && h[p].lock == By(t) && h[c].lock == By(t)
      && !h[p].marked && !h[c].marked && h[p].next == c
    case Unlink(p, c, n) =>
      && In(h, p) && In(h, c) && h[p].lock == By(t) && h[c].lock == Leaving(t)
      && !h[p].marked && h[c].marked && h[p].next == c && h[c].next == n
  }

  function Do(h: Mem, t: nat, a: Act): Mem
    requires Enabled(h, t, a)
  {
    match a
    case TakeLock(n) => h[n := h[n].(lock := By(t))]
    case DropLock(n) => h[n := h[n].(lock := Free)]
    case Link(p, c, key, val) => h[p := h[p].(next := |h|)] + [Cell(key, val, c, false, Free)]
    case Mark(p, c) => h[c := h[c].(marked := true, lock := Leaving(t))]
    case Unlink(p, c, n) => h[p := h[p].(next := n)][c := h[c].(lock := By(t))]
  }

  /** What holds in every reachable state: the list is well formed, every unmarked node is
      reachable from the head, and next pointers ascend, also those of removed nodes. A marked
      node that is still reachable is locked by the thread that marked it. */
  ghost predicate Inv(h: Mem) {
    && Good(h) && Ascending(h)
    && (forall r :: 0 <= r < |h| && !h[r].marked ==> OnChain(h, r))
    && (forall r :: 0 <= r < |h| ==> (h[r].lock.Leaving? <==> h[r].marked && OnChain(h, r)))
  }

  /** Nothing that was off the list comes back. */
  ghost predicate NoReturn(h: Mem, h': Mem) {
    |h| <= |h'| && forall r :: 0 <= r < |h| && OnChain(h', r) ==> OnChain(h, r)
  }

  function Init(min: int, max: int): Mem {
    [Cell(min, 0, TAIL, false, Free), Cell(max, 0, NULL, false, Free)]
  }

  lemma InitInv(min: int, max: int)
    requires min < max
    ensures Inv(Init(min, max)) && Bindings(Init(min, max)) == {}
  {
    assert Reaches(Init(min, max), TAIL, TAIL);
  }

  lemma LinkKeeps(h: Mem, t: nat, p: Ref, c: Ref, key: int, val: int)
    requires Inv(h) && Enabled(h, t, Link(p, c, key, val))
    ensures var h' := Do(h, t, Link(p, c, key, val));
      && Inv(h') && Evolves(h, h') && NoReturn(h, h')
      && Absent(h, key) && Bindings(h') == Bindings(h) + {(key, val)}
  {
    var h' := Do(h, t, Link(p, c, key, val));
    LinkEffect(h, h', p, Cell(key, val, c, false, Free));
  }

  lemma MarkKeeps(h: Mem, t: nat, p: Ref, c: Ref)
    requires Inv(h) && Enabled(h, t, Mark(p, c))
    ensures var h' := Do(h, t, Mark(p, c));
      && Inv(h') && Evolves(h, h') && NoReturn(h, h')
      && (h[c].key, h[c].val) in Bindings(h) && Bindings(h') == Bindings(h) - {(h[c].key, h[c].val)}
  {
    var h' := Do(h, t, Mark(p, c));
    var h1 := h[c := h[c].(marked := true)];
    NextInChain(h, p);
    MarkEffect(h, h1, c);
    ShapeFrame(h1, h');
    EvolvesThenShape(h, h1, h');
  }

  lemma UnlinkKeeps(h: Mem, t: nat, p: Ref, c: Ref, n: Ref)
    requires Inv(h) && Enabled(h, t, Unlink(p, c, n))
    ensures var h' := Do(h, t, Unlink(p, c, n));
      Inv(h') && Evolves(h, h') && NoReturn(h, h') && Bindings(h') == Bindings(h) && !OnChain(h', c)
  {
    var h' := Do(h, t, Unlink(p, c, n));
    var h1 := h[p := h[p].(next := n)];
    assert p != TAIL && PointsUp(h, p) && PointsUp(h, c);
    SnipMarkedEffect(h, h1, p, [c], n);
    ShapeFrame(h1, h');
    EvolvesThenShape(h, h1, h');
  }

  lemma LockKeeps(h: Mem, t: nat, a: Act)
    requires Inv(h) && Enabled(h, t, a) && (a.TakeLock? || a.DropLock?)
    ensures Inv(Do(h, t, a)) && Evolves(h, Do(h, t, a)) && NoReturn(h, Do(h, t, a)) && Bindings(Do(h, t, a)) == Bindings(h)
  {
    ShapeFrame(h, Do(h, t, a));
  }

  /** One atomic step by any thread keeps the invariant, is one that hindsight allows, and
      changes the set only by linking a new key in or by marking. */
  lemma StepKeeps(h: Mem, t: nat, a: Act)
    requires Inv(h) && Enabled(h, t, a)
    ensures Inv(Do(h, t, a)) && Evolves(h, Do(h, t, a)) && NoReturn(h, Do(h, t, a))
    ensures match a
      case Link(_, _, key, val) => Absent(h, key) && Bindings(Do(h, t, a)) == Bindings(h) + {(key, val)}
      case Mark(_, c) => (h[c].key, h[c].val) in Bindings(h) && Bindings(Do(h, t, a)) == Bindings(h) - {(h[c].key, h[c].val)}
      case _ => Bindings(Do(h, t, a)) == Bindings(h)
  {
    match a
    case Link(p, c, key, val) => LinkKeeps(h, t, p, c, key, val);
    case Mark(p, c) => MarkKeeps(h, t, p, c);
    case Unlink(p, c, n) => UnlinkKeeps(h, t, p, c, n);
    case TakeLock(_) => LockKeeps(h, t, a);
    case DropLock(_) => LockKeeps(h, t, a);
  }

  // ---------------------------------------------------------------- runs

  type Run = Trace<Mem, Act>

  /** A run begins in any state that satisfies the invariant and goes on by enabled steps of any
      threads. */
  ghost function First(): Mem -> bool {
    h => Inv(h)
  }

  ghost function CanStep(): (Mem, nat, Act, Mem) -> bool {
    (h: Mem, t: nat, a: Act, h': Mem) => Enabled(h, t, a) && h' == Do(h, t, a)
  }

  ghost predicate IsRun(tr: Run) {
    IsRunOf(First(), CanStep(), tr)
  }

  /** Safety over whole runs: every state of every run satisfies the invariant and follows
      from the one before by a step that hindsight allows. */
  lemma RunIsTame(m: Run, tr: Run)
    requires IsRun(tr) && Within(m, tr)
    ensures Inv(tr.now) && Inv(m.now) && Tame(m, tr)
  {
    forall h, t, a, h' | First()(h) && CanStep()(h, t, a, h') ensures First()(h') && Evolves(h, h') {
      StepKeeps(h, t, a);
    }
    RunTames(First(), CanStep(), m, tr);
  }

  // ---------------------------------------------------------------- the code

  /** The nodes whose lock thread `t` holds. */
  ghost function Held(h: Mem, t: nat): set<Ref> {
    set r | 0 <= r < |h| && HeldBy(h[r].lock, t)
  }

  /** One cell, before and after: key and value stay, a mark stays, and nothing changes while
      thread `t` holds the lock. */
  ghost predicate CellKept(c: Cell<Lock>, c': Cell<Lock>, t: nat) {
    c'.key == c.key && c'.val == c.val && (c.marked ==> c'.marked) && (HeldBy(c.lock, t) ==> c' == c)
  }

  /** What thread `t` can rely on: every node but `except` is kept. */
  ghost predicate Carried(h: Mem, h': Mem, t: nat, except: Ref) {
    && |h| <= |h'|
    && (forall r :: 0 <= r < |h| && r != except ==> CellKept(h[r], h'[r], t))
    && (In(h, except) ==> h'[except].key == h[except].key && h'[except].val == h[except].val)
  }

  lemma CarriedTransitive(h0: Mem, h1: Mem, h2: Mem, t: nat)
    requires Carried(h0, h1, t, NULL) && Carried(h1, h2, t, NULL)
    ensures Carried(h0, h2, t, NULL)
  {
  }

  lemma ForeignStepCarries(h: Mem, u: nat, a: Act, t: nat)
    requires Enabled(h, u, a) && u != t
    ensures Carried(h, Do(h, u, a), t, NULL) && Held(Do(h, u, a), t) == Held(h, t)
  {
  }

  // ---------------------------------------------------------------- removed for good

  /** The last step of `m` marked a node, and that node is off the list at the end of `tr`. */
  ghost predicate MarkedAndOff(m: Run, tr: Run, t: nat, key: int, val: int) {
    && m.Then? && m.who == t && m.act.Mark? && In(m.before.now, m.act.curr)
    && m.before.now[m.act.curr].key == key && m.before.now[m.act.curr].val == val
    && In(tr.now, m.act.curr) && !OnChain(tr.now, m.act.curr)
  }

  /** From moment `from` on, thread `t` changed the set in exactly one step, by marking a node with
      the pair, and that node is off the list by now. */
  ghost predicate RemovedForGood(from: Run, tr: Run, t: nat, key: int, val: int) {
    exists m: Run {:trigger MarkedAndOff(m, tr, t, key, val)} ::
      m.Then? && Quiet(from, m.before, t) && Quiet(m, tr, t) && MarkedAndOff(m, tr, t, key, val)
  }

  /** A marked node is leaving, with the lock of the thread that marked it, or is off the list. */
  lemma {:induction false} LeavesOrIsOff(m: Run, tr: Run)
    requires IsRun(tr) && Within(m, tr) && m.Then? && m.act.Mark?
    ensures var c := m.act.curr;
      In(tr.now, c) && tr.now[c].marked && (OnChain(tr.now, c) ==> tr.now[c].lock == Leaving(m.who))
    decreases tr
  {
    LastStep(First(), CanStep(), tr);
    RunIsTame(tr, tr);
    if m != tr {
      LeavesOrIsOff(m, tr.before);
      RunIsTame(tr.before, tr.before);
      StepKeeps(tr.before.now, tr.who, tr.act);
    }
  }

  /** A removal by a thread that holds no lock any more has taken its node off the list. */
  lemma RemovedIsOff(from: Run, tr: Run, t: nat, key: int, val: int)
    requires IsRun(tr) && Removed(from, tr, t, key, val) && Held(tr.now, t) == {}
    ensures RemovedForGood(from, tr, t, key, val)
  {
    var m :| Calls.Makes(Bindings, m, t, SetCalls.Removes(key, val)) && Calls.Quiet(Bindings, from, m.before, t) && Calls.Quiet(Bindings, m, tr, t);
    RunPrefix(First(), CanStep(), m, tr);
    LastStep(First(), CanStep(), m);
    RunIsTame(m.before, m.before);
    StepKeeps(m.before.now, t, m.act);
    RemovesOnlyByMark(m.before.now, t, m.act, key, val);
    LeavesOrIsOff(m, tr);
    var c := m.act.curr;
    assert c !in Held(tr.now, t);
    assert MarkedAndOff(m, tr, t, key, val);
  }

  lemma RemovesOnlyByMark(h: Mem, t: nat, a: Act, key: int, val: int)
    requires Inv(h) && Enabled(h, t, a) && SetCalls.Removes(key, val)(Bindings(h), Bindings(Do(h, t, a)))
    ensures a.Mark? && h[a.curr].key == key && h[a.curr].val == val
  {
    StepKeeps(h, t, a);
    if a.Mark? { assert (h[a.curr].key, h[a.curr].val) !in Bindings(Do(h, t, a)); }
  }

  // ---------------------------------------------------------------- calls that nobody disturbs

  /** No lock is held. */
  ghost predicate Idle(h: Mem) {
    forall r :: 0 <= r < |h| ==> h[r].lock == Free
  }

  /** The two nodes are unlocked live neighbours. */
  ghost predicate Ready(h: Mem, p: Ref, c: Ref) {
    && In(h, p) && In(h, c) && h[p].lock == Free == h[c].lock && !h[p].marked && !h[c].marked && h[p].next == c
  }

  ghost predicate NoOthers(h: Mem, t: nat) {
    forall r :: 0 <= r < |h| ==> h[r].lock == Free || HeldBy(h[r].lock, t)
  }

  /** A thread that is alone and has released all locks leaves none held. */
  lemma {:induction false} AloneKeepsOut(m: Run, tr: Run, t: nat)
    requires IsRun(tr) && Within(m, tr) && Calls.Alone(m, tr, t) && NoOthers(m.now, t)
    ensures NoOthers(tr.now, t)
    decreases tr
  {
    if m != tr {
      LastStep(First(), CanStep(), tr);
      Calls.ForeignGrows(m, tr.before, t);
      AloneKeepsOut(m, tr.before, t);
    }
  }

  lemma AloneEndsIdle(m: Run, tr: Run, t: nat)
    requires IsRun(tr) && Within(m, tr) && Held(tr.now, t) == {}
    ensures Calls.Alone(m, tr, t) && Idle(m.now) ==> Idle(tr.now)
  {
    if Calls.Alone(m, tr, t) && Idle(m.now) {
      AloneKeepsOut(m, tr, t);
      forall r | 0 <= r < |tr.now| ensures tr.now[r].lock == Free { assert r !in Held(tr.now, t); }
    }
  }

  /** The verdict in the terms of this list: a node is alive exactly when it is not marked. */
  lemma Verdict(from: Run, m: Run, tr: Run, p: Ref, s: Ref, key: int)
    requires IsRun(tr) && Within(from, m) && Within(m, tr) && Stands(m.now, p, s)
    requires m.now[p].key < key <= m.now[s].key && In(tr.now, TAIL) && key < tr.now[TAIL].key
    ensures In(tr.now, s) && tr.now[s].key == m.now[s].key
    ensures m.now[s].key == key && !tr.now[s].marked ==> SawBinding(from, tr, key, tr.now[s].val)
    ensures m.now[s].key == key && tr.now[s].marked ==> SawAbsent(from, tr, key)
    ensures m.now[s].key != key ==> SawAbsent(from, tr, key)
  {
    RunIsTame(m, tr);
    TameKeeps(m, tr, TAIL);
    TameKeeps(m, tr, s);
    TraversalVerdict(from, m, tr, p, s, key);
  }

  lemma SawUnmarked(from: Run, m: Run, seen: Run, tr: Run, p: Ref, s: Ref, key: int)
    requires IsRun(tr) && Within(from, m) && Within(m, tr) && Within(m, seen) && Within(seen, tr) && Stands(m.now, p, s)
    requires m.now[p].key < key == m.now[s].key && In(tr.now, TAIL) && key < tr.now[TAIL].key
    requires In(seen.now, s) && !seen.now[s].marked
    ensures SawPresent(from, tr, key)
  {
    RunIsTame(seen, tr);
    TameKeeps(seen, tr, TAIL);
    RunPrefix(First(), CanStep(), seen, tr);
    Verdict(from, m, seen, p, s, key);
    assert SawPresent(from, seen, key);
    PresentGrows(from, seen, tr, key);
  }

  class LazyList {
    const min: int
    const max: int
    const roFail: bool
    var heap: Mem
    ghost var tr: Run

    ghost predicate Valid()
      reads this
    {
      IsRun(tr) && tr.now == heap && 2 <= |heap| && heap[HEAD].key == min && heap[TAIL].key == max
    }

    constructor (min: int, max: int, roFail: bool)
      requires min < max
      ensures Valid() && Bindings(heap) == {}
      ensures this.min == min && this.max == max && this.roFail == roFail
      ensures forall r :: 0 <= r < |heap| ==> heap[r].lock == Free
    {
      heap := Init(min, max);
      tr := Start(Init(min, max));
      this.min, this.max, this.roFail := min, max, roFail;
      InitInv(min, max);
      RunBegins<Mem, Act>(First(), CanStep(), Init(min, max));
    }

    /** One step of thread `t`. */
    method Record(t: nat, a: Act)
      requires Valid() && Enabled(heap, t, a)
      modifies this
      ensures Valid() && heap == Do(old(heap), t, a) && tr == Then(old(tr), t, a, heap)
      ensures forall u: nat :: u != t || !(a.Link? || a.Mark?) ==> Calm(old(tr), tr, u)
    {
      RunIsTame(tr, tr);
      StepKeeps(heap, t, a);
      RunGoesOn(First(), CanStep(), tr, t, a, Do(tr.now, t, a));
      forall u: nat | u != t || !(a.Link? || a.Mark?) ensures Calm(tr, Then(tr, t, a, Do(heap, t, a)), u) {
        CalmStep(tr, t, a, Do(heap, t, a), u);
      }
      heap := Do(heap, t, a);
      tr := Then(tr, t, a, heap);
    }

    /** The other threads run: any number of steps, each by any thread but `t`, each one the
        code enables. Every access to shared memory below comes after such a pause. */
    method Interfere(t: nat)
      requires Valid()
      modifies this
      ensures Valid() && Carried(old(heap), heap, t, NULL) && Held(heap, t) == Held(old(heap), t)
      ensures Calm(old(tr), tr, t) && (Calls.Alone(old(tr), tr, t) ==> tr == old(tr))
    {
      var n: nat := *;
      while n > 0
        invariant Valid() && Carried(old(heap), heap, t, NULL) && Held(heap, t) == Held(old(heap), t)
        invariant Calm(old(tr), tr, t) && (Calls.Alone(old(tr), tr, t) ==> tr == old(tr))
      {
        var u: nat, a: Act := *, *;
        if u != t && Enabled(heap, u, a) {
          ghost var h1, tr1 := heap, tr;
          ForeignStepCarries(heap, u, a, t);
          Record(u, a);
          CarriedTransitive(old(heap), h1, heap, t);
          CalmTransitive(old(tr), tr1, tr, t);
        }
        n := n - 1;
      }
    }

    /** Reads p->next. If `p` was reachable at moment `i`, it was reachable with that next at
        a moment `m` since then. */
    method ReadNext(t: nat, p: Ref, ghost i: Run) returns (s: Ref, ghost m: Run)
      requires Valid() && Within(i, tr) && OnChain(i.now, p) && p != TAIL
      modifies this
      ensures Valid() && Carried(old(heap), heap, t, NULL) && Held(heap, t) == Held(old(heap), t)
      ensures Calm(old(tr), tr, t)
      ensures PointsUp(heap, p) && s == heap[p].next
      ensures Within(i, m) && Within(m, tr) && Stands(m.now, p, s)
      ensures m.now[p].key == heap[p].key && m.now[s].key == heap[s].key
      ensures (Calls.Alone(old(tr), tr, t) ==> tr == old(tr)) && (OnChain(heap, p) ==> Stands(heap, p, s))
    {
      Interfere(t);
      RunIsTame(i, tr);
      if OnChain(heap, p) { NextInChain(heap, p); }
      m := TraversalStep(i, tr, p);
      s := heap[p].next;
    }

    method ReadMarked(t: nat, p: Ref) returns (b: bool)
      requires Valid() && In(heap, p)
      modifies this
      ensures Valid() && Carried(old(heap), heap, t, NULL) && Held(heap, t) == Held(old(heap), t)
      ensures Calm(old(tr), tr, t)
      ensures In(heap, p) && b == heap[p].marked && (Calls.Alone(old(tr), tr, t) ==> tr == old(tr))
    {
      Interfere(t);
      b := heap[p].marked;
    }

    /** The wait-free search. */
    method Search(t: nat, key: int) returns (res: int)
      requires Valid() && min < key < max
      modifies this
      ensures Valid() && Calm(old(tr), tr, t)
      ensures SawBinding(old(tr), tr, key, res) || (res == 0 && SawAbsent(old(tr), tr, key))
    {
      var curr := HEAD;
      ghost var pred, m := HEAD, tr;
      RunIsTame(tr, tr);
      ChainHasEnds(heap);
      while heap[curr].key < key
        invariant Valid() && Carried(old(heap), heap, t, NULL) && Held(heap, t) == Held(old(heap), t)
        invariant Calm(old(tr), tr, t)
        invariant Within(old(tr), m) && Within(m, tr) && In(heap, curr) && OnChain(m.now, curr)
        invariant curr != HEAD ==> Stands(m.now, pred, curr)
        invariant curr != HEAD ==> m.now[pred].key < key && m.now[curr].key == heap[curr].key
        decreases key - heap[curr].key
      {
        pred := curr;
        ghost var i, tr1 := m, tr;
        curr, m := ReadNext(t, curr, m);
        WithinTransitive(old(tr), i, m);
        CalmTransitive(old(tr), tr1, tr, t);
      }
      var marked := true;
      if heap[curr].key == key {
        marked := ReadMarked(t, curr);
      }
      res := if heap[curr].key == key && !marked then heap[curr].val else 0;
      Verdict(old(tr), m, tr, pred, curr, key);
    }

    /** The unlocked traversal that insert and remove start with. */
    method Parse(t: nat, key: int) returns (pred: Ref, curr: Ref, ghost m: Run)
      requires Valid() && min < key < max
      modifies this
      ensures Valid() && Carried(old(heap), heap, t, NULL) && Held(heap, t) == Held(old(heap), t)
      ensures Calm(old(tr), tr, t)
      ensures In(heap, pred) && In(heap, curr) && heap[pred].key < key <= heap[curr].key
      ensures Within(old(tr), m) && Within(m, tr) && Stands(m.now, pred, curr)
      ensures m.now[pred].key == heap[pred].key && m.now[curr].key == heap[curr].key
      ensures Calls.Alone(old(tr), tr, t) ==> tr == old(tr) && Stands(heap, pred, curr)
    {
      pred, m := HEAD, tr;
      RunIsTame(tr, tr);
      ChainHasEnds(heap);
      curr, m := ReadNext(t, pred, tr);
      while heap[curr].key < key
        invariant Valid() && Carried(old(heap), heap, t, NULL) && Held(heap, t) == Held(old(heap), t)
        invariant Calm(old(tr), tr, t)
        invariant Within(old(tr), m) && Within(m, tr) && Stands(m.now, pred, curr)
        invariant In(heap, pred) && In(heap, curr) && heap[pred].key < key
        invariant m.now[pred].key == heap[pred].key && m.now[curr].key == heap[curr].key
        invariant Calls.Alone(old(tr), tr, t) ==> tr == old(tr) && Stands(heap, pred, curr)
        decreases key - heap[curr].key
      {
        pred := curr;
        ghost var i, tr1 := m, tr;
        curr, m := ReadNext(t, curr, m);
        WithinTransitive(old(tr), i, m);
        CalmTransitive(old(tr), tr1, tr, t);
      }
    }

    /** Waits for the node's lock; false when the lock is never obtained in this run. */
    method LockNode(t: nat, n: Ref) returns (got: bool)
      requires Valid() && In(heap, n)
      modifies this
      ensures Valid() && Carried(old(heap), heap, t, NULL) && Calm(old(tr), tr, t)
      ensures got ==> heap[n].lock == By(t)
      ensures Calls.Alone(old(tr), tr, t) && old(heap)[n].lock == Free ==> got && heap == old(heap)[n := old(heap)[n].(lock := By(t))]
      ensures Held(heap, t) == if got then Held(old(heap), t) + {n} else Held(old(heap), t)
    {
      Interfere(t);
      got := heap[n].lock == Free;
      if got {
        ghost var tr1 := tr;
        Record(t, TakeLock(n));
        CalmTransitive(old(tr), tr1, tr, t);
      }
    }

    method UnlockNode(t: nat, n: Ref)
      requires Valid() && In(heap, n) && heap[n].lock == By(t)
      modifies this
      ensures Valid() && Carried(old(heap), heap, t, n) && Calm(old(tr), tr, t)
      ensures forall r :: 0 <= r < |old(heap)| && r != n && HeldBy(old(heap)[r].lock, t) ==> heap[r] == old(heap)[r]
      ensures Held(heap, t) == Held(old(heap), t) - {n}
    {
      Interfere(t);
      ghost var tr1 := tr;
      Record(t, DropLock(n));
      CalmTransitive(old(tr), tr1, tr, t);
    }

    /** Reads pred->marked, curr->marked and pred->next, in this order, under the lock of pred;
        `seen` is the moment of the second read. */
    method Validate(t: nat, pred: Ref, curr: Ref) returns (ok: bool, ghost seen: Run)
      requires Valid() && In(heap, pred) && In(heap, curr) && heap[pred].lock == By(t)
      modifies this
      ensures Valid() && Carried(old(heap), heap, t, NULL) && Held(heap, t) == Held(old(heap), t)
      ensures Calm(old(tr), tr, t)
      ensures ok ==> !heap[pred].marked && heap[pred].next == curr
      ensures ok && old(heap)[curr].lock == By(t) ==> !heap[curr].marked
      ensures ok ==> Within(old(tr), seen) && Within(seen, tr) && In(seen.now, curr) && !seen.now[curr].marked
      ensures Calls.Alone(old(tr), tr, t) ==>
        tr == old(tr) && (ok <==> !heap[pred].marked && !heap[curr].marked && heap[pred].next == curr)
    {
      Interfere(t);
      ok := !heap[pred].marked;
      if ok {
        var m := ReadMarked(t, curr);
        ok := !m;
      }
      seen := tr;
      if ok {
        Interfere(t);
        ok := heap[pred].next == curr;
      }
    }

    /** pred->next = newnode */
    method StoreNew(t: nat, pred: Ref, curr: Ref, key: int, val: int, ghost from: Run)
      requires Valid() && Quiet(from, tr, t) && In(heap, pred) && In(heap, curr) && heap[pred].lock == By(t)
      requires !heap[pred].marked && heap[pred].next == curr && heap[pred].key < key < heap[curr].key
      modifies this
      ensures Valid() && Held(heap, t) == Held(old(heap), t) && In(heap, pred) && heap[pred].lock == By(t)
      ensures Added(from, tr, t, key, val) && Calls.Foreign(old(tr), t) <= Calls.Foreign(tr, t)
    {
      Interfere(t);
      RunIsTame(tr, tr);
      StepKeeps(heap, t, Link(pred, curr, key, val));
      Record(t, Link(pred, curr, key, val));
      AddStep(from, tr, t, key, val);
    }

    /** The part of insert that runs under the lock of `pred`: -1 when validation fails. */
    method InsertLocked(t: nat, pred: Ref, curr: Ref, key: int, val: int, ghost from: Run, ghost m: Run) returns (result: int)
      requires Valid() && min < key < max && Held(heap, t) == {pred} && Quiet(from, tr, t)
      requires In(heap, pred) && In(heap, curr) && heap[pred].lock == By(t) && heap[pred].key < key <= heap[curr].key
      requires Within(from, m) && Within(m, tr) && Stands(m.now, pred, curr)
      requires m.now[pred].key == heap[pred].key && m.now[curr].key == heap[curr].key
      modifies this
      ensures Valid() && Held(heap, t) == {pred} && In(heap, pred) && heap[pred].lock == By(t)
      ensures result == -1 || result == 0 || result == 1
      ensures if result == 1 then Added(from, tr, t, key, val) else Quiet(from, tr, t)
      ensures result == 0 ==> SawPresent(from, tr, key)
      ensures Calls.Foreign(old(tr), t) <= Calls.Foreign(tr, t)
      ensures Calls.Alone(old(tr), tr, t) && !old(heap)[pred].marked && !old(heap)[curr].marked && old(heap)[pred].next == curr ==> result >= 0
    {
      result := -1;
      var valid;
      ghost var seen;
      valid, seen := Validate(t, pred, curr);
      if valid {
        result := if heap[curr].key != key then 1 else 0;
        if result == 1 {
          StoreNew(t, pred, curr, key, val, from);
        } else {
          WithinTransitive(m, old(tr), seen);
          SawUnmarked(from, m, seen, tr, pred, curr, key);
        }
      }
    }

    /** The second half of a round of insert: lock, validate and link, unlock. */
    method LockAndInsert(t: nat, key: int, val: int, pred: Ref, curr: Ref, ghost from: Run, ghost m: Run) returns (result: int, stuck: bool)
      requires Valid() && min < key < max && Held(heap, t) == {} && Quiet(from, tr, t)
      requires In(heap, pred) && In(heap, curr) && heap[pred].key < key <= heap[curr].key
      requires Within(from, m) && Within(m, tr) && Stands(m.now, pred, curr)
      requires m.now[pred].key == heap[pred].key && m.now[curr].key == heap[curr].key
      modifies this
      ensures Valid() && (!stuck ==> Held(heap, t) == {}) && Calls.Foreign(old(tr), t) <= Calls.Foreign(tr, t)
      ensures result == -1 || result == 0 || result == 1
      ensures if result == 1 then Added(from, tr, t, key, val) else Quiet(from, tr, t)
      ensures result == 0 ==> SawPresent(from, tr, key)
      ensures stuck ==> result == -1
      ensures Calls.Alone(old(tr), tr, t) && Ready(old(heap), pred, curr) ==> result >= 0
    {
      result, stuck := -1, false;
      var got := LockNode(t, pred);
      if !got {
        stuck := true;
      } else {
        result := InsertLocked(t, pred, curr, key, val, from, m);
        ghost var tr1 := tr;
        UnlockNode(t, pred);
        if result == 0 { PresentGrows(from, tr1, tr, key); }
      }
    }

    /** One round of insert's loop: -1 when it has to be repeated; `stuck` when it waits for
        a lock for ever. */
    method TryInsert(t: nat, key: int, val: int, ghost from: Run) returns (result: int, stuck: bool)
      requires Valid() && min < key < max && Held(heap, t) == {} && Quiet(from, tr, t)
      modifies this
      ensures Valid() && (!stuck ==> Held(heap, t) == {})
      ensures result == -1 || result == 0 || result == 1
      ensures if result == 1 then Added(from, tr, t, key, val) else Quiet(from, tr, t)
      ensures result == 0 ==> SawPresent(from, tr, key)
      ensures stuck ==> result == -1
      ensures Calls.Foreign(old(tr), t) <= Calls.Foreign(tr, t)
      ensures Calls.Alone(old(tr), tr, t) && Idle(old(heap)) ==> result >= 0
    {
      RunIsTame(tr, tr);
      result, stuck := -1, false;
      var pred, curr;
      ghost var m;
      pred, curr, m := Parse(t, key);
      WithinTransitive(from, old(tr), m);
      if roFail && heap[curr].key == key {
        var marked := ReadMarked(t, curr);
        if !marked {
          Verdict(from, m, tr, pred, curr, key);
          result := 0;
        }
        return;
      }
      result, stuck := LockAndInsert(t, key, val, pred, curr, from, m);
    }

    /** Inserts the pair; `rounds` bounds how often the loop runs in this run, None means that
        the call has not returned. A call that begins while no lock is held and that nobody
        disturbs returns in its first round, and leaves no lock held. */
    method Insert(t: nat, key: int, val: int, rounds: nat) returns (r: Option<int>)
      requires Valid() && min < key < max && Held(heap, t) == {}
      modifies this
      ensures Valid() && (r.Some? ==> Held(heap, t) == {})
      ensures match r
        case Some(1) => Added(old(tr), tr, t, key, val)
        case Some(n) => n == 0 && Quiet(old(tr), tr, t) && SawPresent(old(tr), tr, key)
        case None => Quiet(old(tr), tr, t)
      ensures r.None? ==> rounds == 0 || !Idle(old(heap)) || !Calls.Alone(old(tr), tr, t)
      ensures r.Some? && Idle(old(heap)) && Calls.Alone(old(tr), tr, t) ==> Idle(heap)
    {
      var n := rounds;
      NothingYet(tr, t);
      assert Within(tr, tr);
      while n > 0
        invariant Valid() && Held(heap, t) == {} && Quiet(old(tr), tr, t) && Calls.Foreign(old(tr), t) <= Calls.Foreign(tr, t)
        invariant if n == rounds then tr == old(tr) else !Idle(old(heap)) || !Calls.Alone(old(tr), tr, t)
      {
        var result, stuck := TryInsert(t, key, val, old(tr));
        if stuck { return None; }
        if result >= 0 {
          AddedSince(old(tr), tr, t, key, val);
          AloneEndsIdle(old(tr), tr, t);
          return Some(result);
        }
        n := n - 1;
      }
      r := None;
    }

    /** curr->marked = 1 */
    method StoreMark(t: nat, pred: Ref, curr: Ref, ghost from: Run)
      requires Valid() && Quiet(from, tr, t) && In(heap, pred) && In(heap, curr) && curr != TAIL && curr != pred
      requires heap[pred].lock == By(t) && heap[curr].lock == By(t)
      requires !heap[pred].marked && !heap[curr].marked && heap[pred].next == curr
      modifies this
      ensures Valid() && Held(heap, t) == Held(old(heap), t) && Removed(from, tr, t, old(heap[curr].key), old(heap[curr].val))
      ensures In(heap, pred) && In(heap, curr) && heap[pred] == old(heap[pred]) && heap[curr] == old(heap[curr]).(marked := true, lock := Leaving(t))
      ensures Calls.Foreign(old(tr), t) <= Calls.Foreign(tr, t)
    {
      Interfere(t);
      RunIsTame(tr, tr);
      StepKeeps(heap, t, Mark(pred, curr));
      Record(t, Mark(pred, curr));
      RemoveStep(from, tr, t, heap[curr].key, heap[curr].val);
    }

    /** pred->next = c_next */
    method StoreUnlink(t: nat, pred: Ref, curr: Ref, next: Ref)
      requires Valid() && Enabled(heap, t, Unlink(pred, curr, next)) && pred != curr
      modifies this
      ensures Valid() && Held(heap, t) == Held(old(heap), t) && Calm(old(tr), tr, t)
      ensures In(heap, pred) && In(heap, curr) && heap[pred].lock == By(t) && heap[curr].lock == By(t)
    {
      Interfere(t);
      ghost var tr1 := tr;
      Record(t, Unlink(pred, curr, next));
      CalmTransitive(old(tr), tr1, tr, t);
    }

    /** Reads value and next, marks the node and unlinks it. */
    method MarkAndUnlink(t: nat, pred: Ref, curr: Ref, ghost from: Run) returns (result: int)
      requires Valid() && Quiet(from, tr, t) && In(heap, pred) && In(heap, curr) && curr != TAIL && curr != pred
      requires heap[pred].lock == By(t) && heap[curr].lock == By(t)
      requires !heap[pred].marked && !heap[curr].marked && heap[pred].next == curr
      modifies this
      ensures Valid() && Held(heap, t) == Held(old(heap), t) && Calls.Foreign(old(tr), t) <= Calls.Foreign(tr, t)
      ensures In(heap, pred) && In(heap, curr) && heap[pred].lock == By(t) && heap[curr].lock == By(t)
      ensures Removed(from, tr, t, old(heap[curr].key), result)
    {
      result := heap[curr].val;
      Interfere(t);
      var next := heap[curr].next;
      StoreMark(t, pred, curr, from);
      StoreUnlink(t, pred, curr, next);
    }

    /** The part of remove that runs under both locks. */
    method RemoveLocked(t: nat, pred: Ref, curr: Ref, key: int, ghost from: Run, ghost m: Run) returns (result: int, done: bool)
      requires Valid() && min < key < max && Quiet(from, tr, t) && curr != pred
      requires In(heap, pred) && In(heap, curr) && heap[pred].lock == By(t) && heap[curr].lock == By(t)
      requires heap[pred].key < key <= heap[curr].key
      requires Within(from, m) && Within(m, tr) && Stands(m.now, pred, curr)
      requires m.now[pred].key == heap[pred].key && m.now[curr].key == heap[curr].key
      modifies this
      ensures Valid() && Held(heap, t) == Held(old(heap), t) && Calls.Foreign(old(tr), t) <= Calls.Foreign(tr, t)
      ensures In(heap, pred) && In(heap, curr) && heap[pred].lock == By(t) && heap[curr].lock == By(t)
      ensures Calls.Alone(old(tr), tr, t) && !old(heap)[pred].marked && !old(heap)[curr].marked && old(heap)[pred].next == curr ==> done
      ensures !done ==> Quiet(from, tr, t)
      ensures done ==> Removed(from, tr, t, key, result) || (result == 0 && Quiet(from, tr, t) && SawAbsent(from, tr, key))
    {
      result, done := 0, false;
      var valid;
      ghost var seen;
      valid, seen := Validate(t, pred, curr);
      if valid {
        if key == heap[curr].key {
          result := MarkAndUnlink(t, pred, curr, from);
        } else {
          Verdict(from, m, tr, pred, curr, key);
        }
        done := true;
      }
    }

    /** LOCK(pred); LOCK(curr) */
    method LockPair(t: nat, pred: Ref, curr: Ref) returns (got: bool)
      requires Valid() && In(heap, pred) && In(heap, curr) && pred != curr && Held(heap, t) == {}
      modifies this
      ensures Valid() && Carried(old(heap), heap, t, NULL) && Calm(old(tr), tr, t)
      ensures got ==> Held(heap, t) == {pred, curr} && heap[pred].lock == By(t) && heap[curr].lock == By(t)
      ensures Calls.Alone(old(tr), tr, t) && old(heap)[pred].lock == Free == old(heap)[curr].lock ==>
        got && heap == old(heap)[pred := old(heap)[pred].(lock := By(t))][curr := old(heap)[curr].(lock := By(t))]
    {
      got := LockNode(t, pred);
      if got {
        ghost var h1, tr1 := heap, tr;
        got := LockNode(t, curr);
        CarriedTransitive(old(heap), h1, heap, t);
        CalmTransitive(old(tr), tr1, tr, t);
      }
    }

    /** The second half of a round of remove: lock, validate, mark and unlink, unlock. */
    method LockAndRemove(t: nat, key: int, pred: Ref, curr: Ref, ghost from: Run, ghost m: Run) returns (result: int, done: bool, stuck: bool)
      requires Valid() && min < key < max && Held(heap, t) == {} && Quiet(from, tr, t)
      requires In(heap, pred) && In(heap, curr) && heap[pred].key < key <= heap[curr].key
      requires Within(from, m) && Within(m, tr) && Stands(m.now, pred, curr)
      requires m.now[pred].key == heap[pred].key && m.now[curr].key == heap[curr].key
      modifies this
      ensures Valid() && (!stuck ==> Held(heap, t) == {}) && (stuck ==> !done) && Calls.Foreign(old(tr), t) <= Calls.Foreign(tr, t)
      ensures !done ==> Quiet(from, tr, t)
      ensures done ==> Removed(from, tr, t, key, result) || (result == 0 && Quiet(from, tr, t) && SawAbsent(from, tr, key))
      ensures Calls.Alone(old(tr), tr, t) && Ready(old(heap), pred, curr) ==> done
    {
      result, done, stuck := 0, false, false;
      var got := LockPair(t, pred, curr);
      if !got {
        stuck := true;
      } else {
        result, done := RemoveLocked(t, pred, curr, key, from, m);
        ghost var tr1 := tr;
        UnlockNode(t, curr);
        UnlockNode(t, pred);
        if done && SawAbsent(from, tr1, key) { AbsentGrows(from, tr1, tr, key); }
      }
    }

    /** One round of remove's loop: `done` when it returns; `stuck` when it waits for a lock
        for ever. */
    method TryRemove(t: nat, key: int, ghost from: Run) returns (result: int, done: bool, stuck: bool)
      requires Valid() && min < key < max && Held(heap, t) == {} && Quiet(from, tr, t)
      modifies this
      ensures Valid() && (!stuck ==> Held(heap, t) == {}) && (stuck ==> !done)
      ensures Calls.Foreign(old(tr), t) <= Calls.Foreign(tr, t)
      ensures Calls.Alone(old(tr), tr, t) && Idle(old(heap)) ==> done
      ensures !done ==> Quiet(from, tr, t)
      ensures done ==> Removed(from, tr, t, key, result) || (result == 0 && Quiet(from, tr, t) && SawAbsent(from, tr, key))
    {
      result, done, stuck := 0, false, false;
      RunIsTame(tr, tr);
      var pred, curr;
      ghost var m;
      pred, curr, m := Parse(t, key);
      WithinTransitive(from, old(tr), m);
      if roFail && heap[curr].key != key {
        Verdict(from, m, tr, pred, curr, key);
        done := true;
        return;
      }
      result, done, stuck := LockAndRemove(t, key, pred, curr, from, m);
    }

    /** Removes the key: its value, of a node that is off the list when the call returns, or 0 when
        the key was absent; None means that the call has not returned in this run. A call that
        begins while no lock is held and that nobody disturbs returns in its first round. */
    method Remove(t: nat, key: int, rounds: nat) returns (r: Option<int>)
      requires Valid() && min < key < max && Held(heap, t) == {}
      modifies this
      ensures Valid() && (r.Some? ==> Held(heap, t) == {})
      ensures match r
        case Some(v) => RemovedForGood(old(tr), tr, t, key, v) || (v == 0 && Quiet(old(tr), tr, t) && SawAbsent(old(tr), tr, key))
        case None => Quiet(old(tr), tr, t)
      ensures r.None? ==> rounds == 0 || !Idle(old(heap)) || !Calls.Alone(old(tr), tr, t)
      ensures r.Some? && Idle(old(heap)) && Calls.Alone(old(tr), tr, t) ==> Idle(heap)
    {
      var n := rounds;
      NothingYet(tr, t);
      assert Within(tr, tr);
      while n > 0
        invariant Valid() && Held(heap, t) == {} && Quiet(old(tr), tr, t) && Calls.Foreign(old(tr), t) <= Calls.Foreign(tr, t)
        invariant if n == rounds then tr == old(tr) else !Idle(old(heap)) || !Calls.Alone(old(tr), tr, t)
      {
        var result, done, stuck := TryRemove(t, key, old(tr));
        if done {
          if Removed(old(tr), tr, t, key, result) {
            RemovedIsOff(old(tr), tr, t, key, result);
            RemovedSince(old(tr), tr, t, key, result);
          }
          AloneEndsIdle(old(tr), tr, t);
          return Some(result);
        }
        if stuck { return None; }
        n := n - 1;
      }
      r := None;
    }
  }
}
