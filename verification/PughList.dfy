/** Pugh's list: instead of marking a node, remove turns its next pointer back to the
    predecessor. Traversals may therefore go backwards, and there is a window in which a node
    is unlinked but not reversed yet. */
module PughList {
  import opened History
  import opened ListModel
  import Calls

  /** Who holds a node's lock. `Unlinking` is the locked predecessor and `Leaving` the locked
      node while a remove is between its two pointer writes; the lock word itself does not
      tell the three held states apart. */
  datatype Lock =
    | Free
    | By(t: nat)
    | Unlinking(t: nat, victim: Ref)
    | Leaving(t: nat, left: Ref)

  type Mem = Heap<Lock>

  datatype Act =
    | TakeLock(n: Ref)
    | DropLock(n: Ref)
    | Link(left: Ref, right: Ref, key: int, val: int)   // left->next = n
    | Unlink(left: Ref, right: Ref, next: Ref)          // left->next = right->next
    | Reverse(right: Ref, left: Ref)                    // right->next = left

  predicate Enabled(h: Mem, t: nat, a: Act) {
    match a
    case TakeLock(n) => In(h, n) && h[n].lock == Free
    case DropLock(n) => In(h, n) && h[n].lock == By(t)
    case Link(l, r, key, val) =>
      In(h, l) && In(h, r) && h[l].lock == By(t) && h[l].next == r && h[l].key < key < h[r].key
    case Unlink(l, r, next) =>
      && In(h, l) && In(h, r) && r != TAIL && h[l].lock == By(t) && h[r].lock == By(t)
      && h[l].next == r && h[l].key < h[r].key && h[r].next == next
    case Reverse(r, l) => In(h, r) && In(h, l) && h[r].lock == Leaving(t, l)
  }

  function Do(h: Mem, t: nat, a: Act): Mem
    requires Enabled(h, t, a)
  {
    match a
    case TakeLock(n) => h[n := h[n].(lock := By(t))]
    case DropLock(n) => h[n := h[n].(lock := Free)]
    case Link(l, r, key, val) => h[l := h[l].(next := |h|)] + [Cell(key, val, r, false, Free)]
    case Unlink(l, r, next) =>
      h[l := h[l].(next := next, lock := Unlinking(t, r))][r := h[r].(lock := Leaving(t, l))]
    case Reverse(r, l) => h[r := h[r].(next := l, lock := By(t))][l := h[l].(lock := By(t))]
  }

  /** Where a node can be in its life: reachable; unlinked but not reversed, while its live
      predecessor is still locked and has the same next; or removed, pointing to a smaller key
      for ever. */
  ghost predicate InLife(h: Mem, r: Ref)
    requires In(h, r)
  {
    match h[r].lock
    case Leaving(t, l) =>
      && !OnChain(h, r) && OnChain(h, l) && l != TAIL && h[l].lock == Unlinking(t, r)
      && h[l].next == h[r].next && h[l].key < h[r].key && PointsUp(h, r)
    case Unlinking(t, v) => OnChain(h, r) && In(h, v) && h[v].lock == Leaving(t, r)
    case _ => OnChain(h, r) || PointsDown(h, r)
  }

  ghost predicate PointsDown(h: Mem, r: Ref)
    requires In(h, r)
  {
    In(h, h[r].next) && h[h[r].next].key < h[r].key
  }

  ghost predicate Inv(h: Mem) {
    && Good(h)
    && (forall r :: 0 <= r < |h| ==> !h[r].marked)
    && (forall r {:trigger InLife(h, r)} :: 0 <= r < |h| ==> InLife(h, r))
  }

  function Init(min: int, max: int): Mem {
    [Cell(min, 0, TAIL, false, Free), Cell(max, 0, NULL, false, Free)]
  }

  lemma InitInv(min: int, max: int)
    requires min < max
    ensures Inv(Init(min, max)) && Bindings(Init(min, max)) == {}
  {
    assert Reaches(Init(min, max), TAIL, TAIL);
  }

  /** A node whose lock is simply held and whose next has a larger key is live: it is the lock
      that tells a live node from one that is being removed. */
  lemma LockedAndUpIsLive(h: Mem, t: nat, n: Ref)
    requires Inv(h) && In(h, n) && h[n].lock == By(t) && PointsUp(h, n)
    ensures OnChain(h, n) && n != TAIL
  {
    assert InLife(h, n);
  }

  /** The read on which a weak search ends decides: stepping from a node before the key, in
      whatever state it is, to one not before it, the key is in the set at that instant exactly
      when the latter has it. */
  lemma WeakStepDecides(h: Mem, p: Ref, key: int)
    requires Inv(h) && In(h, p) && In(h, h[p].next) && h[HEAD].key < key < h[TAIL].key
    requires h[p].key < key <= h[h[p].next].key
    ensures h[h[p].next].key == key ==> (key, h[h[p].next].val) in Bindings(h)
    ensures h[h[p].next].key != key ==> Absent(h, key)
  {
    assert InLife(h, p);
    var q := if h[p].lock.Leaving? then h[p].lock.left else p;
    NextInChain(h, q);
    if h[h[p].next].key == key {
      assert Counts(h, h[q].next);
    } else {
      GapAbsent(h, q, key);
    }
  }

  lemma LinkKeeps(h: Mem, t: nat, l: Ref, r: Ref, key: int, val: int)
    requires Inv(h) && Enabled(h, t, Link(l, r, key, val))
    ensures var h' := Do(h, t, Link(l, r, key, val));
      Inv(h') && Absent(h, key) && Bindings(h') == Bindings(h) + {(key, val)}
  {
    var h' := Do(h, t, Link(l, r, key, val));
    LockedAndUpIsLive(h, t, l);
    ChainLink(h, h', l, Cell(key, val, r, false, Free));
    BindingsGain(h, h');
    forall x | 0 <= x < |h'| ensures InLife(h', x) {
      if x < |h| { assert InLife(h, x); }
    }
  }

  lemma UnlinkKeeps(h: Mem, t: nat, l: Ref, r: Ref, next: Ref)
    requires Inv(h) && Enabled(h, t, Unlink(l, r, next))
    ensures var h' := Do(h, t, Unlink(l, r, next));
      Inv(h') && (h[r].key, h[r].val) in Bindings(h) && Bindings(h') == Bindings(h) - {(h[r].key, h[r].val)}
  {
    var h' := Do(h, t, Unlink(l, r, next));
    var h1 := h[l := h[l].(next := next)];
    LockedAndUpIsLive(h, t, l);
    NextInChain(h, l);
    NextInChain(h, r);
    ChainSnip(h, h1, l, [r], next);
    ChainFrame(h1, h');
    BindingsLose(h, h', r);
    forall x | 0 <= x < |h'| ensures InLife(h', x) {
      assert InLife(h, x);
    }
  }

  lemma ReverseKeeps(h: Mem, t: nat, r: Ref, l: Ref)
    requires Inv(h) && Enabled(h, t, Reverse(r, l))
    ensures var h' := Do(h, t, Reverse(r, l));
      Inv(h') && Bindings(h') == Bindings(h)
  {
    var h' := Do(h, t, Reverse(r, l));
    assert InLife(h, r);
    ChainFrame(h, h');
    BindingsSame(h, h');
    forall x | 0 <= x < |h'| ensures InLife(h', x) {
      assert InLife(h, x);
    }
  }

  lemma LockKeeps(h: Mem, t: nat, a: Act)
    requires Inv(h) && Enabled(h, t, a) && (a.TakeLock? || a.DropLock?)
    ensures Inv(Do(h, t, a)) && Bindings(Do(h, t, a)) == Bindings(h)
  {
    var h' := Do(h, t, a);
    ChainFrame(h, h');
    BindingsSame(h, h');
    forall x | 0 <= x < |h'| ensures InLife(h', x) {
      assert InLife(h, x);
    }
  }

  /** One atomic step by any thread keeps the invariant and changes the set only by a link or
      an unlink; the reversal is invisible. */
  lemma StepKeeps(h: Mem, t: nat, a: Act)
    requires Inv(h) && Enabled(h, t, a)
    ensures Inv(Do(h, t, a))
    ensures match a
      case Link(_, _, key, val) => Absent(h, key) && Bindings(Do(h, t, a)) == Bindings(h) + {(key, val)}
      case Unlink(_, r, _) => (h[r].key, h[r].val) in Bindings(h) && Bindings(Do(h, t, a)) == Bindings(h) - {(h[r].key, h[r].val)}
      case _ => Bindings(Do(h, t, a)) == Bindings(h)
  {
    match a
    case Link(l, r, key, val) => LinkKeeps(h, t, l, r, key, val);
    case Unlink(l, r, next) => UnlinkKeeps(h, t, l, r, next);
    case Reverse(r, l) => ReverseKeeps(h, t, r, l);
    case _ => LockKeeps(h, t, a);
  }

  lemma NextExists(h: Mem, p: Ref)
    requires Inv(h) && In(h, p) && p != TAIL
    ensures In(h, h[p].next) && (PointsUp(h, p) || PointsDown(h, p))
  {
    assert InLife(h, p);
    if OnChain(h, p) { NextInChain(h, p); }
  }

  // ---------------------------------------------------------------- runs

  type Run = Trace<Mem, Act>

  /** A run begins in any state that satisfies the invariant and goes on by enabled steps of any
      threads. */
  ghost function First(): Mem -> bool {
    h => Inv(h)
  }

  ghost function CanStep(): (Mem, nat, Act, Mem) -> bool {
    (h: Mem, t: nat, a: Act, h': Mem) => Enabled(h, t, a) && h' == Do(h, t, a)
  }

  ghost predicate IsRun(tr: Run) {
    IsRunOf(First(), CanStep(), tr)
  }

  /** Safety over whole runs: the invariant holds in every state. */
  lemma RunInv(tr: Run)
    requires IsRun(tr)
    ensures Inv(tr.now)
  {
    forall h, t, a, h' | First()(h) && CanStep()(h, t, a, h') ensures First()(h') { StepKeeps(h, t, a); }
    RunKeeps(First(), CanStep(), First(), tr);
  }

  /** Completely removed: unreachable, and its remove is past the reversal. */
  ghost predicate IsRemoved(h: Mem, r: Ref) {
    In(h, r) && !OnChain(h, r) && !h[r].lock.Leaving?
  }

  /** A completely removed node stays removed and points to the same smaller key for ever, so
      no later insert or remove links through it. */
  lemma {:induction false} RemovedForEver(m: Run, tr: Run, r: Ref)
    requires IsRun(tr) && Within(m, tr) && IsRemoved(m.now, r)
    ensures IsRemoved(tr.now, r) && tr.now[r].next == m.now[r].next && PointsDown(tr.now, r)
    decreases tr
  {
    LastStep(First(), CanStep(), tr);
    RunInv(tr);
    assert InLife(tr.now, r) by { if m != tr { RunPrefix(First(), CanStep(), tr.before, tr); RemovedForEver(m, tr.before, r); } }
    if m != tr {
      RunPrefix(First(), CanStep(), tr.before, tr);
      RemovedForEver(m, tr.before, r);
      RunInv(tr.before);
      RemovedStep(tr.before.now, tr.who, tr.act, r);
    }
  }

  lemma RemovedStep(h: Mem, t: nat, a: Act, r: Ref)
    requires Inv(h) && Enabled(h, t, a) && IsRemoved(h, r)
    ensures IsRemoved(Do(h, t, a), r) && Do(h, t, a)[r].next == h[r].next
  {
    var h' := Do(h, t, a);
    match a
    case Link(l, right, key, val) =>
      LockedAndUpIsLive(h, t, l);
      ChainLink(h, h', l, Cell(key, val, right, false, Free));
    case Unlink(l, right, next) =>
      var h1 := h[l := h[l].(next := next)];
      LockedAndUpIsLive(h, t, l);
      NextInChain(h, l);
      NextInChain(h, right);
      ChainSnip(h, h1, l, [right], next);
      ChainFrame(h1, h');
    case Reverse(right, l) =>
      assert InLife(h, right);
      ChainFrame(h, h');
    case _ =>
      ChainFrame(h, h');
  }

  // ---------------------------------------------------------------- the code

  ghost function Held(h: Mem, t: nat): set<Ref> {
    set r | 0 <= r < |h| && HeldBy(h[r].lock, t)
  }

  predicate HeldBy(l: Lock, t: nat) {
    !l.Free? && l.t == t
  }

  /** One cell before and after: key and value stay, and nothing changes while thread `t` holds
      the lock. */
  ghost predicate CellKept(c: Cell<Lock>, c': Cell<Lock>, t: nat) {
    c'.key == c.key && c'.val == c.val && (HeldBy(c.lock, t) ==> c' == c)
  }

  ghost predicate Carried(h: Mem, h': Mem, t: nat) {
    |h| <= |h'| && forall r :: 0 <= r < |h| ==> CellKept(h[r], h'[r], t)
  }

  lemma CarriedTransitive(h0: Mem, h1: Mem, h2: Mem, t: nat)
    requires Carried(h0, h1, t) && Carried(h1, h2, t)
    ensures Carried(h0, h2, t)
  {
  }

  lemma ForeignStepCarries(h: Mem, u: nat, a: Act, t: nat)
    requires Inv(h) && Enabled(h, u, a) && u != t
    ensures Carried(h, Do(h, u, a), t) && Held(Do(h, u, a), t) == Held(h, t)
  {
    if a.Reverse? { assert InLife(h, a.right); }
  }

  // ---------------------------------------------------------------- calls that nobody disturbs

  /** No lock is held. */
  ghost predicate Idle(h: Mem) {
    forall r :: 0 <= r < |h| ==> h[r].lock == Free
  }

  ghost predicate NoOthers(h: Mem, t: nat) {
    forall r :: 0 <= r < |h| ==> h[r].lock == Free || HeldBy(h[r].lock, t)
  }

  /** A thread that is alone and has released all locks leaves none held. */
  lemma {:induction false} AloneKeepsOut(m: Run, tr: Run, t: nat)
    requires IsRun(tr) && Within(m, tr) && Calls.Alone(m, tr, t) && NoOthers(m.now, t)
    ensures NoOthers(tr.now, t)
    decreases tr
  {
    if m != tr {
      LastStep(First(), CanStep(), tr);
      Calls.ForeignGrows(m, tr.before, t);
      AloneKeepsOut(m, tr.before, t);
    }
  }

  lemma AloneEndsIdle(m: Run, tr: Run, t: nat)
    requires IsRun(tr) && Within(m, tr) && Held(tr.now, t) == {}
    ensures Calls.Alone(m, tr, t) && Idle(m.now) ==> Idle(tr.now)
  {
    if Calls.Alone(m, tr, t) && Idle(m.now) {
      AloneKeepsOut(m, tr, t);
      forall r | 0 <= r < |tr.now| ensures tr.now[r].lock == Free { assert r !in Held(tr.now, t); }
    }
  }

  class PughList {
    const min: int
    const max: int
    const roFail: bool
    var heap: Mem
    ghost var tr: Run

    ghost predicate Valid()
      reads this
    {
      IsRun(tr) && tr.now == heap && 2 <= |heap| && heap[HEAD].key == min && heap[TAIL].key == max
    }

    constructor (min: int, max: int, roFail: bool)
      requires min < max
      ensures Valid() && Bindings(heap) == {} && this.min == min && this.max == max && this.roFail == roFail
    {
      heap := Init(min, max);
      tr := Start(Init(min, max));
      this.min, this.max, this.roFail := min, max, roFail;
      InitInv(min, max);
      RunBegins<Mem, Act>(First(), CanStep(), Init(min, max));
    }

    /** One step of thread `t`. */
    method Record(t: nat, a: Act)
      requires Valid() && Enabled(heap, t, a)
      modifies this
      ensures Valid() && heap == Do(old(heap), t, a) && tr == Then(old(tr), t, a, heap)
      ensures forall u: nat :: u != t || !(a.Link? || a.Unlink?) ==> Calm(old(tr), tr, u)
    {
      RunInv(tr);
      StepKeeps(heap, t, a);
      RunGoesOn(First(), CanStep(), tr, t, a, Do(tr.now, t, a));
      forall u: nat | u != t || !(a.Link? || a.Unlink?) ensures Calm(tr, Then(tr, t, a, Do(heap, t, a)), u) {
        CalmStep(tr, t, a, Do(heap, t, a), u);
      }
      heap := Do(heap, t, a);
      tr := Then(tr, t, a, heap);
    }

    /** The other threads run: any number of steps, each by any thread but `t`, each one the
        code enables. Every access to shared memory below comes after such a pause. */
    method Interfere(t: nat)
      requires Valid()
      modifies this
      ensures Valid() && Carried(old(heap), heap, t) && Held(heap, t) == Held(old(heap), t)
      ensures Calm(old(tr), tr, t) && (Calls.Alone(old(tr), tr, t) ==> tr == old(tr))
    {
      var n: nat := *;
      while n > 0
        invariant Valid() && Carried(old(heap), heap, t) && Held(heap, t) == Held(old(heap), t)
        invariant Calm(old(tr), tr, t) && (Calls.Alone(old(tr), tr, t) ==> tr == old(tr))
      {
        var u: nat, a: Act := *, *;
        if u != t && Enabled(heap, u, a) {
          ghost var h1, tr1 := heap, tr;
          RunInv(tr);
          ForeignStepCarries(heap, u, a, t);
          Record(u, a);
          CarriedTransitive(old(heap), h1, heap, t);
          CalmTransitive(old(tr), tr1, tr, t);
        }
        n := n - 1;
      }
    }

    /** Reads p->next of a node before the key. When the read crosses the key it decides. */
    method ReadNext(t: nat, p: Ref, key: int, ghost from: Run) returns (s: Ref)
      requires Valid() && In(heap, p) && min < key < max && heap[p].key < key && Within(from, tr)
      modifies this
      ensures Valid() && Carried(old(heap), heap, t) && Held(heap, t) == Held(old(heap), t)
      ensures Calm(old(tr), tr, t)
      ensures In(heap, p) && s == heap[p].next && In(heap, s)
      ensures heap[s].key == key ==> SawBinding(from, tr, key, heap[s].val)
      ensures heap[s].key > key ==> SawAbsent(from, tr, key)
      ensures (Calls.Alone(old(tr), tr, t) ==> tr == old(tr)) && (OnChain(heap, p) ==> Stands(heap, p, s))
    {
      Interfere(t);
      RunInv(tr);
      NextExists(heap, p);
      if OnChain(heap, p) { NextInChain(heap, p); }
      s := heap[p].next;
      if key <= heap[s].key { WeakStepDecides(heap, p, key); }
      assert Within(tr, tr) && tr.now == heap;
    }

    /** search_weak_right and the test in search; None when the traversal has not ended within
        `steps` reads. */
    method Search(t: nat, key: int, steps: nat) returns (r: Option<int>)
      requires Valid() && min < key < max
      modifies this
      ensures Valid() && Calm(old(tr), tr, t)
      ensures r.Some? ==> SawBinding(old(tr), tr, key, r.value) || (r.value == 0 && SawAbsent(old(tr), tr, key))
      ensures r.None? ==> steps < key - min || !Calls.Alone(old(tr), tr, t)
    {
      RunInv(tr);
      ChainHasEnds(heap);
      var succ := ReadNext(t, HEAD, key, old(tr));
      var n := steps;
      while heap[succ].key < key
        invariant Valid() && Carried(old(heap), heap, t) && Calm(old(tr), tr, t) && In(heap, succ) && Within(old(tr), tr)
        invariant heap[succ].key == key ==> SawBinding(old(tr), tr, key, heap[succ].val)
        invariant heap[succ].key > key ==> SawAbsent(old(tr), tr, key)
        invariant Calls.Alone(old(tr), tr, t) ==> tr == old(tr) && OnChain(heap, succ) && min + (steps - n) < heap[succ].key
        decreases n
      {
        if n == 0 { return None; }
        ghost var tr1 := tr;
        succ := ReadNext(t, succ, key, old(tr));
        CalmTransitive(old(tr), tr1, tr, t);
        n := n - 1;
      }
      r := Some(if heap[succ].key == key then heap[succ].val else 0);
    }

    /** search_weak_left: a walk from the head to a node before the key whose next, at the moment `m`
        of the last read, is not; `hops` are the moments of the reads before. `ok` is false when
        it has not ended within `steps` reads. */
    method WeakLeft(t: nat, key: int, steps: nat) returns (pred: Ref, ok: bool, ghost hops: seq<Run>, ghost m: Run)
      requires Valid() && min < key < max
      modifies this
      ensures Valid() && Carried(old(heap), heap, t) && Held(heap, t) == Held(old(heap), t)
      ensures Calm(old(tr), tr, t) && In(heap, pred) && heap[pred].key < key
      ensures ok ==> Walked(old(tr), hops, m, key) && Position(hops) == pred && m == tr && Crosses(heap, pred, key)
      ensures Calls.Alone(old(tr), tr, t) ==> tr == old(tr) && OnChain(heap, pred)
      ensures !ok ==> steps < key - min || !Calls.Alone(old(tr), tr, t)
    {
      RunInv(tr);
      ChainHasEnds(heap);
      pred, ok, hops := HEAD, true, [];
      var succ := ReadNext(t, pred, key, old(tr));
      m := tr;
      var n := steps;
      while heap[succ].key < key
        invariant Valid() && Carried(old(heap), heap, t) && Held(heap, t) == Held(old(heap), t)
        invariant Calm(old(tr), tr, t) && In(heap, pred) && heap[pred].key < key && In(heap, succ) && heap[pred].next == succ
        invariant Walked(old(tr), hops, m, key) && Position(hops) == pred && m == tr
        invariant Calls.Alone(old(tr), tr, t) ==> tr == old(tr) && OnChain(heap, pred) && Stands(heap, pred, succ) && min + (steps - n) < heap[succ].key
        decreases n
      {
        pred := succ;
        if n == 0 { return pred, false, hops, m; }
        ghost var tr1, h1 := tr, heap;
        succ := ReadNext(t, succ, key, tr);
        CalmTransitive(old(tr), tr1, tr, t);
        CarriedTransitive(old(heap), h1, heap, t);
        WalkedOn(old(tr), hops, m, tr, key);
        hops, m := hops + [m], tr;
        n := n - 1;
      }
    }

    /** Waits for the node's lock; false when the lock is never obtained in this run. */
    method LockNode(t: nat, n: Ref) returns (got: bool)
      requires Valid() && In(heap, n)
      modifies this
      ensures Valid() && Carried(old(heap), heap, t) && Calm(old(tr), tr, t)
      ensures got ==> heap[n].lock == By(t)
      ensures Calls.Alone(old(tr), tr, t) && old(heap)[n].lock == Free ==> got && heap == old(heap)[n := old(heap)[n].(lock := By(t))]
      ensures Held(heap, t) == if got then Held(old(heap), t) + {n} else Held(old(heap), t)
    {
      Interfere(t);
      got := heap[n].lock == Free;
      if got {
        ghost var tr1 := tr;
        Record(t, TakeLock(n));
        CalmTransitive(old(tr), tr1, tr, t);
      }
    }

    method UnlockNode(t: nat, n: Ref)
      requires Valid() && In(heap, n) && heap[n].lock == By(t)
      modifies this
      ensures Valid() && Calm(old(tr), tr, t) && Held(heap, t) == Held(old(heap), t) - {n}
      ensures |old(heap)| <= |heap|
      ensures forall r :: 0 <= r < |old(heap)| && r != n ==> CellKept(old(heap)[r], heap[r], t)
      ensures forall r :: 0 <= r < |old(heap)| ==> heap[r].key == old(heap)[r].key
    {
      Interfere(t);
      ghost var tr1 := tr;
      Record(t, DropLock(n));
      CalmTransitive(old(tr), tr1, tr, t);
    }

    /** One lock of search_strong and the read of the next behind it; nothing is held when the lock
        is never obtained. */
    method LockAndRead(t: nat, key: int, start: Ref, ghost from: Run) returns (next: Ref, got: bool)
      requires Valid() && In(heap, start) && Held(heap, t) == {} && min < key < max && heap[start].key < key && Within(from, tr)
      modifies this
      ensures Valid() && Calm(old(tr), tr, t) && Held(heap, t) == if got then {start} else {}
      ensures got ==> In(heap, start) && heap[start].key < key && heap[start].lock == By(t) && heap[start].next == next && In(heap, next)
      ensures got && heap[next].key == key ==> SawBinding(from, tr, key, heap[next].val)
      ensures got && heap[next].key > key ==> SawAbsent(from, tr, key)
      ensures Calls.Alone(old(tr), tr, t) && old(heap)[start].lock == Free ==> got && heap == old(heap)[start := old(heap)[start].(lock := By(t))]
    {
      got := LockNode(t, start);
      if !got { return 0, false; }
      ghost var tr1 := tr;
      next := ReadNext(t, start, key, from);
      CalmTransitive(old(tr), tr1, tr, t);
    }

    /** The locked part of search_strong: on success `left` is locked and live, its next is
        `right` and the keys enclose the wanted one, which decides the key at that moment. */
    method StrongFrom(t: nat, key: int, start: Ref, steps: nat, ghost from: Run) returns (left: Ref, right: Ref, ok: bool)
      requires Valid() && min < key < max && In(heap, start) && heap[start].key < key && Held(heap, t) == {}
      requires Within(from, tr)
      modifies this
      ensures Valid() && Calm(old(tr), tr, t)
      ensures ok ==> Held(heap, t) == {left} && In(heap, left) && In(heap, right) && OnChain(heap, left)
      ensures ok ==> heap[left].lock == By(t) && heap[left].next == right && heap[left].key < key <= heap[right].key
      ensures ok && heap[right].key == key ==> SawPresent(from, tr, key)
      ensures ok && heap[right].key != key ==> SawAbsent(from, tr, key)
      ensures Calls.Alone(old(tr), tr, t) && old(heap)[start].lock == Free && Crosses(old(heap), start, key) ==>
        ok && left == start && heap == old(heap)[start := old(heap)[start].(lock := By(t))]
    {
      left, right := start, start;
      right, ok := LockAndRead(t, key, start, from);
      if !ok { return; }
      var n := steps;
      while heap[right].key < key
        invariant Valid() && Calm(old(tr), tr, t) && Held(heap, t) == {left} && Within(from, tr)
        invariant In(heap, left) && In(heap, right) && heap[left].lock == By(t) && heap[left].next == right && heap[left].key < key
        invariant heap[right].key == key ==> SawBinding(from, tr, key, heap[right].val)
        invariant heap[right].key > key ==> SawAbsent(from, tr, key)
        invariant Calls.Alone(old(tr), tr, t) && old(heap)[start].lock == Free && Crosses(old(heap), start, key) ==>
          ok && left == start && heap == old(heap)[start := old(heap)[start].(lock := By(t))]
        decreases n
      {
        if n == 0 { ok := false; return; }
        ghost var tr1 := tr;
        var next;
        UnlockNode(t, left);
        ghost var tr2 := tr;
        next, ok := LockAndRead(t, key, right, from);
        CalmTransitive(tr1, tr2, tr, t);
        CalmTransitive(old(tr), tr1, tr, t);
        left, right := right, next;
        if !ok { return; }
        n := n - 1;
      }
      RunInv(tr);
      LockedAndUpIsLive(heap, t, left);
    }

    /** left->next = n */
    method StoreNew(t: nat, left: Ref, right: Ref, key: int, val: int, ghost from: Run)
      requires Valid() && Quiet(from, tr, t) && In(heap, left) && In(heap, right) && heap[left].lock == By(t)
      requires heap[left].next == right && heap[left].key < key < heap[right].key
      modifies this
      ensures Valid() && Held(heap, t) == Held(old(heap), t) && In(heap, left) && heap[left].lock == By(t)
      ensures Added(from, tr, t, key, val) && Calls.Foreign(old(tr), t) <= Calls.Foreign(tr, t)
    {
      Interfere(t);
      RunInv(tr);
      StepKeeps(heap, t, Link(left, right, key, val));
      Record(t, Link(left, right, key, val));
      AddStep(from, tr, t, key, val);
    }

    /** Inserts the pair, with the early negative answer when `roFail`; None when the call has
        not returned. A call that begins while no lock is held, that nobody disturbs and that may
        make enough steps returns, and leaves no lock held. */
    method Insert(t: nat, key: int, val: int, steps: nat) returns (r: Option<int>)
      requires Valid() && min < key < max && Held(heap, t) == {}
      modifies this
      ensures Valid() && (r.Some? ==> Held(heap, t) == {})
      ensures match r
        case Some(1) => Added(old(tr), tr, t, key, val)
        case Some(n) => n == 0 && Quiet(old(tr), tr, t) && SawPresent(old(tr), tr, key)
        case None => Quiet(old(tr), tr, t)
      ensures r.None? ==> steps < key - min || !Idle(old(heap)) || !Calls.Alone(old(tr), tr, t)
      ensures r.Some? && Idle(old(heap)) && Calls.Alone(old(tr), tr, t) ==> Idle(heap)
    {
      NothingYet(tr, t);
      assert Within(tr, tr);
      var pred, ok;
      ghost var hops, m;
      pred, ok, hops, m := WeakLeft(t, key, steps);
      if !ok { return None; }
      if roFail {
        ghost var tr1 := tr;
        var succ := ReadNext(t, pred, key, old(tr));
        CalmTransitive(old(tr), tr1, tr, t);
        if heap[succ].key == key {
          AloneEndsIdle(old(tr), tr, t);
          return Some(0);
        }
      }
      ghost var tr2 := tr;
      r := InsertStrong(t, key, val, pred, steps, old(tr));
      AddedSince(old(tr), tr, t, key, val);
      if r.Some? { AloneEndsIdle(old(tr), tr, t); }
    }

    /** The second half of insert: search_strong from the node found, the link, the release. */
    method InsertStrong(t: nat, key: int, val: int, pred: Ref, steps: nat, ghost from: Run) returns (r: Option<int>)
      requires Valid() && min < key < max && Held(heap, t) == {} && In(heap, pred) && heap[pred].key < key && Quiet(from, tr, t)
      modifies this
      ensures Valid() && (r.Some? ==> Held(heap, t) == {}) && Calls.Foreign(old(tr), t) <= Calls.Foreign(tr, t)
      ensures match r
        case Some(1) => Added(from, tr, t, key, val)
        case Some(n) => n == 0 && Quiet(from, tr, t) && SawPresent(from, tr, key)
        case None => Quiet(from, tr, t)
      ensures Calls.Alone(old(tr), tr, t) && old(heap)[pred].lock == Free && Crosses(old(heap), pred, key) ==> r.Some?
    {
      var left, right, ok := StrongFrom(t, key, pred, steps, from);
      if !ok { return None; }
      if heap[right].key == key {
        ghost var tr1 := tr;
        UnlockNode(t, left);
        PresentGrows(from, tr1, tr, key);
        r := Some(0);
      } else {
        StoreNew(t, left, right, key, val, from);
        UnlockNode(t, left);
        r := Some(1);
      }
    }

    /** left->next = right->next, a read and a write under both locks. */
    method StoreUnlink(t: nat, left: Ref, right: Ref, ghost from: Run)
      requires Valid() && Quiet(from, tr, t) && In(heap, left) && In(heap, right) && right != TAIL && left != right
      requires heap[left].lock == By(t) && heap[right].lock == By(t) && heap[left].next == right && heap[left].key < heap[right].key
      modifies this
      ensures Valid() && Held(heap, t) == Held(old(heap), t) && In(heap, left) && In(heap, right)
      ensures heap[right].lock == Leaving(t, left)
      ensures Removed(from, tr, t, old(heap[right].key), old(heap[right].val)) && Calls.Foreign(old(tr), t) <= Calls.Foreign(tr, t)
    {
      Interfere(t);
      var next := heap[right].next;
      Interfere(t);
      RunInv(tr);
      StepKeeps(heap, t, Unlink(left, right, next));
      Record(t, Unlink(left, right, next));
      RemoveStep(from, tr, t, heap[right].key, heap[right].val);
    }

    /** right->next = left */
    method StoreReverse(t: nat, left: Ref, right: Ref)
      requires Valid() && In(heap, left) && In(heap, right) && heap[right].lock == Leaving(t, left)
      modifies this
      ensures Valid() && Calm(old(tr), tr, t) && Held(heap, t) == Held(old(heap), t) && In(heap, left) && In(heap, right)
      ensures heap[right].lock == By(t) && heap[left].lock == By(t) && left != right
    {
      Interfere(t);
      RunInv(tr);
      assert InLife(heap, right);
      ghost var tr1 := tr;
      Record(t, Reverse(right, left));
      CalmTransitive(old(tr), tr1, tr, t);
    }

    /** Remove under the lock of `left`, when right has the key: false when the lock of `right`
        is never obtained. */
    method RemoveRight(t: nat, left: Ref, right: Ref, ghost from: Run) returns (result: int, ok: bool)
      requires Valid() && Quiet(from, tr, t) && Held(heap, t) == {left} && In(heap, left) && In(heap, right) && right != TAIL
      requires heap[left].lock == By(t) && heap[left].next == right && heap[left].key < heap[right].key
      modifies this
      ensures Valid() && (ok ==> Held(heap, t) == {})
      ensures if ok then Removed(from, tr, t, old(heap[right].key), result) else Quiet(from, tr, t)
      ensures Calls.Foreign(old(tr), t) <= Calls.Foreign(tr, t)
      ensures Calls.Alone(old(tr), tr, t) && old(heap)[right].lock == Free ==> ok
    {
      result := 0;
      ok := LockNode(t, right);
      if ok {
        result := heap[right].val;
        StoreUnlink(t, left, right, from);
        StoreReverse(t, left, right);
        UnlockNode(t, right);
        UnlockNode(t, left);
      }
    }

    /** Removes the key and returns its value, 0 when it was absent; None when the call has not
        returned. With `roFail` the call may answer after reading the next of the last node
        once more; `blind` tells that this read found a node before the key, although that node's
        next was not before the key when the traversal ended there. Only then may the answer be
        wrong, and only if somebody else has taken a step meanwhile and another key fits
        between the lower sentinel and the key. A call that nobody disturbs returns. */
    method Remove(t: nat, key: int, steps: nat) returns (r: Option<int>, ghost blind: bool)
      requires Valid() && min < key < max && Held(heap, t) == {}
      modifies this
      ensures Valid() && (r.Some? ==> Held(heap, t) == {})
      ensures blind ==> roFail && r == Some(0) && Quiet(old(tr), tr, t) && min + 1 < key && SawReread(old(tr), tr, key)
      ensures blind ==> !Calls.Alone(old(tr), tr, t)
      ensures !blind ==> match r
        case Some(v) => Removed(old(tr), tr, t, key, v) || (v == 0 && Quiet(old(tr), tr, t) && SawAbsent(old(tr), tr, key))
        case None => Quiet(old(tr), tr, t)
      ensures r.None? ==> steps < key - min || !Idle(old(heap)) || !Calls.Alone(old(tr), tr, t)
      ensures r.Some? && Idle(old(heap)) && Calls.Alone(old(tr), tr, t) ==> Idle(heap)
    {
      NothingYet(tr, t);
      assert Within(tr, tr);
      blind := false;
      var pred, ok;
      ghost var hops, m;
      pred, ok, hops, m := WeakLeft(t, key, steps);
      if !ok { return None, false; }
      if roFail {
        ghost var tr1 := tr;
        var succ := ReadNext(t, pred, key, old(tr));
        CalmTransitive(old(tr), tr1, tr, t);
        if heap[succ].key != key {
          if heap[succ].key < key {
            RunInv(tr);
            BelowNeedsRoom(heap, pred, key);
            RereadNow(old(tr), hops, m, tr, key);
          }
          AloneEndsIdle(old(tr), tr, t);
          return Some(0), heap[succ].key < key;
        }
      }
      r := RemoveStrong(t, key, pred, steps, old(tr));
      if r.Some? {
        RemovedSince(old(tr), tr, t, key, r.value);
        AloneEndsIdle(old(tr), tr, t);
      }
    }

    /** The second half of remove: search_strong from the node found, the removal, the release. */
    method RemoveStrong(t: nat, key: int, pred: Ref, steps: nat, ghost from: Run) returns (r: Option<int>)
      requires Valid() && min < key < max && Held(heap, t) == {} && In(heap, pred) && heap[pred].key < key && Quiet(from, tr, t)
      modifies this
      ensures Valid() && (r.Some? ==> Held(heap, t) == {}) && Calls.Foreign(old(tr), t) <= Calls.Foreign(tr, t)
      ensures match r
        case Some(v) => Removed(from, tr, t, key, v) || (v == 0 && Quiet(from, tr, t) && SawAbsent(from, tr, key))
        case None => Quiet(from, tr, t)
      ensures Calls.Alone(old(tr), tr, t) && Idle(old(heap)) && Crosses(old(heap), pred, key) ==> r.Some?
    {
      var left, right, ok := StrongFrom(t, key, pred, steps, from);
      if !ok { return None; }
      if heap[right].key == key {
        var result;
        result, ok := RemoveRight(t, left, right, from);
        r := if ok then Some(result) else None;
      } else {
        ghost var tr1 := tr;
        UnlockNode(t, left);
        AbsentGrows(from, tr1, tr, key);
        r := Some(0);
      }
    }
  }

  // ---------------------------------------------------------------- the early answer of remove

  /** The second read of search_strong_cond, at a node before the key: if the successor it finds
      is not before the key, the early answer of remove, and of insert, is exactly right. */
  lemma EarlyAnswerDecides(h: Mem, p: Ref, key: int)
    requires Inv(h) && In(h, p) && In(h, h[p].next) && h[HEAD].key < key < h[TAIL].key
    requires h[p].key < key <= h[h[p].next].key
    ensures h[h[p].next].key != key <==> Absent(h, key)
  {
    WeakStepDecides(h, p, key);
  }

  ghost predicate PresentSince(m: Run, tr: Run, key: int) {
    forall i {:trigger Within(m, i), Within(i, tr)} :: Within(m, i) && Within(i, tr) ==> Present(i.now, key)
  }

  /** Where an unlocked traversal from the head is after the reads of next pointers that moved it
      on; `hops` are the moments of these reads. */
  ghost function Position(hops: seq<Run>): Ref {
    if hops == [] then HEAD
    else
      var last, p := hops[|hops| - 1], Position(hops[..|hops| - 1]);
      if In(last.now, p) then last.now[p].next else NULL
  }

  /** The reads were made one after the other between `from` and `m`, each by a traversal that had
      not reached the key yet and did not reach it with the read. */
  ghost predicate Walked(from: Run, hops: seq<Run>, m: Run, key: int) {
    if hops == [] then Within(from, m)
    else
      var last := hops[|hops| - 1];
      && Walked(from, hops[..|hops| - 1], last, key) && Within(last, m)
      && In(last.now, Position(hops)) && last.now[Position(hops)].key < key
  }

  /** `p`, before the key, has a next before the key. */
  ghost predicate PointsBelow(h: Mem, p: Ref, key: int) {
    In(h, p) && In(h, h[p].next) && h[p].key < key && h[h[p].next].key < key
  }

  /** `p`, before the key, has a next that is not. */
  ghost predicate Crosses(h: Mem, p: Ref, key: int) {
    In(h, p) && In(h, h[p].next) && h[p].key < key <= h[h[p].next].key
  }

  lemma WalkedOn(from: Run, hops: seq<Run>, m: Run, tr: Run, key: int)
    requires Walked(from, hops, m, key) && Within(m, tr)
    requires var p := Position(hops); In(m.now, p) && In(m.now, m.now[p].next) && m.now[m.now[p].next].key < key
    ensures Walked(from, hops + [m], tr, key) && Position(hops + [m]) == m.now[Position(hops)].next
  {
    assert (hops + [m])[..|hops|] == hops;
  }

  /** A traversal begun at moment `from` ends at moment `m`, with a node whose next is not before the
      key; at moment `m'`, not earlier, the next of the same node is before the key. */
  ghost predicate Reread(from: Run, hops: seq<Run>, m: Run, m': Run, key: int) {
    && Walked(from, hops, m, key) && Within(m, m')
    && Crosses(m.now, Position(hops), key) && PointsBelow(m'.now, Position(hops), key)
  }

  /** That happened between `from` and the end of `tr`. */
  ghost predicate SawReread(from: Run, tr: Run, key: int) {
    exists hops, m, m' {:trigger Reread(from, hops, m, m', key)} :: Reread(from, hops, m, m', key) && Within(m', tr)
  }

  lemma RereadNow(from: Run, hops: seq<Run>, m: Run, tr: Run, key: int)
    requires Walked(from, hops, m, key) && Within(m, tr) && Crosses(m.now, Position(hops), key) && PointsBelow(tr.now, Position(hops), key)
    ensures SawReread(from, tr, key)
  {
    assert Reread(from, hops, m, tr, key) && Within(tr, tr);
  }

  /** A remove of the key, begun at moment `from` of a run from the empty list, answers "absent"
      early and is wrong: its traversal ends at moment `m` with a successor that is not before
      the key, the second read of the same next, at the end of the run, finds a node before
      the key, and the key is in the list all the time. */
  ghost predicate Misled(min: int, max: int, from: Run, hops: seq<Run>, m: Run, tr: Run, key: int) {
    IsRun(tr) && Within(Start(Init(min, max)), from) && PresentSince(from, tr, key) && Reread(from, hops, m, tr, key)
  }

  /** Two nodes before the key, one of them the next of the other: there is room for a key
      between the smallest one and this. */
  lemma BelowNeedsRoom(h: Mem, p: Ref, key: int)
    requires Inv(h) && PointsBelow(h, p, key) && key < h[TAIL].key
    ensures h[HEAD].key + 1 < key
  {
    assert InLife(h, p);
    if OnChain(h, p) { NextInChain(h, p); }
  }

  lemma {:induction false} EndsStay(min: int, max: int, tr: Run)
    requires IsRun(tr) && Within(Start(Init(min, max)), tr)
    ensures 2 <= |tr.now| && tr.now[HEAD].key == min && tr.now[TAIL].key == max
    decreases tr
  {
    LastStep(First(), CanStep(), tr);
    if tr != Start(Init(min, max)) {
      RunPrefix(First(), CanStep(), tr.before, tr);
      EndsStay(min, max, tr.before);
    }
  }

  lemma {:induction false} WalkedWithin(from: Run, hops: seq<Run>, m: Run, key: int)
    requires Walked(from, hops, m, key)
    ensures Within(from, m)
  {
    if hops != [] {
      var last := hops[|hops| - 1];
      WalkedWithin(from, hops[..|hops| - 1], last, key);
      WithinTransitive(from, last, m);
    }
  }

  /** The exact condition: a remove of the key can be misled in some run exactly if another key
      fits between the lower sentinel and the key. */
  lemma EarlyAnswerMisleadsIff(min: int, max: int, key: int)
    requires min < key < max
    ensures (exists from, hops, m, tr :: Misled(min, max, from, hops, m, tr, key)) <==> min + 1 < key
  {
    forall from, hops, m, tr | Misled(min, max, from, hops, m, tr, key) ensures min + 1 < key {
      MisledNeedsRoom(min, max, from, hops, m, tr, key);
    }
    if min + 1 < key {
      var from, tr := InsertionMisleads(min, max, min + 1, key, 0);
    }
  }

  lemma MisledNeedsRoom(min: int, max: int, from: Run, hops: seq<Run>, m: Run, tr: Run, key: int)
    requires min < key < max && Misled(min, max, from, hops, m, tr, key)
    ensures min + 1 < key
  {
    WalkedWithin(from, hops, m, key);
    WithinTransitive(from, m, tr);
    WithinTransitive(Start(Init(min, max)), from, tr);
    EndsStay(min, max, tr);
    RunInv(tr);
    BelowNeedsRoom(tr.now, Position(hops), key);
  }

  /** It takes no removal: one insertion between the two reads of the head's next is enough. */
  lemma InsertionMisleads(min: int, max: int, other: int, key: int, val: int) returns (m: Run, tr: Run)
    requires min < other < key < max
    ensures Misled(min, max, m, [], m, tr, key) && tr == Then(m, 1, Link(HEAD, 2, other, val), tr.now)
  {
    m := FirstInserted(min, max, key, val);
    tr := StillPresent(m, m, 1, Link(HEAD, 2, other, val), key, val);
  }

  /** And it can happen at a node that has been removed and reversed between the reads. */
  lemma ReversalMisleads(min: int, max: int, other: int, key: int, val: int) returns (m: Run, tr: Run)
    requires min < other < key < max
    ensures Misled(min, max, m, [m], m, tr, key) && tr.Then? && tr.act == Reverse(Position([m]), HEAD)
  {
    var m0 := FirstInserted(min, max, key, val);
    m := StillPresent(m0, m0, 1, Link(HEAD, 2, other, val), key, val);
    assert Within(Start(Init(min, max)), m);
    assert [m][..0] == [] && Position([m]) == 3;
    PresentNow(m, key, val);
    tr := StillPresent(m, m, 1, TakeLock(3), key, val);
    tr := StillPresent(m, tr, 1, Unlink(HEAD, 3, 2), key, val);
    tr := StillPresent(m, tr, 1, Reverse(3, HEAD), key, val);
  }

  /** The run in which thread 1 has locked the head and linked the key in. */
  lemma FirstInserted(min: int, max: int, key: int, val: int) returns (tr: Run)
    requires min < key < max
    ensures IsRun(tr) && Within(Start(Init(min, max)), tr) && PresentSince(tr, tr, key) && (key, val) in Bindings(tr.now)
    ensures tr.now == [Cell(min, 0, 2, false, By(1)), Cell(max, 0, NULL, false, Free), Cell(key, val, TAIL, false, Free)]
  {
    InitInv(min, max);
    var t0 := Start(Init(min, max));
    RunBegins<Mem, Act>(First(), CanStep(), Init(min, max));
    var t1 := Extend(t0, 1, TakeLock(HEAD));
    RunInv(t1);
    StepKeeps(t1.now, 1, Link(HEAD, TAIL, key, val));
    tr := Extend(t1, 1, Link(HEAD, TAIL, key, val));
    assert Within(t0, t1);
    PresentNow(tr, key, val);
  }

  lemma Extend(tr: Run, t: nat, a: Act) returns (tr': Run)
    requires IsRun(tr) && Enabled(tr.now, t, a)
    ensures tr' == Then(tr, t, a, Do(tr.now, t, a)) && IsRun(tr')
  {
    RunGoesOn(First(), CanStep(), tr, t, a, Do(tr.now, t, a));
    tr' := Then(tr, t, a, Do(tr.now, t, a));
  }

  lemma StillPresent(m: Run, tr: Run, t: nat, a: Act, key: int, val: int) returns (tr': Run)
    requires IsRun(tr) && Within(m, tr) && PresentSince(m, tr, key) && Enabled(tr.now, t, a)
    requires (key, val) in Bindings(tr.now) && (a.Unlink? ==> In(tr.now, a.right) && tr.now[a.right].key != key)
    ensures tr' == Then(tr, t, a, Do(tr.now, t, a)) && IsRun(tr')
    ensures Within(m, tr') && PresentSince(m, tr', key) && (key, val) in Bindings(tr'.now)
  {
    RunInv(tr);
    StepKeeps(tr.now, t, a);
    tr' := Extend(tr, t, a);
    forall i | Within(m, i) && Within(i, tr') ensures Present(i.now, key) {
      if i != tr' { assert Within(i, tr); }
    }
  }

  lemma PresentNow(m: Run, key: int, val: int)
    requires (key, val) in Bindings(m.now)
    ensures PresentSince(m, m, key)
  {
    forall i | Within(m, i) && Within(i, m) ensures Present(i.now, key) {
      WithinAntisymmetric(m, i);
    }
  }
}
