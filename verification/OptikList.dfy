/** The OPTIK list: no marks; updates validate the versions they read on the way with a trylock,
    and a removed node's lock is never released again. */
module OptikList {
  import opened History
  import opened ListModel
  import opened OptikLock
  import Calls

  type Mem = Heap<Word>

  datatype Act =
    | Lock(n: Ref)                                       // CAS(version, version + 1)
    | Unlock(n: Ref)                                     // version + 1
    | Revert(n: Ref)                                     // version - 1
    | Link(pred: Ref, curr: Ref, key: int, val: int)     // pred->next = newnode
    | Unlink(pred: Ref, curr: Ref, next: Ref)            // pred->next = cnxt

  predicate Enabled(h: Mem, t: nat, a: Act) {
    match a
    case Lock(n) => In(h, n) && CanLock(h[n].lock, h[n].lock.version)
    case Unlock(n) => In(h, n) && HeldBy(h[n].lock, t)
    case Revert(n) => In(h, n) && h[n].lock.owner == By(t, false) && 0 < h[n].lock.version
    case Link(p, c, key, val) =>
      && In(h, p) && In(h, c) && HeldBy(h[p].lock, t) && h[p].next == c
      && h[p].key < key < h[c].key
    case Unlink(p, c, n) =>
      && In(h, p) && In(h, c) && p != c && c != TAIL && HeldBy(h[p].lock, t) && HeldBy(h[c].lock, t)
      && h[p].next == c && h[c].next == n
  }

  function Do(h: Mem, t: nat, a: Act): Mem
    requires Enabled(h, t, a)
  {
    match a
    case Lock(n) => h[n := h[n].(lock := Locked(h[n].lock, t))]
    case Unlock(n) => h[n := h[n].(lock := Unlocked(h[n].lock))]
    case Revert(n) => h[n := h[n].(lock := Reverted(h[n].lock))]
    case Link(p, c, key, val) =>
      h[p := h[p].(next := |h|, lock := Written(h[p].lock, t))] + [Cell(key, val, c, false, Word(OPTIK_INIT, Free))]
    case Unlink(p, c, n) =>
      h[p := h[p].(next := n, lock := Written(h[p].lock, t))][c := h[c].(lock := Buried(h[c].lock))]
  }

  /** What holds in every reachable state. A node is reachable exactly as long as its lock may
      still be released. */
  ghost predicate Inv(h: Mem) {
    && Good(h) && Ascending(h)
    && (forall r :: 0 <= r < |h| ==> !h[r].marked && Consistent(h[r].lock))
    && (forall r :: 0 <= r < |h| ==> (OnChain(h, r) <==> h[r].lock.owner != Gone))
  }

  function Init(min: int, max: int): Mem {
    [Cell(min, 0, TAIL, false, Word(OPTIK_INIT, Free)), Cell(max, 0, NULL, false, Word(OPTIK_INIT, Free))]
  }

  lemma InitInv(min: int, max: int)
    requires min < max
    ensures Inv(Init(min, max)) && Bindings(Init(min, max)) == {}
  {
    assert Reaches(Init(min, max), TAIL, TAIL);
  }

  lemma LinkKeeps(h: Mem, t: nat, p: Ref, c: Ref, key: int, val: int)
    requires Inv(h) && Enabled(h, t, Link(p, c, key, val))
    ensures var h' := Do(h, t, Link(p, c, key, val));
      && Inv(h') && Evolves(h, h')
      && Absent(h, key) && Bindings(h') == Bindings(h) + {(key, val)}
  {
    var h' := Do(h, t, Link(p, c, key, val));
    var cell := Cell(key, val, c, false, Word(OPTIK_INIT, Free));
    var h1 := h[p := h[p].(next := |h|)] + [cell];
    LinkEffect(h, h1, p, cell);
    ShapeFrame(h1, h');
    EvolvesThenShape(h, h1, h');
  }

  lemma UnlinkKeeps(h: Mem, t: nat, p: Ref, c: Ref, n: Ref)
    requires Inv(h) && Enabled(h, t, Unlink(p, c, n))
    ensures var h' := Do(h, t, Unlink(p, c, n));
      && Inv(h') && Evolves(h, h')
      && (h[c].key, h[c].val) in Bindings(h) && Bindings(h') == Bindings(h) - {(h[c].key, h[c].val)}
  {
    var h' := Do(h, t, Unlink(p, c, n));
    var h1 := h[p := h[p].(next := n)];
    assert PointsUp(h, p);
    UnlinkEffect(h, h1, p, c);
    ShapeFrame(h1, h');
    EvolvesThenShape(h, h1, h');
  }

  lemma LockKeeps(h: Mem, t: nat, a: Act)
    requires Inv(h) && Enabled(h, t, a) && (a.Lock? || a.Unlock? || a.Revert?)
    ensures Inv(Do(h, t, a)) && Evolves(h, Do(h, t, a)) && Bindings(Do(h, t, a)) == Bindings(h)
  {
    ShapeFrame(h, Do(h, t, a));
  }

  /** One atomic step by any thread keeps the invariant, is one that hindsight allows, and
      changes the set only by a link or an unlink. */
  lemma StepKeeps(h: Mem, t: nat, a: Act)
    requires Inv(h) && Enabled(h, t, a)
    ensures Inv(Do(h, t, a)) && Evolves(h, Do(h, t, a))
    ensures match a
      case Link(_, _, key, val) => Absent(h, key) && Bindings(Do(h, t, a)) == Bindings(h) + {(key, val)}
      case Unlink(_, c, _) => (h[c].key, h[c].val) in Bindings(h) && Bindings(Do(h, t, a)) == Bindings(h) - {(h[c].key, h[c].val)}
      case _ => Bindings(Do(h, t, a)) == Bindings(h)
  {
    match a
    case Link(p, c, key, val) => LinkKeeps(h, t, p, c, key, val);
    case Unlink(p, c, n) => UnlinkKeeps(h, t, p, c, n);
    case _ => LockKeeps(h, t, a);
  }

  // ---------------------------------------------------------------- runs

  type Run = Trace<Mem, Act>

  /** A run begins in any state that satisfies the invariant and goes on by enabled steps of any
      threads. */
  ghost function First(): Mem -> bool {
    h => Inv(h)
  }

  ghost function CanStep(): (Mem, nat, Act, Mem) -> bool {
    (h: Mem, t: nat, a: Act, h': Mem) => Enabled(h, t, a) && h' == Do(h, t, a)
  }

  ghost predicate IsRun(tr: Run) {
    IsRunOf(First(), CanStep(), tr)
  }

  /** Safety over whole runs: every state of every run satisfies the invariant and follows
      from the one before by a step that hindsight allows. */
  lemma RunIsTame(m: Run, tr: Run)
    requires IsRun(tr) && Within(m, tr)
    ensures Inv(tr.now) && Inv(m.now) && Tame(m, tr)
  {
    forall h, t, a, h' | First()(h) && CanStep()(h, t, a, h') ensures First()(h') && Evolves(h, h') {
      StepKeeps(h, t, a);
    }
    RunTames(First(), CanStep(), m, tr);
  }

  // ---------------------------------------------------------------- the code

  /** The nodes whose lock thread `t` holds. */
  ghost function Held(h: Mem, t: nat): set<Ref> {
    set r | 0 <= r < |h| && HeldBy(h[r].lock, t)
  }

  /** One cell before and after: key and value stay, lock and next obey the version rule, and
      nothing changes while thread `t` holds the lock. */
  ghost predicate CellKept(c: Cell<Word>, c': Cell<Word>, t: nat) {
    && c'.key == c.key && c'.val == c.val && Since(c.lock, c.next, c'.lock, c'.next)
    && (HeldBy(c.lock, t) ==> c' == c)
  }

  ghost predicate Carried(h: Mem, h': Mem, t: nat) {
    |h| <= |h'| && forall r :: 0 <= r < |h| ==> CellKept(h[r], h'[r], t)
  }

  lemma CarriedTransitive(h0: Mem, h1: Mem, h2: Mem, t: nat)
    requires Carried(h0, h1, t) && Carried(h1, h2, t)
    ensures Carried(h0, h2, t)
  {
    forall r | 0 <= r < |h0| ensures CellKept(h0[r], h2[r], t) {
      assert CellKept(h0[r], h1[r], t) && CellKept(h1[r], h2[r], t);
    }
  }

  /** The steps of the code write the data only under a lock that was not written under yet. */
  lemma ForeignStepCarries(h: Mem, u: nat, a: Act, t: nat)
    requires Inv(h) && Enabled(h, u, a) && u != t
    ensures Carried(h, Do(h, u, a), t) && Held(Do(h, u, a), t) == Held(h, t)
  {
  }

  /** Lock word and next of a node at the moment its version was read, and its lock word at the
      later moment its next was read. */
  datatype Sight = Sight(word: Word, next: Ref, later: Word)

  /** Version `ver` was read at the first moment of `g`; the cell is `c` now. */
  ghost predicate Glimpsed(c: Cell<Word>, ver: nat, g: Sight) {
    Consistent(g.word) && g.word.version == ver && Since(g.word, g.next, c.lock, c.next)
  }

  /** Version `ver` and then next, which was `s`, were read at the moments of `g`. */
  ghost predicate ReadAfter(c: Cell<Word>, ver: nat, s: Ref, g: Sight) {
    && Consistent(g.word) && g.word.version == ver
    && Since(g.word, g.next, g.later, s) && Since(g.later, s, c.lock, c.next)
  }

  lemma ReadAfterKept(c: Cell<Word>, c': Cell<Word>, t: nat, ver: nat, s: Ref, g: Sight)
    requires ReadAfter(c, ver, s, g) && CellKept(c, c', t)
    ensures ReadAfter(c', ver, s, g)
  {
  }

  /** A validated lock: the next that was read after the version is still the node's next. */
  lemma ValidatedNext(c: Cell<Word>, t: nat, ver: nat, s: Ref, g: Sight)
    requires ReadAfter(c, ver, s, g) && !IsLocked(ver) && c.lock == Word(ver + 1, By(t, false))
    ensures c.next == s
  {
  }

  // ---------------------------------------------------------------- calls that nobody disturbs

  /** No lock is held; those of removed nodes do not count. */
  ghost predicate Idle(h: Mem) {
    forall r :: 0 <= r < |h| ==> h[r].lock.owner == Free || h[r].lock.owner == Gone
  }

  ghost predicate NoOthers(h: Mem, t: nat) {
    forall r :: 0 <= r < |h| ==> h[r].lock.owner == Free || h[r].lock.owner == Gone || HeldBy(h[r].lock, t)
  }

  predicate FreeAt(h: Mem, n: Ref, ver: nat) {
    In(h, n) && h[n].lock.version == ver && !IsLocked(ver)
  }

  /** The traversal of remove has read the versions that the two nodes have. */
  ghost predicate Seen(h: Mem, pred: Ref, curr: Ref, ver: nat, currVer: nat) {
    Stands(h, pred, curr) && ver == h[pred].lock.version && currVer == h[curr].lock.version
  }

  /** A thread that is alone and has released all locks leaves none held. */
  lemma {:induction false} AloneKeepsOut(m: Run, tr: Run, t: nat)
    requires IsRun(tr) && Within(m, tr) && Calls.Alone(m, tr, t) && NoOthers(m.now, t)
    ensures NoOthers(tr.now, t)
    decreases tr
  {
    if m != tr {
      LastStep(First(), CanStep(), tr);
      Calls.ForeignGrows(m, tr.before, t);
      AloneKeepsOut(m, tr.before, t);
    }
  }

  lemma AloneEndsIdle(m: Run, tr: Run, t: nat)
    requires IsRun(tr) && Within(m, tr) && Held(tr.now, t) == {}
    ensures Calls.Alone(m, tr, t) && Idle(m.now) ==> Idle(tr.now)
  {
    if Calls.Alone(m, tr, t) && Idle(m.now) {
      AloneKeepsOut(m, tr, t);
      forall r | 0 <= r < |tr.now| ensures tr.now[r].lock.owner == Free || tr.now[r].lock.owner == Gone { assert r !in Held(tr.now, t); }
    }
  }

  /** What a traversal saw last, in the terms of this list: a reachable node holds its key. */
  lemma Verdict(from: Run, m: Run, tr: Run, p: Ref, s: Ref, key: int)
    requires IsRun(tr) && Within(from, m) && Within(m, tr) && Stands(m.now, p, s)
    requires m.now[p].key < key <= m.now[s].key && In(tr.now, TAIL) && key < tr.now[TAIL].key
    ensures In(tr.now, s) && tr.now[s].key == m.now[s].key
    ensures m.now[s].key == key ==> SawBinding(from, tr, key, tr.now[s].val)
    ensures m.now[s].key != key ==> SawAbsent(from, tr, key)
  {
    RunIsTame(m, tr);
    TameKeeps(m, tr, TAIL);
    TameKeeps(m, tr, s);
    TraversalAnswers(m, tr, p, s, key);
  }

  class OptikList {
    const min: int
    const max: int
    var heap: Mem
    ghost var tr: Run

    ghost predicate Valid()
      reads this
    {
      IsRun(tr) && tr.now == heap && 2 <= |heap| && heap[HEAD].key == min && heap[TAIL].key == max
    }

    constructor (min: int, max: int)
      requires min < max
      ensures Valid() && Bindings(heap) == {} && this.min == min && this.max == max
    {
      heap := Init(min, max);
      tr := Start(Init(min, max));
      this.min, this.max := min, max;
      InitInv(min, max);
      RunBegins<Mem, Act>(First(), CanStep(), Init(min, max));
    }

    /** One step of thread `t`. */
    method Record(t: nat, a: Act)
      requires Valid() && Enabled(heap, t, a)
      modifies this
      ensures Valid() && heap == Do(old(heap), t, a) && tr == Then(old(tr), t, a, heap)
      ensures forall u: nat :: u != t || !(a.Link? || a.Unlink?) ==> Calm(old(tr), tr, u)
    {
      RunIsTame(tr, tr);
      StepKeeps(heap, t, a);
      RunGoesOn(First(), CanStep(), tr, t, a, Do(tr.now, t, a));
      forall u: nat | u != t || !(a.Link? || a.Unlink?) ensures Calm(tr, Then(tr, t, a, Do(heap, t, a)), u) {
        CalmStep(tr, t, a, Do(heap, t, a), u);
      }
      heap := Do(heap, t, a);
      tr := Then(tr, t, a, heap);
    }

    /** The other threads run: any number of steps, each by any thread but `t`, each one the
        code enables. Every access to shared memory below comes after such a pause. */
    method Interfere(t: nat)
      requires Valid()
      modifies this
      ensures Valid() && Carried(old(heap), heap, t) && Held(heap, t) == Held(old(heap), t)
      ensures Calm(old(tr), tr, t) && (Calls.Alone(old(tr), tr, t) ==> tr == old(tr))
    {
      var n: nat := *;
      while n > 0
        invariant Valid() && Carried(old(heap), heap, t) && Held(heap, t) == Held(old(heap), t)
        invariant Calm(old(tr), tr, t) && (Calls.Alone(old(tr), tr, t) ==> tr == old(tr))
      {
        var u: nat, a: Act := *, *;
        if u != t && Enabled(heap, u, a) {
          ghost var h1, tr1 := heap, tr;
          RunIsTame(tr, tr);
          ForeignStepCarries(heap, u, a, t);
          Record(u, a);
          CarriedTransitive(old(heap), h1, heap, t);
          CalmTransitive(old(tr), tr1, tr, t);
        }
        n := n - 1;
      }
    }

    method ReadNext(t: nat, p: Ref, ghost i: Run) returns (s: Ref, ghost m: Run)
      requires Valid() && Within(i, tr) && OnChain(i.now, p) && p != TAIL
      modifies this
      ensures Valid() && Carried(old(heap), heap, t) && Held(heap, t) == Held(old(heap), t)
      ensures Calm(old(tr), tr, t)
      ensures PointsUp(heap, p) && s == heap[p].next
      ensures Within(i, m) && Within(m, tr) && Stands(m.now, p, s)
      ensures m.now[p].key == heap[p].key && m.now[s].key == heap[s].key
      ensures (Calls.Alone(old(tr), tr, t) ==> tr == old(tr)) && (OnChain(heap, p) ==> Stands(heap, p, s))
    {
      Interfere(t);
      RunIsTame(i, tr);
      if OnChain(heap, p) { NextInChain(heap, p); }
      m := TraversalStep(i, tr, p);
      s := heap[p].next;
    }

    method ReadVersion(t: nat, p: Ref) returns (ver: nat)
      requires Valid() && In(heap, p)
      modifies this
      ensures Valid() && Carried(old(heap), heap, t) && Held(heap, t) == Held(old(heap), t)
      ensures Calm(old(tr), tr, t)
      ensures ver == heap[p].lock.version && Consistent(heap[p].lock) && (Calls.Alone(old(tr), tr, t) ==> tr == old(tr))
    {
      Interfere(t);
      RunIsTame(tr, tr);
      ver := heap[p].lock.version;
    }

    /** optik_trylock_version: a read of the version, and if it is the expected unlocked one,
        a CAS. */
    method TryLock(t: nat, n: Ref, ver: nat) returns (ok: bool)
      requires Valid() && In(heap, n)
      modifies this
      ensures Valid() && Carried(old(heap), heap, t) && Calm(old(tr), tr, t)
      ensures Held(heap, t) == if ok then Held(old(heap), t) + {n} else Held(old(heap), t)
      ensures ok ==> !IsLocked(ver) && heap[n].lock == Word(ver + 1, By(t, false)) && !HeldBy(old(heap)[n].lock, t)
      ensures !ok ==> IsLocked(ver) || heap[n].lock.version != ver
      ensures Calls.Alone(old(tr), tr, t) ==> heap == if ok then old(heap)[n := heap[n]] else old(heap)
    {
      Interfere(t);
      ok := !IsLocked(ver) && heap[n].lock.version == ver;
      if ok {
        ghost var h1 := heap;
        Interfere(t);
        CarriedTransitive(old(heap), h1, heap, t);
        ok := heap[n].lock.version == ver;
        if ok {
          RunIsTame(tr, tr);
          ghost var h2, tr2 := heap, tr;
          Record(t, Lock(n));
          CalmTransitive(old(tr), tr2, tr, t);
          CarriedTransitive(old(heap), h2, heap, t);
        }
      }
    }

    /** optik_unlock and optik_revert. */
    method Release(t: nat, n: Ref, revert: bool)
      requires Valid() && In(heap, n) && HeldBy(heap[n].lock, t) && (revert ==> !heap[n].lock.owner.wrote)
      modifies this
      ensures Valid() && Calm(old(tr), tr, t) && Held(heap, t) == Held(old(heap), t) - {n}
      ensures |old(heap)| <= |heap| && forall r :: 0 <= r < |old(heap)| ==> heap[r].val == old(heap)[r].val
    {
      Interfere(t);
      RunIsTame(tr, tr);
      ghost var tr1 := tr;
      Record(t, if revert then Revert(n) else Unlock(n));
      CalmTransitive(old(tr), tr1, tr, t);
    }

    /** The search: no locks, no versions. */
    method Search(t: nat, key: int) returns (res: int)
      requires Valid() && min < key < max
      modifies this
      ensures Valid() && Calm(old(tr), tr, t)
      ensures SawBinding(old(tr), tr, key, res) || (res == 0 && SawAbsent(old(tr), tr, key))
    {
      var curr := HEAD;
      ghost var pred, m := HEAD, tr;
      RunIsTame(tr, tr);
      ChainHasEnds(heap);
      while heap[curr].key < key
        invariant Valid() && Carried(old(heap), heap, t) && Calm(old(tr), tr, t)
        invariant Within(old(tr), m) && Within(m, tr) && In(heap, curr) && OnChain(m.now, curr)
        invariant curr != HEAD ==> Stands(m.now, pred, curr)
        invariant curr != HEAD ==> m.now[pred].key < key && m.now[curr].key == heap[curr].key
        decreases key - heap[curr].key
      {
        pred := curr;
        ghost var i := m;
        curr, m := ReadNext(t, curr, m);
        WithinTransitive(old(tr), i, m);
      }
      res := 0;
      if heap[curr].key == key {
        res := heap[curr].val;
      }
      Verdict(old(tr), m, tr, pred, curr, key);
    }

    /** The traversal of insert: the version of `pred` is read before its next. */
    method ParseInsert(t: nat, key: int) returns (pred: Ref, curr: Ref, ver: nat, ghost m: Run, ghost g: Sight)
      requires Valid() && min < key < max
      modifies this
      ensures Valid() && Carried(old(heap), heap, t) && Held(heap, t) == Held(old(heap), t)
      ensures Calm(old(tr), tr, t)
      ensures In(heap, pred) && In(heap, curr) && heap[pred].key < key <= heap[curr].key
      ensures Within(old(tr), m) && Within(m, tr) && Stands(m.now, pred, curr)
      ensures m.now[pred].key == heap[pred].key && m.now[curr].key == heap[curr].key
      ensures ReadAfter(heap[pred], ver, curr, g)
      ensures Calls.Alone(old(tr), tr, t) ==> tr == old(tr) && Stands(heap, pred, curr) && ver == heap[pred].lock.version
    {
      RunIsTame(tr, tr);
      ChainHasEnds(heap);
      curr, m := HEAD, tr;
      pred, curr, ver, m, g := Hop(t, curr, m);
      while heap[curr].key < key
        invariant Valid() && Carried(old(heap), heap, t) && Held(heap, t) == Held(old(heap), t)
        invariant Calm(old(tr), tr, t)
        invariant In(heap, pred) && In(heap, curr) && heap[pred].key < key
        invariant Within(old(tr), m) && Within(m, tr) && Stands(m.now, pred, curr)
        invariant m.now[pred].key == heap[pred].key && m.now[curr].key == heap[curr].key
        invariant ReadAfter(heap[pred], ver, curr, g)
        invariant Calls.Alone(old(tr), tr, t) ==> tr == old(tr) && Stands(heap, pred, curr) && ver == heap[pred].lock.version
        decreases key - heap[curr].key
      {
        ghost var i, h1, tr1 := m, heap, tr;
        pred, curr, ver, m, g := Hop(t, curr, m);
        WithinTransitive(old(tr), i, m);
        CarriedTransitive(old(heap), h1, heap, t);
        CalmTransitive(old(tr), tr1, tr, t);
      }
    }

    /** curr_ver = curr->lock; pred = curr; pred_ver = curr_ver; curr = curr->next */
    method Hop(t: nat, p: Ref, ghost i: Run) returns (pred: Ref, curr: Ref, ver: nat, ghost m: Run, ghost g: Sight)
      requires Valid() && In(heap, p) && Within(i, tr) && OnChain(i.now, p) && p != TAIL
      modifies this
      ensures Valid() && Carried(old(heap), heap, t) && Held(heap, t) == Held(old(heap), t)
      ensures Calm(old(tr), tr, t)
      ensures pred == p && PointsUp(heap, p)
      ensures Within(i, m) && Within(m, tr) && Stands(m.now, p, curr)
      ensures In(heap, curr) && m.now[p].key == heap[p].key < heap[curr].key == m.now[curr].key
      ensures ReadAfter(heap[pred], ver, curr, g)
      ensures Calls.Alone(old(tr), tr, t) ==> tr == old(tr) && ver == heap[p].lock.version && (OnChain(heap, p) ==> Stands(heap, p, curr))
    {
      ver := ReadVersion(t, p);
      pred, g := p, Sight(heap[p].lock, heap[p].next, heap[p].lock);
      ghost var h1 := heap;
      curr, m := ReadNext(t, p, i);
      g := g.(later := heap[p].lock);
      assert CellKept(h1[p], heap[p], t);
      CarriedTransitive(old(heap), h1, heap, t);
    }

    /** pred->next = newnode, under the validated lock. */
    method StoreNew(t: nat, pred: Ref, curr: Ref, key: int, val: int, ghost from: Run)
      requires Valid() && Quiet(from, tr, t) && In(heap, pred) && In(heap, curr) && HeldBy(heap[pred].lock, t)
      requires heap[pred].next == curr && heap[pred].key < key < heap[curr].key
      modifies this
      ensures Valid() && Held(heap, t) == Held(old(heap), t) && In(heap, pred) && HeldBy(heap[pred].lock, t)
      ensures Added(from, tr, t, key, val) && Calls.Foreign(old(tr), t) <= Calls.Foreign(tr, t)
    {
      Interfere(t);
      RunIsTame(tr, tr);
      StepKeeps(heap, t, Link(pred, curr, key, val));
      Record(t, Link(pred, curr, key, val));
      AddStep(from, tr, t, key, val);
    }

    /** One round of insert: -1 when it restarts. */
    method TryInsert(t: nat, key: int, val: int, ghost from: Run) returns (result: int)
      requires Valid() && min < key < max && Held(heap, t) == {} && Quiet(from, tr, t)
      modifies this
      ensures Valid() && Held(heap, t) == {}
      ensures result == -1 || result == 0 || result == 1
      ensures if result == 1 then Added(from, tr, t, key, val) else Quiet(from, tr, t)
      ensures result == 0 ==> SawPresent(from, tr, key)
      ensures Calls.Foreign(old(tr), t) <= Calls.Foreign(tr, t)
      ensures Calls.Alone(old(tr), tr, t) && Idle(old(heap)) ==> result >= 0
    {
      RunIsTame(tr, tr);
      var pred, curr, ver;
      ghost var m, g;
      pred, curr, ver, m, g := ParseInsert(t, key);
      WithinTransitive(from, old(tr), m);
      if heap[curr].key == key {
        Verdict(from, m, tr, pred, curr, key);
        return 0;
      }
      ghost var h1 := heap;
      var ok := TryLock(t, pred, ver);
      if !ok { return -1; }
      ReadAfterKept(h1[pred], heap[pred], t, ver, curr, g);
      ValidatedNext(heap[pred], t, ver, curr, g);
      StoreNew(t, pred, curr, key, val, from);
      Release(t, pred, false);
      result := 1;
    }

    /** Inserts the pair; None when the call has not returned. A call that begins while no lock is held
        and that nobody disturbs returns in its first round, and leaves no lock held. */
    method Insert(t: nat, key: int, val: int, rounds: nat) returns (r: Option<int>)
      requires Valid() && min < key < max && Held(heap, t) == {}
      modifies this
      ensures Valid() && Held(heap, t) == {}
      ensures match r
        case Some(1) => Added(old(tr), tr, t, key, val)
        case Some(n) => n == 0 && Quiet(old(tr), tr, t) && SawPresent(old(tr), tr, key)
        case None => Quiet(old(tr), tr, t)
      ensures r.None? ==> rounds == 0 || !Idle(old(heap)) || !Calls.Alone(old(tr), tr, t)
      ensures r.Some? && Idle(old(heap)) && Calls.Alone(old(tr), tr, t) ==> Idle(heap)
    {
      var n := rounds;
      NothingYet(tr, t);
      assert Within(tr, tr);
      while n > 0
        invariant Valid() && Held(heap, t) == {} && Quiet(old(tr), tr, t) && Calls.Foreign(old(tr), t) <= Calls.Foreign(tr, t)
        invariant if n == rounds then tr == old(tr) else !Idle(old(heap)) || !Calls.Alone(old(tr), tr, t)
      {
        var result := TryInsert(t, key, val, old(tr));
        if result >= 0 {
          AddedSince(old(tr), tr, t, key, val);
          AloneEndsIdle(old(tr), tr, t);
          return Some(result);
        }
        n := n - 1;
      }
      r := None;
    }

    /** The traversal of remove: the versions of `pred` and of `curr` are both read on the way,
        that of `pred` before its next. */
    method ParseRemove(t: nat, key: int)
      returns (pred: Ref, curr: Ref, ver: nat, currVer: nat, ghost m: Run, ghost g: Sight, ghost cg: Sight)
      requires Valid() && min < key < max
      modifies this
      ensures Valid() && Carried(old(heap), heap, t) && Held(heap, t) == Held(old(heap), t)
      ensures Calm(old(tr), tr, t)
      ensures In(heap, pred) && In(heap, curr) && heap[pred].key < key <= heap[curr].key
      ensures Within(old(tr), m) && Within(m, tr) && Stands(m.now, pred, curr)
      ensures m.now[pred].key == heap[pred].key && m.now[curr].key == heap[curr].key
      ensures ReadAfter(heap[pred], ver, curr, g) && Glimpsed(heap[curr], currVer, cg)
      ensures Calls.Alone(old(tr), tr, t) ==> tr == old(tr) && Seen(heap, pred, curr, ver, currVer)
    {
      RunIsTame(tr, tr);
      ChainHasEnds(heap);
      curr, m := HEAD, tr;
      currVer := ReadVersion(t, curr);
      cg := Sight(heap[curr].lock, heap[curr].next, heap[curr].lock);
      pred, curr, ver, currVer, m, g, cg := HopRemove(t, curr, currVer, m, cg);
      while heap[curr].key < key
        invariant Valid() && Carried(old(heap), heap, t) && Held(heap, t) == Held(old(heap), t)
        invariant Calm(old(tr), tr, t)
        invariant In(heap, pred) && In(heap, curr) && heap[pred].key < key
        invariant Within(old(tr), m) && Within(m, tr) && Stands(m.now, pred, curr)
        invariant m.now[pred].key == heap[pred].key && m.now[curr].key == heap[curr].key
        invariant ReadAfter(heap[pred], ver, curr, g) && Glimpsed(heap[curr], currVer, cg)
        invariant Calls.Alone(old(tr), tr, t) ==> tr == old(tr) && Seen(heap, pred, curr, ver, currVer)
        decreases key - heap[curr].key
      {
        ghost var i, h1, tr1 := m, heap, tr;
        pred, curr, ver, currVer, m, g, cg := HopRemove(t, curr, currVer, m, cg);
        WithinTransitive(old(tr), i, m);
        CarriedTransitive(old(heap), h1, heap, t);
        CalmTransitive(old(tr), tr1, tr, t);
      }
    }

    /** pred = curr; pred_ver = curr_ver; curr = curr->next; curr_ver = curr->lock */
    method HopRemove(t: nat, p: Ref, pVer: nat, ghost i: Run, ghost pg: Sight)
      returns (pred: Ref, curr: Ref, ver: nat, currVer: nat, ghost m: Run, ghost g: Sight, ghost cg: Sight)
      requires Valid() && In(heap, p) && Within(i, tr) && OnChain(i.now, p) && p != TAIL && Glimpsed(heap[p], pVer, pg)
      modifies this
      ensures Valid() && Carried(old(heap), heap, t) && Held(heap, t) == Held(old(heap), t)
      ensures Calm(old(tr), tr, t)
      ensures pred == p && In(heap, pred) && In(heap, curr)
      ensures Within(i, m) && Within(m, tr) && Stands(m.now, p, curr)
      ensures m.now[p].key == heap[p].key < heap[curr].key == m.now[curr].key
      ensures ReadAfter(heap[pred], ver, curr, g) && Glimpsed(heap[curr], currVer, cg)
      ensures Calls.Alone(old(tr), tr, t) && OnChain(old(heap), p) && pVer == old(heap)[p].lock.version ==>
        tr == old(tr) && Seen(heap, pred, curr, ver, currVer)
    {
      ghost var h1 := heap;
      pred, ver := p, pVer;
      curr, m := ReadNext(t, p, i);
      g := pg.(later := heap[p].lock);
      assert CellKept(h1[p], heap[p], t);
      assert ReadAfter(heap[p], ver, curr, g);
      ghost var h2 := heap;
      currVer := ReadVersion(t, curr);
      cg := Sight(heap[curr].lock, heap[curr].next, heap[curr].lock);
      CarriedTransitive(h1, h2, heap, t);
      ReadAfterKept(h2[p], heap[p], t, ver, curr, g);
    }

    /** pred->next = cnxt, under both validated locks; the lock of `curr` is never released. */
    method StoreUnlink(t: nat, pred: Ref, curr: Ref, next: Ref, ghost from: Run)
      requires Valid() && Quiet(from, tr, t) && Enabled(heap, t, Unlink(pred, curr, next))
      modifies this
      ensures Valid() && Held(heap, t) == Held(old(heap), t) - {curr} && In(heap, pred) && HeldBy(heap[pred].lock, t)
      ensures In(heap, curr) && heap[curr].val == old(heap[curr].val)
      ensures Removed(from, tr, t, old(heap[curr].key), old(heap[curr].val)) && Calls.Foreign(old(tr), t) <= Calls.Foreign(tr, t)
    {
      Interfere(t);
      assert CellKept(old(heap)[pred], heap[pred], t) && CellKept(old(heap)[curr], heap[curr], t);
      UnlinkNow(t, pred, curr, next, from);
    }

    method UnlinkNow(t: nat, pred: Ref, curr: Ref, next: Ref, ghost from: Run)
      requires Valid() && Quiet(from, tr, t) && Enabled(heap, t, Unlink(pred, curr, next))
      modifies this
      ensures Valid() && Held(heap, t) == Held(old(heap), t) - {curr} && In(heap, pred) && HeldBy(heap[pred].lock, t)
      ensures In(heap, curr) && heap[curr].val == old(heap[curr].val)
      ensures Removed(from, tr, t, old(heap[curr].key), old(heap[curr].val)) && Calls.Alone(old(tr), tr, t)
    {
      RunIsTame(tr, tr);
      StepKeeps(heap, t, Unlink(pred, curr, next));
      Record(t, Unlink(pred, curr, next));
      RemoveStep(from, tr, t, heap[curr].key, heap[curr].val);
    }

    /** The two trylocks of remove; when the second one fails the first one is reverted. */
    method LockBoth(t: nat, pred: Ref, curr: Ref, ver: nat, currVer: nat, next: Ref, ghost g: Sight, ghost cg: Sight) returns (ok: bool)
      requires Valid() && Held(heap, t) == {} && In(heap, pred) && In(heap, curr) && pred != curr
      requires ReadAfter(heap[pred], ver, curr, g) && ReadAfter(heap[curr], currVer, next, cg)
      modifies this
      ensures Valid() && Calm(old(tr), tr, t) && Held(heap, t) == if ok then {pred, curr} else {}
      ensures ok ==> In(heap, pred) && In(heap, curr) && HeldBy(heap[pred].lock, t) && HeldBy(heap[curr].lock, t)
      ensures ok ==> heap[pred].next == curr && heap[curr].next == next
      ensures ok ==> heap[curr].key == old(heap[curr].key) && heap[curr].val == old(heap[curr].val)
      ensures Calls.Alone(old(tr), tr, t) && FreeAt(old(heap), pred, ver) && FreeAt(old(heap), curr, currVer) ==> ok
    {
      ghost var h0 := heap;
      ok := TryLock(t, pred, ver);
      if ok {
        ReadAfterKept(h0[pred], heap[pred], t, ver, curr, g);
        ValidatedNext(heap[pred], t, ver, curr, g);
        ReadAfterKept(h0[curr], heap[curr], t, currVer, next, cg);
        ghost var h1 := heap;
        ok := TryLock(t, curr, currVer);
        assert CellKept(h1[pred], heap[pred], t);
        if ok {
          ReadAfterKept(h1[curr], heap[curr], t, currVer, next, cg);
          ValidatedNext(heap[curr], t, currVer, next, cg);
        } else {
          Release(t, pred, true);
        }
      }
    }

    /** Remove after the traversal has found the key: lock, validate, unlink. */
    method LockAndUnlink(t: nat, pred: Ref, curr: Ref, ver: nat, currVer: nat, next: Ref, ghost g: Sight, ghost cg: Sight, ghost from: Run)
      returns (result: int, done: bool)
      requires Valid() && Held(heap, t) == {} && Quiet(from, tr, t)
      requires In(heap, pred) && In(heap, curr) && pred != curr && curr != TAIL
      requires ReadAfter(heap[pred], ver, curr, g) && ReadAfter(heap[curr], currVer, next, cg)
      modifies this
      ensures Valid() && Held(heap, t) == {}
      ensures !done ==> result == 0 && Quiet(from, tr, t)
      ensures done ==> Removed(from, tr, t, old(heap[curr].key), result)
      ensures Calls.Foreign(old(tr), t) <= Calls.Foreign(tr, t)
      ensures Calls.Alone(old(tr), tr, t) && FreeAt(old(heap), pred, ver) && FreeAt(old(heap), curr, currVer) ==> done
    {
      result, done := 0, false;
      var ok := LockBoth(t, pred, curr, ver, currVer, next, g, cg);
      if ok {
        StoreUnlink(t, pred, curr, next, from);
        Release(t, pred, false);
        result, done := heap[curr].val, true;
      }
    }

    /** One round of remove; not `done` when it restarts. */
    method TryRemove(t: nat, key: int, ghost from: Run) returns (result: int, done: bool)
      requires Valid() && min < key < max && Held(heap, t) == {} && Quiet(from, tr, t)
      modifies this
      ensures Valid() && Held(heap, t) == {}
      ensures !done ==> Quiet(from, tr, t)
      ensures done ==> Removed(from, tr, t, key, result) || (result == 0 && Quiet(from, tr, t) && SawAbsent(from, tr, key))
      ensures Calls.Foreign(old(tr), t) <= Calls.Foreign(tr, t)
      ensures Calls.Alone(old(tr), tr, t) && Idle(old(heap)) ==> done
    {
      RunIsTame(tr, tr);
      var pred, curr, ver, currVer;
      ghost var m, g, cg;
      pred, curr, ver, currVer, m, g, cg := ParseRemove(t, key);
      WithinTransitive(from, old(tr), m);
      if heap[curr].key != key {
        Verdict(from, m, tr, pred, curr, key);
        return 0, true;
      }
      ghost var h1 := heap;
      var next;
      ghost var i;
      next, i := ReadNext(t, curr, m);
      assert CellKept(h1[curr], heap[curr], t);
      ReadAfterKept(h1[pred], heap[pred], t, ver, curr, g);
      cg := cg.(later := heap[curr].lock);
      result, done := LockAndUnlink(t, pred, curr, ver, currVer, next, g, cg, from);
    }

    /** Removes the key and returns its value, 0 when it was absent; None when the call has not
        returned. The same holds of a call that nobody disturbs. */
    method Remove(t: nat, key: int, rounds: nat) returns (r: Option<int>)
      requires Valid() && min < key < max && Held(heap, t) == {}
      modifies this
      ensures Valid() && Held(heap, t) == {}
      ensures match r
        case Some(v) => Removed(old(tr), tr, t, key, v) || (v == 0 && Quiet(old(tr), tr, t) && SawAbsent(old(tr), tr, key))
        case None => Quiet(old(tr), tr, t)
      ensures r.None? ==> rounds == 0 || !Idle(old(heap)) || !Calls.Alone(old(tr), tr, t)
      ensures r.Some? && Idle(old(heap)) && Calls.Alone(old(tr), tr, t) ==> Idle(heap)
    {
      var n := rounds;
      NothingYet(tr, t);
      assert Within(tr, tr);
      while n > 0
        invariant Valid() && Held(heap, t) == {} && Quiet(old(tr), tr, t) && Calls.Foreign(old(tr), t) <= Calls.Foreign(tr, t)
        invariant if n == rounds then tr == old(tr) else !Idle(old(heap)) || !Calls.Alone(old(tr), tr, t)
      {
        var result, done := TryRemove(t, key, old(tr));
        if done {
          RemovedSince(old(tr), tr, t, key, result);
          AloneEndsIdle(old(tr), tr, t);
          return Some(result);
        }
        n := n - 1;
      }
      r := None;
    }
  }
}
