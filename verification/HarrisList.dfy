/** Harris's lock-free list: a mark bit in the next pointer, one CAS that snips a whole run of
    marked nodes, and reclamation of what a CAS cut out by the thread that cut it. */
module HarrisList {
  import opened History
  import opened ListModel
  import Calls

  /** Who is responsible for a node: the list, the thread whose CAS cut it out, or nobody any
      more because it was handed to the memory manager. Bookkeeping, not memory. */
  datatype Status = InList | CutBy(t: nat) | Retired

  type Mem = Heap<Status>

  /** The atomic steps that write shared memory, and the call that retires a node. */
  datatype Act =
    | Link(left: Ref, right: Ref, key: int, val: int)    // CAS(&left->next, right, newnode)
    | Mark(n: Ref, next: Ref)                            // CAS(&n->next, next, marked(next))
    | Snip(left: Ref, cut: seq<Ref>, right: Ref)         // CAS(&left->next, cut[0], right)
    | Retire(n: Ref)                                     // ssmem_free(n)

  /** All nodes of `cut` are marked and each points to the next one, the last one to `last`. */
  predicate MarkedPath(h: Mem, cut: seq<Ref>, last: Ref) {
    forall k :: 0 <= k < |cut| ==> MarkedLink(h, cut, last, k)
  }

  predicate MarkedLink(h: Mem, cut: seq<Ref>, last: Ref, k: int) {
    SegmentLink(h, cut, last, k) && h[cut[k]].marked
  }

  /** When the CAS of thread `t` succeeds, or `t` may retire the node. */
  predicate Enabled(h: Mem, t: nat, a: Act) {
    match a
    case Link(l, r, key, val) =>
      In(h, l) && In(h, r) && !h[l].marked && h[l].next == r && h[l].key < key < h[r].key
    case Mark(n, next) =>
      In(h, n) && n != HEAD && n != TAIL && !h[n].marked && h[n].next == next
    case Snip(l, cut, r) =>
      In(h, l) && In(h, r) && cut != [] && !h[l].marked && h[l].next == cut[0] && MarkedPath(h, cut, r)
    case Retire(n) => In(h, n) && h[n].lock == CutBy(t)
  }

  /** Notes that thread `t` cut the nodes out. */
  function Noted(h: Mem, cut: seq<Ref>, t: nat): (h': Mem)
    ensures |h'| == |h|
    ensures forall r :: 0 <= r < |h| ==> h'[r] == if r in cut then h[r].(lock := CutBy(t)) else h[r]
  {
    seq(|h|, r requires 0 <= r < |h| => if r in cut then h[r].(lock := CutBy(t)) else h[r])
  }

  function Do(h: Mem, t: nat, a: Act): Mem
    requires Enabled(h, t, a)
  {
    match a
    case Link(l, r, key, val) => h[l := h[l].(next := |h|)] + [Cell(key, val, r, false, InList)]
    case Mark(n, next) => h[n := h[n].(marked := true)]
    case Snip(l, cut, r) => Noted(h[l := h[l].(next := r)], cut, t)
    case Retire(n) => h[n := h[n].(lock := Retired)]
  }

  /** What holds in every reachable state. A node is reachable exactly as long as the list is
      responsible for it. */
  ghost predicate Inv(h: Mem) {
    && Good(h) && Ascending(h)
    && (forall r :: 0 <= r < |h| && !h[r].marked ==> OnChain(h, r))
    && (forall r :: 0 <= r < |h| ==> (OnChain(h, r) <==> h[r].lock == InList))
  }

  function Init(min: int, max: int): Mem {
    [Cell(min, 0, TAIL, false, InList), Cell(max, 0, NULL, false, InList)]
  }

  lemma InitInv(min: int, max: int)
    requires min < max
    ensures Inv(Init(min, max)) && Bindings(Init(min, max)) == {}
  {
    assert Reaches(Init(min, max), TAIL, TAIL);
  }

  lemma LinkKeeps(h: Mem, t: nat, l: Ref, r: Ref, key: int, val: int)
    requires Inv(h) && Enabled(h, t, Link(l, r, key, val))
    ensures var h' := Do(h, t, Link(l, r, key, val));
      && Inv(h') && Evolves(h, h')
      && Absent(h, key) && Bindings(h') == Bindings(h) + {(key, val)}
  {
    var h' := Do(h, t, Link(l, r, key, val));
    LinkEffect(h, h', l, Cell(key, val, r, false, InList));
  }

  lemma MarkKeeps(h: Mem, t: nat, n: Ref, next: Ref)
    requires Inv(h) && Enabled(h, t, Mark(n, next))
    ensures var h' := Do(h, t, Mark(n, next));
      && Inv(h') && Evolves(h, h')
      && (h[n].key, h[n].val) in Bindings(h) && Bindings(h') == Bindings(h) - {(h[n].key, h[n].val)}
  {
    var h' := Do(h, t, Mark(n, next));
    MarkEffect(h, h', n);
  }

  /** A snip, of however many nodes, is a no-op on the set. */
  lemma SnipKeeps(h: Mem, t: nat, l: Ref, cut: seq<Ref>, r: Ref)
    requires Inv(h) && Enabled(h, t, Snip(l, cut, r))
    ensures var h' := Do(h, t, Snip(l, cut, r));
      Inv(h') && Evolves(h, h') && Bindings(h') == Bindings(h)
  {
    var h' := Do(h, t, Snip(l, cut, r));
    var h1 := h[l := h[l].(next := r)];
    assert MarkedLink(h, cut, r, 0);
    forall k | 0 <= k < |cut| ensures SegmentLink(h, cut, r, k) && h[cut[k]].marked {
      assert MarkedLink(h, cut, r, k);
    }
    SnipMarkedEffect(h, h1, l, cut, r);
    ShapeFrame(h1, h');
    EvolvesThenShape(h, h1, h');
  }

  lemma RetireKeeps(h: Mem, t: nat, n: Ref)
    requires Inv(h) && Enabled(h, t, Retire(n))
    ensures var h' := Do(h, t, Retire(n));
      Inv(h') && Evolves(h, h') && Bindings(h') == Bindings(h)
  {
    var h' := Do(h, t, Retire(n));
    ShapeFrame(h, h');
  }

  /** One atomic step by any thread keeps the invariant, is one that hindsight allows, and
      changes the set only by a successful insert CAS or a successful marking CAS. */
  lemma StepKeeps(h: Mem, t: nat, a: Act)
    requires Inv(h) && Enabled(h, t, a)
    ensures Inv(Do(h, t, a)) && Evolves(h, Do(h, t, a))
    ensures match a
      case Link(_, _, key, val) => Absent(h, key) && Bindings(Do(h, t, a)) == Bindings(h) + {(key, val)}
      case Mark(n, _) => (h[n].key, h[n].val) in Bindings(h) && Bindings(Do(h, t, a)) == Bindings(h) - {(h[n].key, h[n].val)}
      case _ => Bindings(Do(h, t, a)) == Bindings(h)
  {
    match a
    case Link(l, r, key, val) => LinkKeeps(h, t, l, r, key, val);
    case Mark(n, next) => MarkKeeps(h, t, n, next);
    case Snip(l, cut, r) => SnipKeeps(h, t, l, cut, r);
    case Retire(n) => RetireKeeps(h, t, n);
  }

  // ---------------------------------------------------------------- runs

  type Run = Trace<Mem, Act>

  /** A run begins in any state that satisfies the invariant and goes on by enabled steps of any
      threads. */
  ghost function First(): Mem -> bool {
    h => Inv(h)
  }

  ghost function CanStep(): (Mem, nat, Act, Mem) -> bool {
    (h: Mem, t: nat, a: Act, h': Mem) => Enabled(h, t, a) && h' == Do(h, t, a)
  }

  ghost predicate IsRun(tr: Run) {
    IsRunOf(First(), CanStep(), tr)
  }

  /** Safety over whole runs: every state of every run satisfies the invariant and follows
      from the one before by a step that hindsight allows. */
  lemma RunIsTame(m: Run, tr: Run)
    requires IsRun(tr) && Within(m, tr)
    ensures Inv(tr.now) && Inv(m.now) && Tame(m, tr)
  {
    forall h, t, a, h' | First()(h) && CanStep()(h, t, a, h') ensures First()(h') && Evolves(h, h') {
      StepKeeps(h, t, a);
    }
    RunTames(First(), CanStep(), m, tr);
  }

  // ---------------------------------------------------------------- who retires what

  function Origin(tr: Run): Mem {
    match tr
    case Start(h) => h
    case Then(before, _, _, _) => Origin(before)
  }

  ghost predicate Untouched(h: Mem) {
    forall r :: 0 <= r < |h| ==> h[r].lock == InList
  }

  ghost predicate CutOut(m: Run, t: nat, n: Ref) {
    m.Then? && m.who == t && m.act.Snip? && n in m.act.cut
  }

  lemma {:induction false} CutByItsSnip(tr: Run, t: nat, n: Ref)
    requires IsRun(tr) && In(tr.now, n) && tr.now[n].lock == CutBy(t)
    requires Untouched(Origin(tr))
    ensures exists m :: Within(m, tr) && CutOut(m, t, n)
    decreases tr
  {
    LastStep(First(), CanStep(), tr);
    if tr.Then? {
      if !CutOut(tr, t, n) {
        RunPrefix(First(), CanStep(), tr.before, tr);
        assert Origin(tr.before) == Origin(tr);
        CutByItsSnip(tr.before, t, n);
        var m :| Within(m, tr.before) && CutOut(m, t, n);
        assert Within(m, tr);
      }
    }
  }

  /** A node is only ever retired by the thread whose CAS cut it out of the list. */
  lemma RetiredByItsCutter(tr: Run, n: Ref)
    requires IsRun(tr) && tr.Then? && tr.act == Retire(n)
    requires Untouched(Origin(tr))
    ensures exists m :: Within(m, tr.before) && CutOut(m, tr.who, n)
  {
    LastStep(First(), CanStep(), tr);
    RunPrefix(First(), CanStep(), tr.before, tr);
    assert Origin(tr.before) == Origin(tr);
    CutByItsSnip(tr.before, tr.who, n);
  }

  lemma {:induction false} StaysRetired(m: Run, tr: Run, n: Ref)
    requires IsRun(tr) && Within(m, tr) && In(m.now, n) && m.now[n].lock == Retired
    ensures In(tr.now, n) && tr.now[n].lock == Retired
    decreases tr
  {
    if m != tr {
      LastStep(First(), CanStep(), tr);
      RunPrefix(First(), CanStep(), tr.before, tr);
      StaysRetired(m, tr.before, n);
      RunIsTame(tr.before, tr.before);
      if tr.act.Snip? { SnipCutsChain(tr.before.now, tr.who, tr.act.left, tr.act.cut, tr.act.right); }
    }
  }

  /** A retired node is never retired again, and never cut out again. */
  lemma RetiredOnce(m: Run, tr: Run, n: Ref)
    requires IsRun(tr) && tr.Then? && Within(m, tr.before) && m.Then? && m.act == Retire(n)
    ensures tr.act != Retire(n) && !CutOut(tr, tr.who, n)
  {
    LastStep(First(), CanStep(), tr);
    RunPrefix(First(), CanStep(), m, tr);
    LastStep(First(), CanStep(), m);
    RunPrefix(First(), CanStep(), tr.before, tr);
    StaysRetired(m, tr.before, n);
    RunIsTame(tr.before, tr.before);
    if tr.act.Snip? { SnipCutsChain(tr.before.now, tr.who, tr.act.left, tr.act.cut, tr.act.right); }
  }

  lemma {:induction false} OriginOfPrefix(m: Run, tr: Run)
    requires Within(m, tr)
    ensures Origin(m) == Origin(tr)
    decreases tr
  {
    if m != tr { OriginOfPrefix(m, tr.before); }
  }

  ghost predicate RetiresAt(r: Run, t: nat, n: Ref) {
    r.Then? && r.who == t && r.act == Retire(n)
  }

  lemma {:induction false} RetiredByAStep(tr: Run, n: Ref) returns (r: Run)
    requires IsRun(tr) && In(tr.now, n) && tr.now[n].lock == Retired && Untouched(Origin(tr))
    ensures Within(r, tr) && r.Then? && RetiresAt(r, r.who, n)
    decreases tr
  {
    LastStep(First(), CanStep(), tr);
    if RetiresAt(tr, tr.who, n) {
      r := tr;
    } else {
      r := RetiredByAStep(tr.before, n);
    }
  }

  /** The node is owed to the memory manager by the thread whose snip was the last step of `m`, or
      has been handed over by that thread since. */
  ghost predicate Disposed(m: Run, tr: Run, n: Ref) {
    m.Then? && In(tr.now, n)
    && (tr.now[n].lock == CutBy(m.who) || exists r :: Within(m, r) && Within(r, tr) && RetiresAt(r, m.who, n))
  }

  /** Conservation over whole runs: every node that is not reachable was cut out by some thread's
      snip, and that thread has retired it since or still owes it. */
  lemma UnreachableIsDisposed(tr: Run, n: Ref)
    requires IsRun(tr) && Untouched(Origin(tr)) && In(tr.now, n) && !OnChain(tr.now, n)
    ensures exists m :: Within(m, tr) && m.Then? && CutOut(m, m.who, n) && Disposed(m, tr, n)
  {
    RunIsTame(tr, tr);
    if tr.now[n].lock == Retired {
      var r := RetiredByAStep(tr, n);
      RunPrefix(First(), CanStep(), r, tr);
      OriginOfPrefix(r, tr);
      RetiredByItsCutter(r, n);
      var m :| Within(m, r.before) && CutOut(m, r.who, n);
      assert Within(m, r) && RetiresAt(r, m.who, n);
      WithinTransitive(m, r, tr);
      assert Disposed(m, tr, n);
    } else {
      var t := tr.now[n].lock.t;
      CutByItsSnip(tr, t, n);
      var m :| Within(m, tr) && CutOut(m, t, n);
      assert Disposed(m, tr, n);
    }
  }

  /** What has become of the node that an insert allocates and nobody else can see before it is
      published. */
  datatype Private = Unallocated | Allocated | Freed | Published

  // ---------------------------------------------------------------- the code

  /** The nodes that thread `t` cut out and has not retired yet. */
  ghost function Pending(h: Mem, t: nat): set<Ref> {
    set r | 0 <= r < |h| && h[r].lock == CutBy(t)
  }

  /** One cell before and after: key and value stay, a marked node's next is frozen, and a node
      that is off the list stays off. */
  ghost predicate CellKept(c: Cell<Status>, c': Cell<Status>) {
    && c'.key == c.key && c'.val == c.val && (c.marked ==> c'.marked && c'.next == c.next)
    && (c.lock != InList ==> c'.lock != InList)
  }

  ghost predicate Carried(h: Mem, h': Mem) {
    |h| <= |h'| && forall r :: 0 <= r < |h| ==> CellKept(h[r], h'[r])
  }

  lemma CarriedTransitive(h0: Mem, h1: Mem, h2: Mem)
    requires Carried(h0, h1) && Carried(h1, h2)
    ensures Carried(h0, h2)
  {
  }

  /** Every step, by whomever, keeps what is frozen. */
  lemma StepCarries(h: Mem, u: nat, a: Act)
    requires Enabled(h, u, a)
    ensures Carried(h, Do(h, u, a))
  {
  }

  lemma ForeignStepLeavesPending(h: Mem, u: nat, a: Act, t: nat)
    requires Inv(h) && Enabled(h, u, a) && u != t
    ensures Pending(Do(h, u, a), t) == Pending(h, t)
  {
    if a.Snip? { SnipCutsChain(h, u, a.left, a.cut, a.right); }
  }

  /** The nodes a snip cuts out were all on the chain, are all different and are no sentinels. */
  lemma SnipCutsChain(h: Mem, t: nat, l: Ref, cut: seq<Ref>, r: Ref)
    requires Inv(h) && Enabled(h, t, Snip(l, cut, r))
    ensures forall n :: n in cut ==> OnChain(h, n) && h[n].lock == InList && n != HEAD && n != TAIL && n != l
    ensures forall i, j :: 0 <= i < j < |cut| ==> cut[i] != cut[j]
  {
    assert MarkedLink(h, cut, r, 0);
    forall k | 0 <= k < |cut| ensures SegmentLink(h, cut, r, k) {
      assert MarkedLink(h, cut, r, k);
    }
    ChainSnip(h, h[l := h[l].(next := r)], l, cut, r);
  }

  lemma MarkedPathKept(h: Mem, h': Mem, cut: seq<Ref>, last: Ref)
    requires Carried(h, h') && MarkedPath(h, cut, last)
    ensures MarkedPath(h', cut, last)
  {
    forall k | 0 <= k < |cut| ensures MarkedLink(h', cut, last, k) {
      assert MarkedLink(h, cut, last, k);
    }
  }

  lemma MarkedPathExtends(h: Mem, cut: seq<Ref>, n: Ref)
    requires MarkedPath(h, cut, n) && In(h, n) && n != TAIL && h[n].marked
    ensures MarkedPath(h, cut + [n], h[n].next)
  {
    forall k | 0 <= k < |cut| + 1 ensures MarkedLink(h, cut + [n], h[n].next, k) {
      if k < |cut| { assert MarkedLink(h, cut, n, k); }
    }
  }

  /** What harris_search guarantees about its result: at moment `m` of the call left was alive,
      left->next was right and the keys enclose the wanted one; at moment `seen`, not before
      `m`, right was not marked. */
  ghost predicate Found(from: Run, m: Run, seen: Run, tr: Run, left: Ref, right: Ref, key: int) {
    && Within(from, m) && Within(m, seen) && Within(seen, tr)
    && Stands(m.now, left, right) && !m.now[left].marked && m.now[left].key < key <= m.now[right].key
    && In(seen.now, right) && !seen.now[right].marked
  }

  /** At moment `m` the node was alive and below the key, with that next. */
  ghost predicate Passed(from: Run, m: Run, tr: Run, left: Ref, next: Ref, key: int) {
    && Within(from, m) && Within(m, tr) && Stands(m.now, left, next) && !m.now[left].marked
    && In(tr.now, left) && m.now[left].key == tr.now[left].key < key
  }

  lemma PassedStays(from: Run, m: Run, tr: Run, tr': Run, left: Ref, next: Ref, key: int)
    requires Passed(from, m, tr, left, next, key) && Within(tr, tr') && Carried(tr.now, tr'.now)
    ensures Passed(from, m, tr', left, next, key)
  {
    WithinTransitive(m, tr, tr');
  }

  lemma FoundGrows(from: Run, m: Run, seen: Run, tr: Run, tr': Run, left: Ref, right: Ref, key: int)
    requires Found(from, m, seen, tr, left, right, key) && Within(tr, tr')
    ensures Found(from, m, seen, tr', left, right, key)
  {
    WithinTransitive(seen, tr, tr');
  }

  /** Every answer that is derived from such a result is right at a moment of the call. */
  lemma FoundAnswers(from: Run, m: Run, seen: Run, tr: Run, left: Ref, right: Ref, key: int)
    requires IsRun(tr) && Found(from, m, seen, tr, left, right, key) && In(tr.now, TAIL) && key < tr.now[TAIL].key
    ensures In(tr.now, left) && tr.now[left].key == m.now[left].key
    ensures In(tr.now, right) && tr.now[right].key == m.now[right].key
    ensures tr.now[right].key == key ==> SawBinding(from, tr, key, tr.now[right].val)
    ensures tr.now[right].key != key ==> SawAbsent(from, tr, key)
  {
    WithinTransitive(m, seen, tr);
    RunIsTame(m, tr);
    TameKeeps(m, tr, right);
    TameKeeps(m, tr, left);
    RunIsTame(seen, tr);
    TameKeeps(seen, tr, TAIL);
    TameKeeps(seen, tr, right);
    RunPrefix(First(), CanStep(), seen, tr);
    RunIsTame(m, seen);
    TameKeeps(m, seen, TAIL);
    TraversalVerdict(from, m, seen, left, right, key);
    if m.now[right].key == key {
      var i :| Within(from, i) && Within(i, seen) && (key, seen.now[right].val) in Bindings(i.now);
      WithinTransitive(i, seen, tr);
    } else {
      AbsentGrows(from, seen, tr, key);
    }
  }

  // ---------------------------------------------------------------- what a thread does itself

  /** Thread `t` took no step between the two moments; if nobody else did, nothing happened. */
  ghost predicate Paused(tr0: Run, tr: Run, t: nat) {
    Calls.Own(tr, t) == Calls.Own(tr0, t) && (Calls.Alone(tr0, tr, t) ==> tr == tr0)
  }

  ghost predicate SnipsNow(m: Run, t: nat, left: Ref, cut: seq<Ref>, right: Ref) {
    m.Then? && m.who == t && m.act == Snip(left, cut, right)
  }

  /** At least `n` steps of other threads were taken between the two moments. */
  ghost predicate Disturbed(tr0: Run, tr: Run, t: nat, n: nat) {
    Calls.Foreign(tr0, t) + n <= Calls.Foreign(tr, t)
  }

  /** Two unmarked neighbours. */
  ghost predicate Tidy(h: Mem, left: Ref, right: Ref) {
    Clean(h, left, right) && In(h, right) && !h[right].marked
  }

  /** The node is not marked and has that next. */
  ghost predicate Clean(h: Mem, left: Ref, next: Ref) {
    In(h, left) && !h[left].marked && h[left].next == next
  }

  /** At most the bookkeeping has changed. */
  ghost predicate Retires(h: Mem, h': Mem) {
    |h'| == |h| && forall r :: 0 <= r < |h| ==> h'[r] == h[r].(lock := h'[r].lock)
  }

  // ---------------------------------------------------------------- the end of a removal

  /** Thread `t` changed the set in exactly one step, by marking node `n`, which had the pair. */
  ghost predicate MarkedSince(from: Run, tr: Run, t: nat, n: Ref, key: int, val: int) {
    && Removed(from, tr, t, key, val)
    && exists m :: Within(from, m) && Within(m, tr) && MarksNow(m, t, n, key, val)
  }

  ghost predicate MarksNow(m: Run, t: nat, n: Ref, key: int, val: int) {
    m.Then? && m.who == t && m.act.Mark? && m.act.n == n && In(m.now, n) && m.now[n].key == key && m.now[n].val == val
  }

  lemma MarkedSinceStays(from: Run, tr: Run, tr': Run, t: nat, n: Ref, key: int, val: int)
    requires MarkedSince(from, tr, t, n, key, val) && Calm(tr, tr', t)
    ensures MarkedSince(from, tr', t, n, key, val)
  {
    var m :| Within(from, m) && Within(m, tr) && MarksNow(m, t, n, key, val);
    assert Within(m, tr');
  }

  /** From moment `from` on, thread `t` changed the set in exactly one step, by marking a node with
      the pair, and that node is off the list by now. */
  ghost predicate RemovedForGood(from: Run, tr: Run, t: nat, key: int, val: int) {
    exists n {:trigger MarkedSince(from, tr, t, n, key, val)} ::
      MarkedSince(from, tr, t, n, key, val) && In(tr.now, n) && !OnChain(tr.now, n)
  }

  /** A search for a marked node's key, begun after the mark, ends with the node off the list. */
  lemma SearchTakesOff(from: Run, m: Run, seen: Run, tr: Run, left: Ref, right: Ref, n: Ref)
    requires IsRun(tr) && In(from.now, n) && from.now[n].marked && n != HEAD && n != TAIL
    requires Found(from, m, seen, tr, left, right, from.now[n].key)
    ensures In(tr.now, n) && !OnChain(tr.now, n)
  {
    WithinTransitive(m, seen, tr);
    RunPrefix(First(), CanStep(), m, tr);
    RunPrefix(First(), CanStep(), seen, tr);
    RunCarries(from, m);
    RunCarries(m, seen);
    RunCarries(m, tr);
    RunIsTame(m, tr);
    if OnChain(m.now, n) {
      var h := m.now;
      ReachesLinear(h, HEAD, left, n);
      if Reaches(h, n, left) { ReachesUp(h, n, left); }
      if n != right { ReachesUp(h, right, n); }
    }
  }

  lemma {:induction false} RunCarries(m: Run, tr: Run)
    requires IsRun(tr) && Within(m, tr)
    ensures Carried(m.now, tr.now)
    decreases tr
  {
    if m != tr {
      LastStep(First(), CanStep(), tr);
      RunCarries(m, tr.before);
      StepCarries(tr.before.now, tr.who, tr.act);
    }
  }

  lemma {:induction false} CutBelow(h: Mem, cut: seq<Ref>, last: Ref, k: int)
    requires Ascending(h) && MarkedPath(h, cut, last) && 0 <= k < |cut|
    ensures In(h, last) && In(h, cut[k]) && h[cut[k]].key < h[last].key
    decreases |cut| - k
  {
    assert MarkedLink(h, cut, last, k) && PointsUp(h, cut[k]);
    if k + 1 < |cut| {
      CutBelow(h, cut, last, k + 1);
    }
  }

  ghost function Elements(s: seq<Ref>): set<Ref> {
    set x | x in s
  }

  /** The CAS leaves the cut nodes, and no others, for its thread to retire. */
  lemma SnipOwes(h: Mem, t: nat, l: Ref, cut: seq<Ref>, r: Ref)
    requires Inv(h) && Enabled(h, t, Snip(l, cut, r)) && Pending(h, t) == {}
    ensures Pending(Do(h, t, Snip(l, cut, r)), t) == Elements(cut)
    ensures forall i, j :: 0 <= i < j < |cut| ==> cut[i] != cut[j]
  {
    SnipCutsChain(h, t, l, cut, r);
    var h' := Do(h, t, Snip(l, cut, r));
    forall n ensures n in Pending(h', t) <==> n in Elements(cut) {
      if 0 <= n < |h| && n !in cut { assert n !in Pending(h, t); }
    }
  }

  lemma KeysFixed(m: Run, tr: Run, p: Ref, s: Ref)
    requires IsRun(tr) && Within(m, tr) && In(m.now, p) && In(m.now, s)
    ensures In(tr.now, p) && tr.now[p].key == m.now[p].key && In(tr.now, s) && tr.now[s].key == m.now[s].key
  {
    RunIsTame(m, tr);
    TameKeeps(m, tr, p);
    TameKeeps(m, tr, s);
  }

  class HarrisList {
    const min: int
    const max: int
    var heap: Mem
    ghost var tr: Run

    ghost predicate Valid()
      reads this
    {
      IsRun(tr) && tr.now == heap && 2 <= |heap| && heap[HEAD].key == min && heap[TAIL].key == max
    }

    constructor (min: int, max: int)
      requires min < max
      ensures Valid() && Bindings(heap) == {} && this.min == min && this.max == max
    {
      heap := Init(min, max);
      tr := Start(Init(min, max));
      this.min, this.max := min, max;
      InitInv(min, max);
      RunBegins<Mem, Act>(First(), CanStep(), Init(min, max));
    }

    /** One step of thread `t`. */
    method Record(t: nat, a: Act)
      requires Valid() && Enabled(heap, t, a)
      modifies this
      ensures Valid() && heap == Do(old(heap), t, a) && tr == Then(old(tr), t, a, heap) && Carried(old(heap), heap)
      ensures forall u: nat :: u != t || a.Snip? || a.Retire? ==> Calm(old(tr), tr, u)
    {
      RunIsTame(tr, tr);
      StepKeeps(heap, t, a);
      StepCarries(heap, t, a);
      RunGoesOn(First(), CanStep(), tr, t, a, Do(tr.now, t, a));
      forall u: nat | u != t || a.Snip? || a.Retire? ensures Calm(tr, Then(tr, t, a, Do(heap, t, a)), u) {
        CalmStep(tr, t, a, Do(heap, t, a), u);
      }
      heap := Do(heap, t, a);
      tr := Then(tr, t, a, heap);
    }

    /** The other threads run: any number of steps, each by any thread but `t`, each one the
        code enables. Every access to shared memory below comes after such a pause. */
    method Interfere(t: nat)
      requires Valid()
      modifies this
      ensures Valid() && Carried(old(heap), heap) && Pending(heap, t) == Pending(old(heap), t)
      ensures Calm(old(tr), tr, t) && Paused(old(tr), tr, t)
    {
      var n: nat := *;
      while n > 0
        invariant Valid() && Carried(old(heap), heap) && Pending(heap, t) == Pending(old(heap), t)
        invariant Calm(old(tr), tr, t) && Paused(old(tr), tr, t)
      {
        var u: nat, a: Act := *, *;
        if u != t && Enabled(heap, u, a) {
          ghost var h1, tr1 := heap, tr;
          RunIsTame(tr, tr);
          ForeignStepLeavesPending(heap, u, a, t);
          Record(u, a);
          CarriedTransitive(old(heap), h1, heap);
          CalmTransitive(old(tr), tr1, tr, t);
        }
        n := n - 1;
      }
    }

    /** Reads p->next, pointer and mark in one word; NULL only at the tail. */
    method ReadNext(t: nat, p: Ref) returns (next: Ref, mark: bool)
      requires Valid() && In(heap, p)
      modifies this
      ensures Valid() && Carried(old(heap), heap) && Pending(heap, t) == Pending(old(heap), t)
      ensures Calm(old(tr), tr, t) && Paused(old(tr), tr, t)
      ensures next == heap[p].next && mark == heap[p].marked
      ensures next == NULL <==> p == TAIL
      ensures p != TAIL ==> PointsUp(heap, p) && heap[p].key < max
      ensures !mark && p != TAIL ==> Stands(heap, p, next)
      ensures p == HEAD || p == TAIL ==> !mark
    {
      Interfere(t);
      next, mark := heap[p].next, heap[p].marked;
      RunIsTame(tr, tr);
      if p != TAIL {
        assert PointsUp(heap, p);
        ChainHasEnds(heap);
        if !mark { NextInChain(heap, p); }
      }
    }

    /** The two reads at the end of the traversal's loop body: whether t->next is NULL, and if
        it is not, t->next again. The path walked so far stays as it is meanwhile. */
    method ReadStep(t: nat, n: Ref, cut: seq<Ref>) returns (isNull: bool, next: Ref, mark: bool)
      requires Valid() && In(heap, n) && MarkedPath(heap, cut, n)
      modifies this
      ensures Valid() && Carried(old(heap), heap) && Pending(heap, t) == Pending(old(heap), t)
      ensures Calm(old(tr), tr, t) && Paused(old(tr), tr, t) && MarkedPath(heap, cut, n)
      ensures isNull <==> n == TAIL
      ensures !isNull ==> next == heap[n].next && mark == heap[n].marked && PointsUp(heap, n) && heap[n].key < max
      ensures !isNull && !mark ==> Stands(heap, n, next)
      ensures isNull ==> !heap[n].marked
    {
      ghost var h1 := heap;
      next, mark := ReadNext(t, n);
      isNull := next == NULL;
      if !isNull {
        next, mark := ReadNext(t, n);
      }
      MarkedPathKept(h1, heap, cut, n);
    }

    /** The traversal of harris_search. It ends with a left node that was alive at moment `m`
        with next `leftNext`, and a path `cut` of marked nodes from there to the right node; the
        code does not keep the path, its CAS only relies on it. If nobody disturbs it, all this
        holds when it ends, and the right node is not marked. */
    method Scan(t: nat, key: int) returns (left: Ref, leftNext: Ref, right: Ref, ghost m: Run, cut: seq<Ref>)
      requires Valid() && min < key < max
      modifies this
      ensures Valid() && Carried(old(heap), heap) && Pending(heap, t) == Pending(old(heap), t)
      ensures Calm(old(tr), tr, t)
      ensures Passed(old(tr), m, tr, left, leftNext, key)
      ensures In(heap, right) && key <= heap[right].key && MarkedPath(heap, cut, right)
      ensures if cut == [] then leftNext == right else cut[0] == leftNext
      ensures Paused(old(tr), tr, t) && (Calls.Alone(old(tr), tr, t) ==> Clean(heap, left, leftNext) && !heap[right].marked)
    {
      var n, next, mark := HEAD, NULL, false;
      left, leftNext, m, cut := HEAD, HEAD, tr, [];
      next, mark := ReadNext(t, n);
      ghost var m1 := tr;
      while true
        invariant Valid() && Carried(old(heap), heap) && Pending(heap, t) == Pending(old(heap), t)
        invariant Calm(old(tr), tr, t)
        invariant Paused(old(tr), tr, t) && PointsUp(heap, n) && In(heap, next) && heap[n].key < heap[next].key && heap[n].key < max
        invariant Calls.Alone(old(tr), tr, t) ==> if mark then Clean(heap, left, leftNext) else Clean(heap, n, next)
        invariant mark ==> heap[n].marked && heap[n].next == next && n != TAIL && MarkedPath(heap, cut, n)
        invariant mark ==> if cut == [] then leftNext == n else cut[0] == leftNext
        invariant if mark then Passed(old(tr), m, tr, left, leftNext, key) else Passed(old(tr), m1, tr, n, next, key)
        decreases max - heap[n].key
      {
        if !mark {
          left, leftNext, m, cut := n, next, m1, [];
        } else {
          MarkedPathExtends(heap, cut, n);
          cut := cut + [n];
        }
        n := next;
        var isNull;
        ghost var tr1 := tr;
        isNull, next, mark := ReadStep(t, n, cut);
        PassedStays(old(tr), m, tr1, tr, left, leftNext, key);
        m1 := tr;
        if isNull || (!mark && heap[n].key >= key) { break; }
      }
      right := n;
    }

    /** right->next && is_marked_ref(right->next), the two reads of the check at the end. */
    method IsMarked(t: nat, right: Ref) returns (marked: bool)
      requires Valid() && In(heap, right)
      modifies this
      ensures Valid() && Carried(old(heap), heap) && Pending(heap, t) == Pending(old(heap), t)
      ensures Calm(old(tr), tr, t) && Paused(old(tr), tr, t) && marked == heap[right].marked
    {
      var next;
      next, marked := ReadNext(t, right);
      if next != NULL {
        next, marked := ReadNext(t, right);
      }
    }

    /** CAS(&left->next, leftNext, right). It takes a step exactly when it succeeds. */
    method CasSnip(t: nat, left: Ref, right: Ref, cut: seq<Ref>, leftNext: Ref) returns (ok: bool)
      requires Valid() && In(heap, left) && left != TAIL && MarkedPath(heap, cut, right) && cut != [] && cut[0] == leftNext
      requires In(heap, right) && Pending(heap, t) == {}
      modifies this
      ensures Valid() && Carried(old(heap), heap) && Calm(old(tr), tr, t)
      ensures MarkedPath(heap, cut, right) && In(heap, left)
      ensures Pending(heap, t) == if ok then Elements(cut) else {}
      ensures ok ==> Stands(heap, left, right) && !heap[left].marked && forall i, j :: 0 <= i < j < |cut| ==> cut[i] != cut[j]
      ensures if ok then SnipsNow(tr, t, left, cut, right) && Calls.Own(tr, t) == Calls.Own(old(tr), t) + 1
              else Paused(old(tr), tr, t) && !Clean(heap, left, leftNext)
      ensures Calls.Alone(old(tr), tr, t) ==> (ok <==> Clean(old(heap), left, leftNext))
      ensures Calls.Alone(old(tr), tr, t) ==> (forall r :: 0 <= r < |old(heap)| ==> heap[r].marked == old(heap)[r].marked)
    {
      ghost var h1 := heap;
      Interfere(t);
      MarkedPathKept(h1, heap, cut, right);
      ok := !heap[left].marked && heap[left].next == leftNext;
      if ok {
        RunIsTame(tr, tr);
        SnipOwes(heap, t, left, cut, right);
        SnipCutsChain(heap, t, left, cut, right);
        ghost var h2, tr2 := heap, tr;
        Record(t, Snip(left, cut, right));
        CarriedTransitive(h1, h2, heap);
        CalmTransitive(old(tr), tr2, tr, t);
        MarkedPathKept(h2, heap, cut, right);
        RunIsTame(tr, tr);
        NextInChain(heap, left);
      }
    }

    /** cur = unmarked(cur->next); ssmem_free(node_to_free) */
    method RetireOne(t: nat, n: Ref, right: Ref, ghost cut: seq<Ref>, ghost k: nat) returns (next: Ref)
      requires Valid() && k < |cut| && n == cut[k] && MarkedPath(heap, cut, right)
      requires Pending(heap, t) == Elements(cut[k..]) && forall i, j :: 0 <= i < j < |cut| ==> cut[i] != cut[j]
      modifies this
      ensures Valid() && Carried(old(heap), heap) && Calm(old(tr), tr, t) && MarkedPath(heap, cut, right)
      ensures Pending(heap, t) == Elements(cut[k + 1..])
      ensures next == if k + 1 < |cut| then cut[k + 1] else right
      ensures Calls.Alone(old(tr), tr, t) ==> Retires(old(heap), heap)
    {
      ghost var h1 := heap;
      assert MarkedLink(heap, cut, right, k);
      var mark;
      next, mark := ReadNext(t, n);
      MarkedPathKept(h1, heap, cut, right);
      assert MarkedLink(heap, cut, right, k);
      assert cut[k..] == [n] + cut[k + 1..];
      assert n in Pending(heap, t);
      ghost var h2, tr2 := heap, tr;
      Record(t, Retire(n));
      CarriedTransitive(h1, h2, heap);
      CalmTransitive(old(tr), tr2, tr, t);
      MarkedPathKept(h2, heap, cut, right);
      assert Pending(heap, t) == Pending(h2, t) - {n};
      assert n !in cut[k + 1..];
    }

    /** The retire loop after a successful snip: from leftNext along next up to the right node.
        It retires exactly the nodes the CAS cut out, each once. */
    method RetireCut(t: nat, leftNext: Ref, right: Ref, ghost cut: seq<Ref>)
      requires Valid() && In(heap, right) && MarkedPath(heap, cut, right) && cut != [] && cut[0] == leftNext
      requires Pending(heap, t) == Elements(cut) && forall i, j :: 0 <= i < j < |cut| ==> cut[i] != cut[j]
      modifies this
      ensures Valid() && Carried(old(heap), heap) && Calm(old(tr), tr, t) && Pending(heap, t) == {}
      ensures Calls.Alone(old(tr), tr, t) ==> Retires(old(heap), heap)
    {
      var cur := leftNext;
      ghost var k := 0;
      while true
        invariant Valid() && Carried(old(heap), heap) && Calm(old(tr), tr, t)
        invariant 0 <= k < |cut| && cur == cut[k] && MarkedPath(heap, cut, right)
        invariant Pending(heap, t) == Elements(cut[k..])
        invariant Calls.Alone(old(tr), tr, t) ==> Retires(old(heap), heap)
        decreases |cut| - k
      {
        var nodeToFree := cur;
        cur := RetireOne(t, nodeToFree, right, cut, k);
        k := k + 1;
        if cur == right {
          RunIsTame(tr, tr);
          if k < |cut| { CutBelow(heap, cut, right, k); }
          break;
        }
        assert MarkedLink(heap, cut, right, k - 1);
      }
    }

    /** CAS(&left->next, leftNext, right), and if it succeeds the retire loop. */
    method SnipAndRetire(t: nat, left: Ref, leftNext: Ref, right: Ref, cut: seq<Ref>) returns (ok: bool, ghost m: Run)
      requires Valid() && In(heap, left) && left != TAIL && MarkedPath(heap, cut, right) && cut != [] && cut[0] == leftNext
      requires In(heap, right) && Pending(heap, t) == {}
      modifies this
      ensures Valid() && Carried(old(heap), heap) && Calm(old(tr), tr, t) && Pending(heap, t) == {}
      ensures ok ==> Within(old(tr), m) && Within(m, tr) && Stands(m.now, left, right) && !m.now[left].marked
      ensures ok ==> m.now[left].key == old(heap[left].key) && m.now[right].key == old(heap[right].key)
      ensures Calls.Alone(old(tr), tr, t) && Clean(old(heap), left, leftNext) ==>
        ok && Clean(heap, left, right) && heap[right].marked == old(heap)[right].marked
    {
      ghost var h0 := heap;
      ok := CasSnip(t, left, right, cut, leftNext);
      m := tr;
      if ok {
        RetireCut(t, leftNext, right, cut);
      }
    }

    /** The traversal, and the CAS if there are marked nodes between the two: `ok` unless it fails. */
    method ScanAndSnip(t: nat, key: int) returns (left: Ref, right: Ref, ok: bool, ghost m: Run)
      requires Valid() && min < key < max && Pending(heap, t) == {}
      modifies this
      ensures Valid() && Carried(old(heap), heap) && Calm(old(tr), tr, t) && Pending(heap, t) == {} && In(heap, right)
      ensures ok ==> Within(old(tr), m) && Within(m, tr) && Stands(m.now, left, right) && !m.now[left].marked
      ensures ok ==> m.now[left].key < key <= m.now[right].key
      ensures Calls.Alone(old(tr), tr, t) ==> ok && Tidy(heap, left, right)
    {
      var leftNext, cut;
      left, leftNext, right, m, cut := Scan(t, key);
      KeysFixed(m, tr, left, leftNext);
      ok := true;
      if leftNext != right {
        ghost var tr1 := tr;
        ok, m := SnipAndRetire(t, left, leftNext, right, cut);
        if ok { WithinTransitive(old(tr), tr1, m); }
      }
    }

    /** One round of harris_search's loop. */
    method TrySearch(t: nat, key: int, ghost from: Run) returns (left: Ref, right: Ref, done: bool, ghost m: Run, ghost seen: Run)
      requires Valid() && min < key < max && Pending(heap, t) == {} && Within(from, tr)
      modifies this
      ensures Valid() && Carried(old(heap), heap) && Calm(old(tr), tr, t) && Pending(heap, t) == {}
      ensures done ==> Found(from, m, seen, tr, left, right, key)
      ensures Calls.Alone(old(tr), tr, t) ==> done && Tidy(heap, left, right)
    {
      var ok;
      left, right, ok, m := ScanAndSnip(t, key);
      seen, done := tr, false;
      if ok {
        ghost var tr1 := tr;
        var marked := IsMarked(t, right);
        seen, done := tr, !marked;
        WithinTransitive(m, tr1, tr);
        WithinTransitive(from, old(tr), m);
      }
    }

    /** harris_search; `done` is false when it has not returned in this run. A round only fails if
        another thread takes a step during it, and a search that nobody disturbs ends with the two
        nodes adjacent and unmarked. */
    method HarrisSearch(t: nat, key: int, rounds: nat, ghost from: Run)
      returns (left: Ref, right: Ref, done: bool, ghost m: Run, ghost seen: Run)
      requires Valid() && min < key < max && Pending(heap, t) == {} && Within(from, tr)
      modifies this
      ensures Valid() && Carried(old(heap), heap) && Calm(old(tr), tr, t) && Pending(heap, t) == {}
      ensures done ==> Found(from, m, seen, tr, left, right, key)
      ensures !done ==> Disturbed(old(tr), tr, t, rounds)
      ensures Calls.Alone(old(tr), tr, t) && done ==> Tidy(heap, left, right)
    {
      var n := rounds;
      left, right, done, m, seen := HEAD, TAIL, false, tr, tr;
      while n > 0 && !done
        invariant Valid() && Carried(old(heap), heap) && Calm(old(tr), tr, t) && Pending(heap, t) == {}
        invariant Within(from, tr) && n <= rounds && (!done ==> Disturbed(old(tr), tr, t, rounds - n))
        invariant done ==> Found(from, m, seen, tr, left, right, key)
        invariant Calls.Alone(old(tr), tr, t) && done ==> Tidy(heap, left, right)
      {
        ghost var tr1 := tr;
        left, right, done, m, seen := TrySearch(t, key, from);
        WithinTransitive(from, tr1, tr);
        n := n - 1;
      }
    }

    /** The value of the key, 0 when it is absent; None when the call has not returned. */
    method Find(t: nat, key: int, rounds: nat) returns (r: Option<int>)
      requires Valid() && min < key < max && Pending(heap, t) == {}
      modifies this
      ensures Valid() && Pending(heap, t) == {} && Calm(old(tr), tr, t)
      ensures r.Some? ==> SawBinding(old(tr), tr, key, r.value) || (r.value == 0 && SawAbsent(old(tr), tr, key))
      ensures r.None? ==> Disturbed(old(tr), tr, t, rounds)
    {
      var left, right, done;
      ghost var m, seen;
      left, right, done, m, seen := HarrisSearch(t, key, rounds, old(tr));
      if !done { return None; }
      ghost var tr1 := tr;
      FoundAnswers(old(tr), m, seen, tr, left, right, key);
      var next, mark := ReadNext(t, right);
      FoundGrows(old(tr), m, seen, tr1, tr, left, right, key);
      FoundAnswers(old(tr), m, seen, tr, left, right, key);
      r := Some(if next == NULL || heap[right].key != key then 0 else heap[right].val);
    }

    /** CAS(&left->next, right, newnode), which publishes an allocated node if it succeeds. */
    method CasLink(t: nat, left: Ref, right: Ref, key: int, val: int, newnode: Private, ghost from: Run) returns (ok: bool)
      requires newnode == Allocated && Valid() && In(heap, left) && In(heap, right)
      requires heap[left].key < key < heap[right].key && Quiet(from, tr, t)
      modifies this
      ensures Valid() && Pending(heap, t) == Pending(old(heap), t)
      ensures if ok then Added(from, tr, t, key, val) else Quiet(from, tr, t) && Paused(old(tr), tr, t) && !Clean(heap, left, right)
      ensures Calls.Foreign(old(tr), t) <= Calls.Foreign(tr, t)
    {
      Interfere(t);
      ok := !heap[left].marked && heap[left].next == right;
      if ok {
        RunIsTame(tr, tr);
        StepKeeps(heap, t, Link(left, right, key, val));
        Record(t, Link(left, right, key, val));
        AddStep(from, tr, t, key, val);
      }
    }

    /** Inserts the pair; None when the call has not returned. The node is allocated when it is first
        needed and kept over the retries; it is published by the CAS or freed by the insert
        itself, never both. */
    method Insert(t: nat, key: int, val: int, rounds: nat) returns (r: Option<int>, newnode: Private)
      requires Valid() && min < key < max && Pending(heap, t) == {}
      modifies this
      ensures Valid() && Pending(heap, t) == {}
      ensures match r
        case Some(1) => Added(old(tr), tr, t, key, val) && newnode == Published
        case Some(n) => n == 0 && Quiet(old(tr), tr, t) && SawPresent(old(tr), tr, key) && newnode in {Unallocated, Freed}
        case None => Quiet(old(tr), tr, t) && newnode in {Unallocated, Allocated} && Disturbed(old(tr), tr, t, rounds)
    {
      var n := rounds;
      newnode := Unallocated;
      NothingYet(tr, t);
      while n > 0
        invariant Valid() && Pending(heap, t) == {} && Quiet(old(tr), tr, t) && newnode in {Unallocated, Allocated}
        invariant n <= rounds && Disturbed(old(tr), tr, t, rounds - n)
      {
        var left, right, done;
        ghost var m, seen;
        left, right, done, m, seen := HarrisSearch(t, key, rounds, old(tr));
        if !done { return None, newnode; }
        FoundAnswers(old(tr), m, seen, tr, left, right, key);
        if heap[right].key == key {
          return Some(0), if newnode == Allocated then Freed else newnode;
        }
        newnode := Allocated;
        var ok := CasLink(t, left, right, key, val, newnode, old(tr));
        if ok { return Some(1), Published; }
        n := n - 1;
      }
      r := None;
    }

    /** CAS(&right->next, next, marked(next)) */
    method CasMark(t: nat, right: Ref, next: Ref, key: int, ghost from: Run) returns (ok: bool)
      requires Valid() && In(heap, right) && heap[right].key == key && min < key < max && Quiet(from, tr, t)
      modifies this
      ensures Valid() && Carried(old(heap), heap) && Pending(heap, t) == Pending(old(heap), t)
      ensures ok ==> MarkedSince(from, tr, t, right, key, heap[right].val) && heap[right].marked && heap[right].next == next && right != TAIL
      ensures !ok ==> Quiet(from, tr, t) && Paused(old(tr), tr, t) && !Clean(heap, right, next)
      ensures Calls.Foreign(old(tr), t) <= Calls.Foreign(tr, t)
      ensures Calls.Alone(old(tr), tr, t) ==> heap == if ok then old(heap)[right := old(heap)[right].(marked := true)] else old(heap)
    {
      Interfere(t);
      ok := !heap[right].marked && heap[right].next == next;
      if ok {
        RunIsTame(tr, tr);
        StepKeeps(heap, t, Mark(right, next));
        ghost var h1 := heap;
        Record(t, Mark(right, next));
        CarriedTransitive(old(heap), h1, heap);
        RemoveStep(from, tr, t, key, heap[right].val);
        RemovedSince(from, tr, t, key, heap[right].val);
        assert Within(tr, tr) && MarksNow(tr, t, right, key, heap[right].val);
      }
    }

    /** ssmem_free(n) */
    method Free(t: nat, n: Ref)
      requires Valid() && Pending(heap, t) == {n}
      modifies this
      ensures Valid() && Pending(heap, t) == {} && Calm(old(tr), tr, t) && Carried(old(heap), heap)
      ensures tr == Then(old(tr), t, Retire(n), heap) && Retires(old(heap), heap) && heap[n].lock == Retired
    {
      assert n in Pending(heap, t);
      ghost var h1 := heap;
      Record(t, Retire(n));
      forall r ensures r !in Pending(heap, t) {
        if 0 <= r < |h1| && r != n { assert r !in Pending(h1, t); }
      }
    }

    /** The end of remove: one attempt to unlink the marked node, else another search, which
        unlinks it on its way unless somebody else has; then the node is off the list. False when
        that search has not returned. */
    method Cleanup(t: nat, key: int, left: Ref, right: Ref, next: Ref, rounds: nat) returns (done: bool)
      requires Valid() && min < key < max && Pending(heap, t) == {} && In(heap, left) && left != TAIL
      requires In(heap, right) && right != TAIL && heap[right].marked && heap[right].next == next && In(heap, next)
      modifies this
      requires heap[right].key == key
      ensures Valid() && Pending(heap, t) == {} && Calm(old(tr), tr, t) && Carried(old(heap), heap)
      ensures if done then !OnChain(heap, right) else Disturbed(old(tr), tr, t, rounds)
    {
      assert MarkedPath(heap, [right], next);
      var ok := CasSnip(t, left, next, [right], right);
      done := true;
      if ok {
        assert Elements([right]) == {right};
        ghost var h1 := heap;
        Free(t, right);
        CarriedTransitive(old(heap), h1, heap);
      } else {
        var l, r;
        ghost var m, seen;
        ghost var tr1 := tr;
        l, r, done, m, seen := HarrisSearch(t, key, rounds, tr);
        if done { SearchTakesOff(tr1, m, seen, tr, l, r, right); }
      }
      RunIsTame(tr, tr);
    }

    /** Removes the key and returns its value, 0 when it was absent; then the node removed is off
        the list. None when the call has not returned, which takes a step of another thread for
        every round. */
    method Remove(t: nat, key: int, rounds: nat) returns (r: Option<int>)
      requires Valid() && min < key < max && Pending(heap, t) == {}
      modifies this
      ensures Valid() && Pending(heap, t) == {}
      ensures match r
        case Some(v) => RemovedForGood(old(tr), tr, t, key, v) || (v == 0 && Quiet(old(tr), tr, t) && SawAbsent(old(tr), tr, key))
        case None => (Quiet(old(tr), tr, t) || exists v :: Removed(old(tr), tr, t, key, v)) && Disturbed(old(tr), tr, t, rounds)
    {
      var n := rounds;
      NothingYet(tr, t);
      while n > 0
        invariant Valid() && Pending(heap, t) == {} && Quiet(old(tr), tr, t)
        invariant n <= rounds && Disturbed(old(tr), tr, t, rounds - n)
      {
        var left, right, done;
        ghost var m, seen;
        left, right, done, m, seen := HarrisSearch(t, key, rounds, old(tr));
        if !done { return None; }
        FoundAnswers(old(tr), m, seen, tr, left, right, key);
        if heap[right].key != key {
          return Some(0);
        }
        var next, mark := ReadNext(t, right);
        if !mark {
          var ok := CasMark(t, right, next, key, old(tr));
          if ok {
            var ret := heap[right].val;
            ghost var tr1 := tr;
            done := Cleanup(t, key, left, right, next, rounds);
            MarkedSinceStays(old(tr), tr1, tr, t, right, key, ret);
            return if done then Some(ret) else None;
          }
        }
        n := n - 1;
      }
      r := None;
    }
  }
}
