/** The atomic steps of the lock-based skip list, what every one of them keeps, and the runs
    they make. */
module HerlihySteps {
  import opened History
  import opened Calls
  import opened SetCalls
  import opened SkipModel

  /** `wants` tells which lock a thread is spinning on. */
  datatype Mem = Skip(nodes: Nodes, wants: map<nat, Ref>)

  datatype Act =
    | Want(n: Ref)                                      // LOCK(n) begins
    | Lock(n: Ref)                                      // LOCK(n) succeeds
    | Unlock(n: Ref)
    | Enter(p: Ref, key: int, val: int, next: seq<Ref>) // preds[0]->next[0] = new_node
    | LinkUp(p: Ref, n: Ref, i: nat)                    // preds[i]->next[i] = new_node
    | Finish(n: Ref)                                    // new_node->fullylinked = 1
    | Mark(n: Ref)                                      // node_to_remove->marked = 1
    | Unlink(p: Ref, v: Ref, i: nat)                    // preds[i]->next[i] = node_to_remove->next[i]

  predicate Holds(q: Mem, r: Ref, t: nat) {
    In(q.nodes, r) && q.nodes[r].lock == By(t)
  }

  /** `p` is a predecessor that thread `t` may write to on level `i`. */
  predicate MayWrite(q: Mem, t: nat, p: Ref, i: int) {
    Holds(q, p, t) && !q.nodes[p].marked && At(q.nodes, p, i) && p != TAIL
  }

  /** When a thread may take the step; what it has to know is what it has locked and seen. A
      thread spins on a lock only if all locks it holds belong to larger keys, and does not
      release a marked node before it is off every level. */
  predicate Enabled(q: Mem, t: nat, a: Act) {
    var h := q.nodes;
    match a
    case Want(n) => In(h, n) && t !in q.wants && forall r :: 0 <= r < |h| && Holds(q, r, t) ==> h[n].key < h[r].key
    case Lock(n) => In(h, n) && t in q.wants && q.wants[t] == n && h[n].lock == Free
    case Unlock(n) => Holds(q, n, t) && !(h[n].marked && 0 < h[n].levels)
    case Enter(p, key, val, next) =>
      && MayWrite(q, t, p, 0) && 1 <= |next| <= Height(h, HEAD) && next[0] == Next(h, p, 0) && In(h, next[0])
      && h[p].key < key < h[next[0]].key
    case LinkUp(p, n, i) =>
      && MayWrite(q, t, p, i) && In(h, n) && h[n].maker == t && !h[n].fully && 0 < i == h[n].levels < Height(h, n)
      && Next(h, n, i) == Next(h, p, i) && In(h, Next(h, p, i)) && h[p].key < h[n].key < h[Next(h, p, i)].key
    case Finish(n) => In(h, n) && h[n].maker == t && !h[n].fully && h[n].levels == Height(h, n)
    case Mark(n) => Holds(q, n, t) && h[n].fully && !h[n].marked && n != HEAD && n != TAIL
    case Unlink(p, v, i) =>
      && MayWrite(q, t, p, i) && Holds(q, v, t) && h[v].marked && h[v].levels == i + 1 && Next(h, p, i) == v
  }

  function Do(q: Mem, t: nat, a: Act): Mem
    requires Shaped(q.nodes) && Enabled(q, t, a)
  {
    var h := q.nodes;
    match a
    case Want(n) => q.(wants := q.wants[t := n])
    case Lock(n) => Skip(h[n := h[n].(lock := By(t))], q.wants - {t})
    case Unlock(n) => q.(nodes := h[n := h[n].(lock := Free)])
    case Enter(p, key, val, next) =>
      assert NodeOk(h, p);
      q.(nodes := SetNext(h, p, 0, |h|) + [Node(key, val, next, false, false, Free, 1, t)])
    case LinkUp(p, n, i) =>
      assert NodeOk(h, p);
      var s := SetNext(h, p, i, n); q.(nodes := s[n := s[n].(levels := i + 1)])
    case Finish(n) => q.(nodes := h[n := h[n].(fully := true)])
    case Mark(n) => q.(nodes := h[n := h[n].(marked := true)])
    case Unlink(p, v, i) =>
      assert NodeOk(h, p);
      var s := SetNext(h, p, i, Next(h, v, i)); q.(nodes := s[v := s[v].(levels := i)])
  }

  /** Whoever spins on a lock holds only locks of larger keys. */
  predicate WaitsBelow(q: Mem, u: nat, r: Ref) {
    u in q.wants && Holds(q, r, u) ==> In(q.nodes, q.wants[u]) && q.nodes[q.wants[u]].key < q.nodes[r].key
  }

  ghost predicate Inv(q: Mem) {
    Shaped(q.nodes) && forall u, r {:trigger WaitsBelow(q, u, r)} :: WaitsBelow(q, u, r)
  }

  function Init(min: int, max: int, levelmax: nat): Mem {
    Skip([Node(min, 0, seq(levelmax, i => TAIL), false, true, Free, levelmax, 0),
          Node(max, 0, seq(levelmax, i => NULL), false, true, Free, levelmax, 0)], map[])
  }

  lemma InitInv(min: int, max: int, levelmax: nat)
    requires min < max && 1 <= levelmax
    ensures Inv(Init(min, max, levelmax)) && Elements(Init(min, max, levelmax)) == {}
    ensures IsRun(Start(Init(min, max, levelmax)))
  {
    var q := Init(min, max, levelmax);
    assert forall r :: 0 <= r < |q.nodes| ==> NodeOk(q.nodes, r);
    assert forall r, i {:trigger Linked(q.nodes, r, i)} :: Linked(q.nodes, r, i);
    RunBegins<Mem, Act>(First(), CanStep(), q);
  }

  function Elements(q: Mem): Pairs {
    Contents(q.nodes)
  }

  /** Steps that clients cannot see. */
  predicate Silent(a: Act) {
    !a.Finish? && !a.Mark?
  }

  // ---------------------------------------------------------------- no cycle of waiting threads

  /** Each thread of the cycle spins on a lock that the next one holds. */
  predicate WaitCycle(q: Mem, cycle: seq<nat>) {
    0 < |cycle| && forall k {:trigger CycleLink(q, cycle, k)} :: 0 <= k < |cycle| ==> CycleLink(q, cycle, k)
  }

  predicate WaitsFor(q: Mem, t: nat, u: nat) {
    t in q.wants && Holds(q, q.wants[t], u)
  }

  predicate CycleLink(q: Mem, cycle: seq<nat>, k: int) {
    0 <= k < |cycle| && WaitsFor(q, cycle[k], if k + 1 < |cycle| then cycle[k + 1] else cycle[0])
  }

  lemma {:induction false} WaitersDescend(q: Mem, cycle: seq<nat>, k: nat)
    requires Inv(q) && WaitCycle(q, cycle) && k < |cycle|
    ensures CycleLink(q, cycle, 0) && CycleLink(q, cycle, k)
    ensures q.nodes[q.wants[cycle[k]]].key <= q.nodes[q.wants[cycle[0]]].key
  {
    assert CycleLink(q, cycle, 0) && CycleLink(q, cycle, k);
    if k > 0 {
      WaitersDescend(q, cycle, k - 1);
      assert WaitsBelow(q, cycle[k], q.wants[cycle[k - 1]]);
    }
  }

  /** No reachable state has a cycle of threads that wait for each other's locks. */
  lemma NoWaitCycle(q: Mem, cycle: seq<nat>)
    requires Inv(q)
    ensures !WaitCycle(q, cycle)
  {
    if WaitCycle(q, cycle) {
      assert CycleLink(q, cycle, 0) && CycleLink(q, cycle, |cycle| - 1);
      assert WaitsBelow(q, cycle[0], q.wants[cycle[|cycle| - 1]]);
      WaitersDescend(q, cycle, |cycle| - 1);
    }
  }

  /** Whoever gets a lock has it below all those held so far: acquisitions go in strictly
      decreasing key order, and no node is locked twice. */
  lemma AcquisitionsDescend(q: Mem, t: nat, n: Ref)
    requires Inv(q) && Enabled(q, t, Lock(n))
    ensures forall r :: Holds(q, r, t) ==> q.nodes[n].key < q.nodes[r].key
  {
    forall r | Holds(q, r, t) ensures q.nodes[n].key < q.nodes[r].key { assert WaitsBelow(q, t, r); }
  }

  // ---------------------------------------------------------------- what one step does

  lemma WaitsFrame(q: Mem, q': Mem)
    requires Inv(q) && |q.nodes| <= |q'.nodes| && q'.wants == q.wants
    requires forall r :: 0 <= r < |q.nodes| ==> q'.nodes[r].key == q.nodes[r].key && (q'.nodes[r].lock == q.nodes[r].lock || q'.nodes[r].lock == Free)
    requires forall r :: |q.nodes| <= r < |q'.nodes| ==> q'.nodes[r].lock == Free
    ensures forall u, r {:trigger WaitsBelow(q', u, r)} :: WaitsBelow(q', u, r)
  {
    forall u, r ensures WaitsBelow(q', u, r) { assert WaitsBelow(q, u, r); }
  }

  /** The invariant survives every step of every thread. */
  lemma StepInv(q: Mem, t: nat, a: Act)
    requires Inv(q) && Enabled(q, t, a)
    ensures Inv(Do(q, t, a))
  {
    var q' := Do(q, t, a);
    match a
    case Want(n) => forall u, r ensures WaitsBelow(q', u, r) { assert WaitsBelow(q, u, r); }
    case Lock(n) => LockInv(q, t, n);
    case Enter(p, key, val, next) => EnterInv(q, t, p, key, val, next);
    case LinkUp(p, n, i) => LinkShape(q.nodes, q'.nodes, p, i, n); WaitsFrame(q, q');
    case Unlink(p, v, i) => UnlinkShape(q.nodes, q'.nodes, p, i, v); WaitsFrame(q, q');
    case _ => FlagInv(q, t, a);
  }

  lemma EnterInv(q: Mem, t: nat, p: Ref, key: int, val: int, next: seq<Ref>)
    requires Inv(q) && Enabled(q, t, Enter(p, key, val, next))
    ensures Inv(Do(q, t, Enter(p, key, val, next)))
  {
    var q' := Do(q, t, Enter(p, key, val, next));
    EnterShape(q.nodes, q'.nodes, p, Node(key, val, next, false, false, Free, 1, t));
    WaitsFrame(q, q');
  }

  lemma LockInv(q: Mem, t: nat, n: Ref)
    requires Inv(q) && Enabled(q, t, Lock(n))
    ensures Inv(Do(q, t, Lock(n)))
  {
    var q' := Do(q, t, Lock(n));
    forall r | 0 <= r < |q.nodes| ensures NodeOk(q'.nodes, r) { assert NodeOk(q.nodes, r); }
    ShapeFrame(q.nodes, q'.nodes);
    forall u, r ensures WaitsBelow(q', u, r) { assert WaitsBelow(q, u, r); }
  }

  lemma FlagInv(q: Mem, t: nat, a: Act)
    requires Inv(q) && Enabled(q, t, a) && (a.Unlock? || a.Finish? || a.Mark?)
    ensures Inv(Do(q, t, a))
  {
    var q' := Do(q, t, a);
    forall r | 0 <= r < |q.nodes| ensures NodeOk(q'.nodes, r) { assert NodeOk(q.nodes, r); }
    ShapeFrame(q.nodes, q'.nodes);
    WaitsFrame(q, q');
  }

  /** What becomes of one node, whatever threads do: key, value and height stay, the flags are
      only ever set, the node gains levels until it is marked and then only loses some. */
  ghost predicate Ages(n: Node, n': Node) {
    && n'.key == n.key && n'.val == n.val && n'.maker == n.maker && |n'.next| == |n.next|
    && (n.marked ==> n'.marked && n'.levels <= n.levels) && (n.fully ==> n'.fully)
    && (!n'.marked ==> n.levels <= n'.levels)
  }

  ghost predicate Grown(h: Nodes, h': Nodes) {
    |h| <= |h'| && forall r :: 0 <= r < |h| ==> Ages(h[r], h'[r])
  }

  /** What only one step guarantees: a next changes only on a level the node is on before and
      after; a node enters unmarked and not fully linked, and is fully linked and still on its
      levels at the moment it is marked. */
  ghost predicate Steps(h: Nodes, h': Nodes) {
    && Grown(h, h')
    && (forall r, i {:trigger Next(h', r, i)} :: In(h, r) && Next(h', r, i) != Next(h, r, i) ==> At(h, r, i) && At(h', r, i) && !h'[r].marked)
    && (forall r :: |h| <= r < |h'| ==> !h'[r].fully && !h'[r].marked)
    && (forall r :: 0 <= r < |h| && !h[r].marked && h'[r].marked ==> h[r].fully && h'[r].levels == h[r].levels)
  }

  lemma StepGrows(q: Mem, t: nat, a: Act)
    requires Inv(q) && Enabled(q, t, a)
    ensures Steps(q.nodes, Do(q, t, a).nodes)
  {
    match a
    case Enter(p, key, val, next) => assert NodeOk(q.nodes, p);
    case LinkUp(p, n, i) => LinkGrows(q, t, p, n, i);
    case Finish(n) => assert NodeOk(q.nodes, n);
    case Unlink(p, v, i) => UnlinkGrows(q, t, p, v, i);
    case _ =>
  }

  lemma LinkGrows(q: Mem, t: nat, p: Ref, n: Ref, i: nat)
    requires Inv(q) && Enabled(q, t, LinkUp(p, n, i))
    ensures Steps(q.nodes, Do(q, t, LinkUp(p, n, i)).nodes)
  {
    assert NodeOk(q.nodes, p) && NodeOk(q.nodes, n) && p != n;
  }

  lemma UnlinkGrows(q: Mem, t: nat, p: Ref, v: Ref, i: nat)
    requires Inv(q) && Enabled(q, t, Unlink(p, v, i))
    ensures Steps(q.nodes, Do(q, t, Unlink(p, v, i)).nodes)
  {
    assert NodeOk(q.nodes, p) && NodeOk(q.nodes, v) && p != v;
  }

  /** What the steps of other threads leave a thread: the nodes it has locked, and the node it
      is inserting on the levels it has not linked yet. */
  ghost predicate OwnKept(n: Node, n': Node, t: nat) {
    && n'.maker == n.maker && (n.lock == By(t) <==> n'.lock == By(t))
    && (n.lock == By(t) ==> n'.next == n.next && n'.marked == n.marked)
    && (n.lock == By(t) && n.marked ==> n'.levels == n.levels)
    && (n.maker == t && !n.fully ==> n'.levels == n.levels && n'.fully == n.fully)
    && (n.maker == t && !n.fully ==> |n'.next| == |n.next| && forall i :: n.levels <= i < |n.next| ==> n'.next[i] == n.next[i])
  }

  ghost predicate Kept(q: Mem, q': Mem, t: nat) {
    && |q.nodes| <= |q'.nodes| && (t in q'.wants <==> t in q.wants) && (t in q.wants ==> q'.wants[t] == q.wants[t])
    && (forall r :: 0 <= r < |q.nodes| ==> OwnKept(q.nodes[r], q'.nodes[r], t))
    && (forall r :: |q.nodes| <= r < |q'.nodes| ==> q'.nodes[r].lock != By(t) && q'.nodes[r].maker != t)
  }

  lemma StepKept(q: Mem, u: nat, a: Act, t: nat)
    requires Inv(q) && Enabled(q, u, a) && u != t
    ensures Kept(q, Do(q, u, a), t)
  {
    match a
    case Enter(p, key, val, next) => assert NodeOk(q.nodes, p);
    case LinkUp(p, n, i) => LinkKept(q, u, p, n, i, t);
    case Unlink(p, v, i) => UnlinkKept(q, u, p, v, i, t);
    case _ =>
  }

  lemma LinkKept(q: Mem, u: nat, p: Ref, n: Ref, i: nat, t: nat)
    requires Inv(q) && Enabled(q, u, LinkUp(p, n, i)) && u != t
    ensures Kept(q, Do(q, u, LinkUp(p, n, i)), t)
  {
    assert NodeOk(q.nodes, p) && NodeOk(q.nodes, n) && p != n;
  }

  lemma UnlinkKept(q: Mem, u: nat, p: Ref, v: Ref, i: nat, t: nat)
    requires Inv(q) && Enabled(q, u, Unlink(p, v, i)) && u != t
    ensures Kept(q, Do(q, u, Unlink(p, v, i)), t)
  {
    assert NodeOk(q.nodes, p) && NodeOk(q.nodes, v) && p != v;
  }

  /** The set changes by exactly one element in the steps that finish an insertion and that mark
      a node, and in no other. */
  lemma StepEffect(q: Mem, t: nat, a: Act)
    requires Inv(q) && Enabled(q, t, a)
    ensures match a
      case Finish(n) => Adds(q.nodes[n].key, q.nodes[n].val)(Elements(q), Elements(Do(q, t, a)))
      case Mark(n) => Removes(q.nodes[n].key, q.nodes[n].val)(Elements(q), Elements(Do(q, t, a)))
      case _ => Elements(Do(q, t, a)) == Elements(q)
  {
    var q' := Do(q, t, a);
    match a
    case Finish(n) => assert NodeOk(q.nodes, n); ContentsGain(q.nodes, q'.nodes, n);
    case Mark(n) => ContentsLose(q.nodes, q'.nodes, n);
    case _ => ContentsSame(q.nodes, q'.nodes);
  }

  // ---------------------------------------------------------------- what a thread has begun

  /** The marked nodes that thread `t` holds and has not taken off every level. */
  ghost function Leaving(q: Mem, t: nat): set<Ref> {
    set r | 0 <= r < |q.nodes| && q.nodes[r].lock == By(t) && q.nodes[r].marked && 0 < q.nodes[r].levels
  }

  /** The nodes that thread `t` inserts and has not linked on all their levels. */
  ghost function Unfinished(q: Mem, t: nat): set<Ref> {
    set r | 0 <= r < |q.nodes| && q.nodes[r].maker == t && !q.nodes[r].fully
  }

  /** The thread has finished whatever it has begun since. */
  ghost predicate Settles(q0: Mem, q: Mem, t: nat) {
    Leaving(q, t) <= Leaving(q0, t) && Unfinished(q, t) <= Unfinished(q0, t)
  }

  lemma KeptSettles(q: Mem, q': Mem, t: nat)
    requires Kept(q, q', t) && Grown(q.nodes, q'.nodes)
    ensures Settles(q, q', t)
  {
    forall r | r in Leaving(q', t) ensures r in Leaving(q, t) { assert r < |q.nodes| ==> OwnKept(q.nodes[r], q'.nodes[r], t); }
    forall r | r in Unfinished(q', t) ensures r in Unfinished(q, t) { assert r < |q.nodes| ==> OwnKept(q.nodes[r], q'.nodes[r], t); }
  }

  /** Nobody spins or holds a lock, and every node is linked on all its levels or on none. */
  ghost predicate Quiescent(q: Mem) {
    (forall u :: u !in q.wants) && forall r :: 0 <= r < |q.nodes| ==> q.nodes[r].lock == Free && q.nodes[r].fully
  }

  /** A node met on a level of such a list is an element, or a sentinel. */
  lemma QuiescentNode(q: Mem, r: Ref, i: int)
    requires Inv(q) && Quiescent(q) && At(q.nodes, r, i)
    ensures !q.nodes[r].marked && q.nodes[r].lock == Free
  {
    assert NodeOk(q.nodes, r);
  }

  /** Only thread `t` holds locks, spins on one, or is inserting. */
  ghost predicate NoOthers(q: Mem, t: nat) {
    && (forall u :: u in q.wants ==> u == t)
    && forall r :: 0 <= r < |q.nodes| ==> (q.nodes[r].lock == Free || q.nodes[r].lock == By(t)) && (!q.nodes[r].fully ==> q.nodes[r].maker == t)
  }

  /** The lock is held by another thread. */
  predicate Taken(q: Mem, t: nat, r: Ref) {
    In(q.nodes, r) && q.nodes[r].lock != Free && q.nodes[r].lock != By(t)
  }

  ghost predicate Blocked(q: Mem, t: nat) {
    exists r :: Taken(q, t, r)
  }

  // ---------------------------------------------------------------- runs

  type Run = Trace<Mem, Act>

  /** A run begins in any state that satisfies the invariant and goes on by enabled steps of any
      threads. */
  ghost function First(): Mem -> bool {
    q => Inv(q)
  }

  ghost function CanStep(): (Mem, nat, Act, Mem) -> bool {
    (q: Mem, t: nat, a: Act, q': Mem) => Inv(q) && Enabled(q, t, a) && q' == Do(q, t, a)
  }

  ghost predicate IsRun(tr: Run) {
    IsRunOf(First(), CanStep(), tr)
  }

  lemma StepBefore(tr: Run)
    requires IsRun(tr)
    ensures Inv(tr.now)
    ensures tr.Then? ==> IsRun(tr.before) && Inv(tr.before.now) && Steps(tr.before.now.nodes, tr.now.nodes)
  {
    LastStep(First(), CanStep(), tr);
    if tr.Then? {
      StepInv(tr.before.now, tr.who, tr.act);
      StepGrows(tr.before.now, tr.who, tr.act);
      RunPrefix(First(), CanStep(), tr.before, tr);
    }
  }

  /** A thread that is alone finds no lock taken by others. */
  lemma {:induction false} AloneKeepsOut(m: Run, tr: Run, t: nat)
    requires IsRun(tr) && Within(m, tr) && Alone(m, tr, t) && NoOthers(m.now, t)
    ensures NoOthers(tr.now, t) && !Blocked(tr.now, t)
    decreases tr
  {
    if m != tr {
      StepBefore(tr);
      LastStep(First(), CanStep(), tr);
      ForeignGrows(m, tr.before, t);
      AloneKeepsOut(m, tr.before, t);
      OwnStepKeepsOut(tr.before.now, t, tr.act);
    }
  }

  lemma OwnStepKeepsOut(q: Mem, t: nat, a: Act)
    requires Inv(q) && Enabled(q, t, a) && NoOthers(q, t)
    ensures NoOthers(Do(q, t, a), t)
  {
    match a
    case Enter(p, key, val, next) => assert NodeOk(q.nodes, p);
    case LinkUp(p, n, i) => assert NodeOk(q.nodes, p) && NodeOk(q.nodes, n);
    case Unlink(p, v, i) => assert NodeOk(q.nodes, p) && NodeOk(q.nodes, v);
    case _ =>
  }

  /** When it holds no lock any more and has finished what it began, all is quiet again. */
  lemma AloneEndsQuiescent(m: Run, tr: Run, t: nat)
    requires IsRun(tr) && Within(m, tr) && t !in tr.now.wants && (forall r :: !Holds(tr.now, r, t)) && Unfinished(tr.now, t) <= Unfinished(m.now, t)
    ensures Alone(m, tr, t) && Quiescent(m.now) ==> Quiescent(tr.now)
  {
    if Alone(m, tr, t) && Quiescent(m.now) {
      AloneKeepsOut(m, tr, t);
      forall r | 0 <= r < |tr.now.nodes| ensures tr.now.nodes[r].lock == Free && tr.now.nodes[r].fully {
        assert !Holds(tr.now, r, t);
        assert r !in Unfinished(m.now, t);
      }
    }
  }

  lemma GrownTransitive(h0: Nodes, h1: Nodes, h2: Nodes)
    requires Grown(h0, h1) && Grown(h1, h2)
    ensures Grown(h0, h2)
  {
  }

  /** Safety over whole runs: in every state every level is a sorted list contained in the level
      below, and nodes only age. */
  lemma {:induction false} RunGrows(m: Run, tr: Run)
    requires IsRun(tr) && Within(m, tr)
    ensures IsRun(m) && Inv(m.now) && Inv(tr.now) && Grown(m.now.nodes, tr.now.nodes)
    decreases tr
  {
    StepBefore(tr);
    if m != tr {
      RunGrows(m, tr.before);
      GrownTransitive(m.now.nodes, tr.before.now.nodes, tr.now.nodes);
    }
  }
}
