/** The MCS queue lock: threads queue up by swapping the tail pointer, each spins on a word of its
    own, and the holder hands the lock to the thread that has linked itself behind it. */
module McsLock {
  import opened History

  datatype Option<+T> = None | Some(value: T)

  /** How far a thread has come; `Owner` has the lock, up to the store or CAS that gives it up.
      The code keeps this in its program counter and in `pred`. */
  datatype Phase = Outside | Ready | Swapped(pred: nat) | Armed(pred: nat) | Linked | Owner

  datatype Local = Local(waiting: bool, next: Option<nat>, phase: Phase)

  /** `tail` is the lock's own next field. `tickets` are the threads in the order of their swaps,
      `served` how many have released, `entered` who got the lock, in order: bookkeeping. */
  datatype Mem = Mcs(tail: Option<nat>, locals: map<nat, Local>, tickets: seq<nat>, served: nat, entered: seq<nat>)

  datatype Act =
    | Reset                 // local->next = NULL
    | Swap                  // pred = swap(&lock->next, local)
    | Arm                   // local->waiting = 1
    | Link                  // pred->next = local
    | Notice                // local->waiting != 0 is false
    | CasFree               // CAS(&lock->next, NULL, local), of trylock
    | CasTail               // CAS(&lock->next, local, NULL)
    | Wake(succ: nat)       // succ->waiting = 0

  function L(h: Mem, t: nat): Local {
    if t in h.locals then h.locals[t] else Local(false, None, Outside)
  }

  /** When thread `t` may take the step: where its code is, and what it has read. */
  predicate Enabled(h: Mem, t: nat, a: Act) {
    match a
    case Reset => L(h, t).phase.Outside? || L(h, t).phase.Ready?
    case Swap => L(h, t).phase.Ready?
    case Arm => L(h, t).phase.Swapped?
    case Link => L(h, t).phase.Armed?
    case Notice => L(h, t).phase.Linked? && !L(h, t).waiting
    case CasFree => L(h, t).phase.Ready? && h.tail == None
    case CasTail => L(h, t).phase.Owner? && h.tail == Some(t)
    case Wake(succ) => L(h, t).phase.Owner? && L(h, t).next == Some(succ)
  }

  function Set(h: Mem, t: nat, l: Local): Mem {
    h.(locals := h.locals[t := l])
  }

  function Do(h: Mem, t: nat, a: Act): Mem
    requires Enabled(h, t, a)
  {
    var l := L(h, t);
    match a
    case Reset => Set(h, t, l.(next := None, phase := Ready))
    case Swap =>
      var h1 := h.(tail := Some(t), tickets := h.tickets + [t]);
      if h.tail == None then Set(h1, t, l.(phase := Owner)).(entered := h.entered + [t])
      else Set(h1, t, l.(phase := Swapped(h.tail.value)))
    case Arm => Set(h, t, l.(waiting := true, phase := Armed(l.phase.pred)))
    case Link =>
      var h1 := Set(h, t, l.(phase := Linked));
      Set(h1, l.phase.pred, L(h1, l.phase.pred).(next := Some(t)))
    case Notice => Set(h, t, l.(phase := Owner)).(entered := h.entered + [t])
    case CasFree => Set(h.(tail := Some(t), tickets := h.tickets + [t], entered := h.entered + [t]), t, l.(phase := Owner))
    case CasTail => Set(h.(tail := None, served := h.served + 1), t, l.(phase := Outside))
    case Wake(succ) =>
      var h1 := Set(h.(served := h.served + 1), t, l.(phase := Outside));
      Set(h1, succ, L(h1, succ).(waiting := false))
  }

  // ---------------------------------------------------------------- the invariant

  predicate Queued(h: Mem, k: int) {
    h.served <= k < |h.tickets|
  }

  /** The thread at place `k` of the queue: the first has the lock or has been told so, every
      other is on its way to spinning behind the one before it. */
  predicate PlaceOk(h: Mem, k: int) {
    Queued(h, k) ==>
      var l := L(h, h.tickets[k]);
      if k == h.served then l.phase.Owner? || (l.phase.Linked? && !l.waiting)
      else
        && (l.phase == Swapped(h.tickets[k - 1]) || l.phase == Armed(h.tickets[k - 1]) || l.phase == Linked)
        && (l.phase.Swapped? || l.waiting)
  }

  /** A thread's next is the one behind it, from the moment that one has linked itself. */
  predicate NextOk(h: Mem, k: int) {
    Queued(h, k) ==>
      L(h, h.tickets[k]).next ==
        if k + 1 < |h.tickets| && L(h, h.tickets[k + 1]).phase.Linked? then Some(h.tickets[k + 1]) else None
  }

  predicate OnePlace(h: Mem, j: int, k: int) {
    Queued(h, j) && Queued(h, k) && h.tickets[j] == h.tickets[k] ==> j == k
  }

  predicate InQueue(h: Mem, t: nat) {
    h.served <= |h.tickets| && t in h.tickets[h.served..]
  }

  predicate IdleOk(h: Mem, t: nat) {
    !InQueue(h, t) ==> L(h, t).phase.Outside? || (L(h, t).phase.Ready? && L(h, t).next == None)
  }

  predicate HeadOwns(h: Mem) {
    h.served < |h.tickets| && L(h, h.tickets[h.served]).phase.Owner?
  }

  ghost predicate Inv(h: Mem) {
    && h.served <= |h.tickets|
    && h.tail == (if h.served < |h.tickets| then Some(h.tickets[|h.tickets| - 1]) else None)
    && (forall k {:trigger PlaceOk(h, k)} :: PlaceOk(h, k))
    && (forall k {:trigger NextOk(h, k)} :: NextOk(h, k))
    && (forall j, k {:trigger OnePlace(h, j, k)} :: OnePlace(h, j, k))
    && (forall t {:trigger IdleOk(h, t)} :: IdleOk(h, t))
    && |h.entered| == h.served + (if HeadOwns(h) then 1 else 0)
    && h.entered <= h.tickets
  }

  function Init(): Mem {
    Mcs(None, map[], [], 0, [])
  }

  lemma PlaceOf(h: Mem, t: nat) returns (k: int)
    requires h.served <= |h.tickets|
    ensures InQueue(h, t) <==> Queued(h, k) && h.tickets[k] == t
  {
    k := -1;
    if InQueue(h, t) {
      var i :| 0 <= i < |h.tickets[h.served..]| && h.tickets[h.served..][i] == t;
      k := h.served + i;
    }
  }

  lemma AtPlace(h: Mem, k: int)
    requires Queued(h, k)
    ensures InQueue(h, h.tickets[k])
  {
    assert h.tickets[h.served..][k - h.served] == h.tickets[k];
  }

  /** In every reachable state at most one thread has the lock: the first of the queue. */
  lemma OwnerIsFirst(h: Mem, t: nat)
    requires Inv(h) && L(h, t).phase.Owner?
    ensures h.served < |h.tickets| && t == h.tickets[h.served]
  {
    assert IdleOk(h, t);
    var k := PlaceOf(h, t);
    assert PlaceOk(h, k);
  }

  lemma MutualExclusion(h: Mem, t: nat, u: nat)
    requires Inv(h) && L(h, t).phase.Owner? && L(h, u).phase.Owner?
    ensures t == u
  {
    OwnerIsFirst(h, t);
    OwnerIsFirst(h, u);
  }

  /** The wake-up store always follows its receiver's own waiting = 1: when the holder finds a
      successor, that one spins on a set word, and the store lets it go. */
  lemma WakeReachesWaiter(h: Mem, t: nat, succ: nat)
    requires Inv(h) && Enabled(h, t, Wake(succ))
    ensures h.served + 1 < |h.tickets| && succ == h.tickets[h.served + 1] && succ != t
    ensures L(h, succ).phase == Linked && L(h, succ).waiting
    ensures Enabled(Do(h, t, Wake(succ)), succ, Notice)
  {
    OwnerIsFirst(h, t);
    assert NextOk(h, h.served) && PlaceOk(h, h.served + 1) && OnePlace(h, h.served, h.served + 1);
  }

  /** A holder whose CAS fails has a successor, linked by now or about to link itself. */
  lemma FailedCasHasSuccessor(h: Mem, t: nat)
    requires Inv(h) && L(h, t).phase.Owner? && h.tail != Some(t)
    ensures h.served + 1 < |h.tickets|
    ensures var succ := h.tickets[h.served + 1];
      if L(h, succ).phase.Linked? then L(h, t).next == Some(succ)
      else L(h, succ).phase == Swapped(t) || L(h, succ).phase == Armed(t)
  {
    OwnerIsFirst(h, t);
    assert PlaceOk(h, h.served + 1) && NextOk(h, h.served);
  }

  // ---------------------------------------------------------------- what one step does

  /** A step of a thread that changes only that thread's own words and phase. */
  lemma LocalInv(h: Mem, h': Mem, t: nat)
    requires Inv(h) && h'.tickets == h.tickets && h'.served == h.served && h'.tail == h.tail
    requires forall u :: u != t ==> L(h', u) == L(h, u)
    requires L(h', t).next == L(h, t).next || !InQueue(h, t)
    requires (L(h', t).phase.Linked? <==> L(h, t).phase.Linked?) || (h.served < |h.tickets| && h.tickets[h.served] == t)
    requires forall k :: Queued(h, k) ==> h.tickets[k] != t || PlaceOk(h', k)
    requires IdleOk(h', t)
    requires |h'.entered| == h'.served + (if HeadOwns(h') then 1 else 0) && h'.entered <= h'.tickets
    ensures Inv(h')
  {
    forall k ensures PlaceOk(h', k) { assert PlaceOk(h, k); }
    forall k ensures NextOk(h', k) {
      assert NextOk(h, k);
      if Queued(h, k) {
        AtPlace(h, k);
        if k + 1 < |h.tickets| { assert OnePlace(h, h.served, k + 1); }
      }
    }
    forall j, k ensures OnePlace(h', j, k) { assert OnePlace(h, j, k); }
    forall u ensures IdleOk(h', u) { assert IdleOk(h, u); }
  }

  lemma ResetInv(h: Mem, t: nat)
    requires Inv(h) && Enabled(h, t, Reset)
    ensures Inv(Do(h, t, Reset))
  {
    var h' := Do(h, t, Reset);
    NotQueued(h, t);
    if HeadOwns(h) { OwnerIsFirst(h, h.tickets[h.served]); }
    forall k | Queued(h, k) ensures h.tickets[k] != t { AtPlace(h, k); }
    if h.served < |h.tickets| { AtPlace(h, h.served); }
    LocalInv(h, h', t);
  }

  lemma QueuedIsBusy(h: Mem, t: nat)
    requires Inv(h) && InQueue(h, t)
    ensures !L(h, t).phase.Outside? && !L(h, t).phase.Ready?
  {
    var k := PlaceOf(h, t);
    assert PlaceOk(h, k);
  }

  /** Who is outside is not in the queue. */
  lemma NotQueued(h: Mem, t: nat)
    requires Inv(h) && (L(h, t).phase.Outside? || L(h, t).phase.Ready?)
    ensures !InQueue(h, t)
  {
    if InQueue(h, t) { QueuedIsBusy(h, t); }
  }

  lemma ArmInv(h: Mem, t: nat)
    requires Inv(h) && Enabled(h, t, Arm)
    ensures Inv(Do(h, t, Arm))
  {
    var h' := Do(h, t, Arm);
    assert IdleOk(h, t);
    forall k | Queued(h, k) && h.tickets[k] == t ensures PlaceOk(h', k) {
      assert PlaceOk(h, k);
      if k > h.served { assert OnePlace(h, k - 1, k); }
    }
    assert HeadOwns(h') <==> HeadOwns(h) by {
      if h.served < |h.tickets| { assert PlaceOk(h, h.served); }
    }
    LocalInv(h, h', t);
  }

  lemma NoticeInv(h: Mem, t: nat)
    requires Inv(h) && Enabled(h, t, Notice)
    ensures Inv(Do(h, t, Notice)) && h.served < |h.tickets| && t == h.tickets[h.served] && |h.entered| == h.served
  {
    var h' := Do(h, t, Notice);
    assert IdleOk(h, t);
    var k := PlaceOf(h, t);
    assert PlaceOk(h, k);
    assert k == h.served;
    assert h.entered + [t] == h.tickets[..h.served + 1];
    forall j | Queued(h, j) && h.tickets[j] == t ensures PlaceOk(h', j) { assert OnePlace(h, j, k); }
    LocalInv(h, h', t);
  }

  /** Joining the queue at its end, as its first member or behind another. */
  lemma JoinInv(h: Mem, h': Mem, t: nat)
    requires Inv(h) && L(h, t).phase.Ready?
    requires h'.tail == Some(t) && h'.tickets == h.tickets + [t] && h'.served == h.served
    requires forall u :: u != t ==> L(h', u) == L(h, u)
    requires L(h', t).next == None && L(h', t).phase == (if h.tail == None then Owner else Swapped(h.tail.value))
    requires h'.entered == if h.tail == None then h.entered + [t] else h.entered
    ensures Inv(h')
  {
    NotQueued(h, t);
    var n := |h.tickets|;
    forall k ensures PlaceOk(h', k) {
      assert PlaceOk(h, k);
      if Queued(h, k) { AtPlace(h, k); }
    }
    forall k ensures NextOk(h', k) {
      assert NextOk(h, k);
      if Queued(h, k) {
        AtPlace(h, k);
        if k + 1 < n { AtPlace(h, k + 1); }
      }
    }
    forall j, k ensures OnePlace(h', j, k) {
      assert OnePlace(h, j, k);
      if Queued(h, j) { AtPlace(h, j); }
      if Queued(h, k) { AtPlace(h, k); }
    }
    forall u ensures IdleOk(h', u) {
      assert IdleOk(h, u);
      assert h'.tickets[h.served..] == h.tickets[h.served..] + [t];
    }
    if h.served < n { AtPlace(h, h.served); }
  }

  lemma LinkInv(h: Mem, t: nat)
    requires Inv(h) && Enabled(h, t, Link)
    ensures Inv(Do(h, t, Link))
  {
    var h', p := Do(h, t, Link), L(h, t).phase.pred;
    assert IdleOk(h, t);
    var k := PlaceOf(h, t);
    assert PlaceOk(h, k) && k > h.served && p == h.tickets[k - 1];
    assert OnePlace(h, k - 1, k) && p != t;
    forall j ensures PlaceOk(h', j) { assert PlaceOk(h, j) && OnePlace(h, j, k); }
    forall j ensures NextOk(h', j) {
      assert NextOk(h, j) && OnePlace(h, j, k - 1) && OnePlace(h, j + 1, k);
    }
    forall i, j ensures OnePlace(h', i, j) { assert OnePlace(h, i, j); }
    forall u ensures IdleOk(h', u) {
      assert IdleOk(h, u);
      AtPlace(h, k - 1);
    }
    assert HeadOwns(h') <==> HeadOwns(h) by { assert OnePlace(h, h.served, k); }
  }

  /** Leaving the queue at its front: by the CAS if it was the only member, else by the wake-up
      of the next one. */
  lemma LeaveInv(h: Mem, h': Mem, t: nat)
    requires Inv(h) && L(h, t).phase.Owner?
    requires h.served < |h.tickets| && t == h.tickets[h.served]
    requires h'.tickets == h.tickets && h'.served == h.served + 1 && h'.entered == h.entered
    requires L(h', t).phase.Outside?
    requires if h.served + 1 < |h.tickets| then
        var succ := h.tickets[h.served + 1];
        && h'.tail == h.tail && L(h, succ).phase.Linked? && L(h', succ) == L(h, succ).(waiting := false)
        && forall u :: u != t && u != succ ==> L(h', u) == L(h, u)
      else h'.tail == None && forall u :: u != t ==> L(h', u) == L(h, u)
    ensures Inv(h')
  {
    forall k ensures PlaceOk(h', k) {
      assert PlaceOk(h, k) && OnePlace(h, k, h.served) && OnePlace(h, k, h.served + 1);
    }
    forall k ensures NextOk(h', k) {
      assert NextOk(h, k) && OnePlace(h, k, h.served) && OnePlace(h, k + 1, h.served);
    }
    forall j, k ensures OnePlace(h', j, k) { assert OnePlace(h, j, k); }
    assert h.tickets[h.served..] == [t] + h'.tickets[h'.served..];
    forall u ensures IdleOk(h', u) {
      assert IdleOk(h, u);
      if h.served + 1 < |h.tickets| { AtPlace(h', h.served + 1); }
    }
    assert HeadOwns(h) && !HeadOwns(h');
  }

  /** The invariant survives every step of every thread. */
  lemma StepInv(h: Mem, t: nat, a: Act)
    requires Inv(h) && Enabled(h, t, a)
    ensures Inv(Do(h, t, a))
  {
    match a
    case Reset => ResetInv(h, t);
    case Swap => assert IdleOk(h, t); NotQueued(h, t); JoinInv(h, Do(h, t, a), t);
    case Arm => ArmInv(h, t);
    case Link => LinkInv(h, t);
    case Notice => NoticeInv(h, t);
    case CasFree => assert IdleOk(h, t); NotQueued(h, t); JoinInv(h, Do(h, t, a), t);
    case CasTail =>
      OwnerIsFirst(h, t);
      assert OnePlace(h, h.served, |h.tickets| - 1);
      LeaveInv(h, Do(h, t, a), t);
    case Wake(succ) =>
      OwnerIsFirst(h, t);
      WakeReachesWaiter(h, t, succ);
      LeaveInv(h, Do(h, t, a), t);
  }

  // ---------------------------------------------------------------- runs

  type Run = Trace<Mem, Act>

  /** A run begins with a free lock and goes on by enabled steps of any threads. */
  ghost function First(): Mem -> bool {
    h => h == Init()
  }

  ghost function CanStep(): (Mem, nat, Act, Mem) -> bool {
    (h: Mem, t: nat, a: Act, h': Mem) => Enabled(h, t, a) && h' == Do(h, t, a)
  }

  ghost predicate IsRun(tr: Run) {
    IsRunOf(First(), CanStep(), tr)
  }

  /** Safety over whole runs. */
  lemma RunInv(tr: Run)
    requires IsRun(tr)
    ensures Inv(tr.now)
  {
    var inv := (h: Mem) => Inv(h);
    forall h, t, a, h' | inv(h) && CanStep()(h, t, a, h') ensures inv(h') { StepInv(h, t, a); }
    RunKeeps(First(), CanStep(), inv, tr);
  }

  /** The last step of `tr` is a swap by `t`. */
  predicate Joins(tr: Run, t: nat) {
    tr.Then? && tr.who == t && (tr.act.Swap? || tr.act.CasFree?)
  }

  /** With the last step of `tr`, thread `t` gets the lock. */
  predicate Gets(tr: Run, t: nat) {
    tr.Then? && !L(tr.before.now, t).phase.Owner? && L(tr.now, t).phase.Owner?
  }

  /** The threads in the order of their swaps. */
  ghost function Swaps(tr: Run): seq<nat>
    decreases tr
  {
    match tr
    case Start(_) => []
    case Then(before, t, a, _) => Swaps(before) + (if Joins(tr, t) then [t] else [])
  }

  /** The threads in the order in which they got the lock. */
  ghost function Grants(tr: Run): seq<nat>
    decreases tr
  {
    match tr
    case Start(_) => []
    case Then(before, t, a, _) => Grants(before) + (if Gets(tr, t) then [t] else [])
  }

  lemma {:induction false} LogsAreKept(tr: Run)
    requires IsRun(tr)
    ensures tr.now.tickets == Swaps(tr) && tr.now.entered == Grants(tr)
    decreases tr
  {
    LastStep(First(), CanStep(), tr);
    if tr.Then? { LogsAreKept(tr.before); }
  }

  /** Nobody gets the lock by somebody else's step. */
  lemma GetsByOwnStep(tr: Run, t: nat)
    requires IsRun(tr) && Gets(tr, t)
    ensures tr.who == t
  {
    LastStep(First(), CanStep(), tr);
  }

  /** First come, first served: in every run the lock has been granted in the order of the tail
      swaps, to all but those still queued; and the grants logged are all there were, because
      nobody gets the lock by somebody else's step. */
  lemma GrantedInOrder(tr: Run)
    requires IsRun(tr)
    ensures Grants(tr) <= Swaps(tr)
    ensures forall m, t {:trigger Within(m, tr), Gets(m, t)} :: Within(m, tr) && Gets(m, t) ==> m.who == t
  {
    RunInv(tr);
    LogsAreKept(tr);
    forall m, t | Within(m, tr) && Gets(m, t) ensures m.who == t {
      RunPrefix(First(), CanStep(), m, tr);
      GetsByOwnStep(m, t);
    }
  }

  // ---------------------------------------------------------------- the code

  /** What the steps of other threads leave alone. */
  ghost predicate Kept(h: Mem, h': Mem, t: nat) {
    && L(h', t).phase == L(h, t).phase
    && (L(h, t).phase.Outside? || L(h, t).phase.Ready? ==> L(h', t) == L(h, t))
    && (L(h, t).next != None ==> L(h', t).next == L(h, t).next)
    && (L(h, t).phase.Owner? ==> h'.served == h.served && h'.entered == h.entered)
    && (h.tail != Some(t) ==> h'.tail != Some(t))
  }

  lemma StepKept(h: Mem, u: nat, a: Act, t: nat)
    requires Inv(h) && Enabled(h, u, a) && u != t
    ensures Kept(h, Do(h, u, a), t)
  {
    if L(h, t).phase.Owner? { OwnerIsFirst(h, t); }
    assert IdleOk(h, t);
    match a
    case Link =>
      assert IdleOk(h, u);
      var k := PlaceOf(h, u);
      assert PlaceOk(h, k);
      AtPlace(h, k - 1);
      if InQueue(h, t) { QueuedIsBusy(h, t); }
      assert NextOk(h, k - 1);
    case Wake(succ) =>
      WakeReachesWaiter(h, u, succ);
      OwnerIsFirst(h, u);
      AtPlace(h, h.served + 1);
    case CasTail => OwnerIsFirst(h, u);
    case Notice => NoticeInv(h, u);
    case _ =>
  }

  lemma KeptTransitive(a: Mem, b: Mem, c: Mem, t: nat)
    requires Kept(a, b, t) && Kept(b, c, t)
    ensures Kept(a, c, t)
  {
  }

  /** The last step of `m` is the release by `t`: it leaves an empty queue, or the next thread in
      line is let go by it. */
  ghost predicate Releases(m: Run, t: nat) {
    && m.Then? && m.who == t && m.now.served == m.before.now.served + 1
    && if m.act.CasTail? then m.now.tail == None && m.now.served == |m.now.tickets|
       else m.now.served < |m.now.tickets| && Enabled(m.now, m.now.tickets[m.now.served], Notice)
  }

  /** There was a moment from `from` on at which somebody had the lock or was queued for it. */
  ghost predicate SawQueued(from: Run, tr: Run) {
    exists m :: Within(from, m) && Within(m, tr) && m.now.tail != None
  }

  /** There was a moment from `from` on at which the thread was told to wait. */
  ghost predicate SawWaiting(from: Run, tr: Run, t: nat) {
    exists m :: Within(from, m) && Within(m, tr) && L(m.now, t).waiting
  }

  /** There was a moment from `from` on at which somebody was queued behind the thread and had not
      linked itself. */
  ghost predicate SawUnlinked(from: Run, tr: Run, t: nat) {
    exists m :: Within(from, m) && Within(m, tr) && m.now.tail != Some(t) && L(m.now, t).next == None
  }

  lemma SawLater(from: Run, m: Run, tr: Run, t: nat)
    requires Within(from, m) && Within(m, tr)
    ensures m.now.tail != None ==> SawQueued(from, tr)
    ensures L(m.now, t).waiting ==> SawWaiting(from, tr, t)
    ensures m.now.tail != Some(t) && L(m.now, t).next == None ==> SawUnlinked(from, tr, t)
  {
  }

  class McsLock {
    var mem: Mem
    ghost var tr: Run

    ghost predicate Valid()
      reads this
    {
      IsRun(tr) && tr.now == mem
    }

    constructor ()
      ensures Valid() && mem.tail == None
    {
      mem := Init();
      tr := Start(Init());
    }

    /** One step of thread `t`. */
    method Record(t: nat, a: Act)
      requires Valid() && Enabled(mem, t, a)
      modifies this
      ensures Valid() && mem == Do(old(mem), t, a) && tr == Then(old(tr), t, a, mem) && Within(old(tr), tr)
      ensures forall u :: u != t ==> Kept(old(mem), mem, u)
    {
      RunInv(tr);
      RunGoesOn(First(), CanStep(), tr, t, a, Do(tr.now, t, a));
      forall u | u != t ensures Kept(mem, Do(mem, t, a), u) { StepKept(mem, t, a, u); }
      mem := Do(mem, t, a);
      tr := Then(tr, t, a, mem);
    }

    /** The other threads run: any number of steps, each by any thread but `t`, each one the
        code enables. Every access to shared memory below comes after such a pause. */
    method Interfere(t: nat)
      requires Valid()
      modifies this
      ensures Valid() && Inv(mem) && Kept(old(mem), mem, t) && Within(old(tr), tr)
    {
      var n: nat := *;
      while n > 0
        invariant Valid() && Kept(old(mem), mem, t) && Within(old(tr), tr)
      {
        var u: nat, a: Act := *, *;
        if u != t && Enabled(mem, u, a) {
          ghost var h1, tr1 := mem, tr;
          Record(u, a);
          KeptTransitive(old(mem), h1, mem, t);
          WithinTransitive(old(tr), tr1, tr);
        }
        n := n - 1;
      }
      RunInv(tr);
    }

    /** mcs_lock_lock; false while it still spins after `spins` rounds: the thread stays queued. It
        does not queue up if it finds the lock free, and stops spinning when it is let go. */
    method Lock(t: nat, spins: nat) returns (ok: bool)
      requires Valid() && (L(mem, t).phase.Outside? || L(mem, t).phase.Ready?)
      modifies this
      ensures Valid() && Within(old(tr), tr)
      ensures if ok then L(mem, t).phase.Owner? && HeadOwns(mem) && mem.tickets[mem.served] == t else L(mem, t).phase.Linked?
      ensures !ok ==> SawQueued(old(tr), tr) && (spins == 0 || SawWaiting(old(tr), tr, t))
    {
      Interfere(t);
      ghost var tr1 := tr;
      Record(t, Reset);
      WithinTransitive(old(tr), tr1, tr);
      ghost var tr2 := tr;
      Interfere(t);
      WithinTransitive(old(tr), tr2, tr);
      ghost var tr3 := tr;
      Record(t, Swap);
      WithinTransitive(old(tr), tr3, tr);
      ok := L(mem, t).phase.Owner?;
      if !ok {
        ghost var tr4 := tr;
        ok := QueueUp(t, spins, old(tr));
        WithinTransitive(tr3, tr4, tr);
        SawLater(old(tr), tr3, tr, t);
      }
      if ok {
        RunInv(tr);
        OwnerIsFirst(mem, t);
      }
    }

    /** The rest of mcs_lock_lock for a thread that found somebody before it. */
    method QueueUp(t: nat, spins: nat, ghost from: Run) returns (ok: bool)
      requires Valid() && L(mem, t).phase.Swapped? && Within(from, tr)
      modifies this
      ensures Valid() && Within(old(tr), tr) && Within(from, tr)
      ensures if ok then L(mem, t).phase.Owner? else L(mem, t).phase.Linked? && (spins == 0 || SawWaiting(from, tr, t))
    {
      JoinBehind(t);
      WithinTransitive(from, old(tr), tr);
      var n := spins;
      while n > 0
        invariant Valid() && L(mem, t).phase.Linked? && Within(old(tr), tr) && Within(from, tr)
        invariant n == spins || SawWaiting(from, tr, t)
      {
        ghost var tr1 := tr;
        Interfere(t);
        WithinTransitive(old(tr), tr1, tr);
        WithinTransitive(from, tr1, tr);
        if !L(mem, t).waiting {
          ghost var tr2 := tr;
          Record(t, Notice);
          WithinTransitive(old(tr), tr2, tr);
          WithinTransitive(from, tr2, tr);
          return true;
        }
        SawLater(from, tr, tr, t);
        n := n - 1;
      }
      ok := false;
    }

    /** local->waiting = 1; pred->next = local */
    method JoinBehind(t: nat)
      requires Valid() && L(mem, t).phase.Swapped?
      modifies this
      ensures Valid() && L(mem, t).phase.Linked? && Within(old(tr), tr)
    {
      Interfere(t);
      ghost var tr1 := tr;
      Record(t, Arm);
      WithinTransitive(old(tr), tr1, tr);
      ghost var tr2 := tr;
      Interfere(t);
      WithinTransitive(old(tr), tr2, tr);
      RunInv(tr);
      LinkIsNotToSelf(mem, t);
      ghost var tr3 := tr;
      Record(t, Link);
      WithinTransitive(old(tr), tr3, tr);
    }

    /** mcs_lock_trylock; it succeeds only if nobody is queued, and fails only if somebody was. */
    method TryLock(t: nat) returns (ok: bool)
      requires Valid() && (L(mem, t).phase.Outside? || L(mem, t).phase.Ready?)
      modifies this
      ensures Valid() && Within(old(tr), tr)
      ensures if ok then L(mem, t).phase.Owner? && HeadOwns(mem) && mem.tickets[mem.served] == t else L(mem, t).phase.Outside? || L(mem, t).phase.Ready?
      ensures !ok ==> SawQueued(old(tr), tr)
    {
      Interfere(t);
      if mem.tail != None {
        SawLater(old(tr), tr, tr, t);
        return false;
      }
      ghost var tr1 := tr;
      Interfere(t);
      WithinTransitive(old(tr), tr1, tr);
      ghost var tr2 := tr;
      Record(t, Reset);
      WithinTransitive(old(tr), tr2, tr);
      ghost var tr3 := tr;
      Interfere(t);
      WithinTransitive(old(tr), tr3, tr);
      ok := mem.tail == None;
      if ok {
        ghost var tr4 := tr;
        Record(t, CasFree);
        WithinTransitive(old(tr), tr4, tr);
        RunInv(tr);
        OwnerIsFirst(mem, t);
      } else {
        SawLater(old(tr), tr, tr, t);
      }
    }

    /** mcs_lock_unlock; false while it still waits for its successor to link itself after
        `spins` rounds: the thread keeps the lock. `m` is the moment of the release. It waits
        only if somebody is queued behind it who has not linked itself. */
    method Unlock(t: nat, spins: nat) returns (ok: bool, ghost m: Run)
      requires Valid() && L(mem, t).phase.Owner?
      modifies this
      ensures Valid() && (!ok ==> SawUnlinked(old(tr), tr, t))
      ensures if ok then L(mem, t).phase.Outside? && Within(old(tr), m) && Within(m, tr) && Releases(m, t) else L(mem, t).phase.Owner?
    {
      Interfere(t);
      var succ := L(mem, t).next;
      m := tr;
      if succ == None {
        ghost var tr1 := tr;
        Interfere(t);
        WithinTransitive(old(tr), tr1, tr);
        if mem.tail == Some(t) {
          m := ReleaseEmpty(t);
          WithinTransitive(old(tr), m.before, m);
          return true, m;
        }
        ghost var tr3 := tr;
        succ := AwaitSuccessor(t, spins);
        WithinTransitive(old(tr), tr3, tr);
        if succ == None {
          SawLater(old(tr), tr, tr, t);
          return false, m;
        }
      }
      ghost var tr2 := tr;
      m := HandOver(t, succ.value);
      WithinTransitive(old(tr), tr2, m);
      ok := true;
    }

    method ReleaseEmpty(t: nat) returns (ghost m: Run)
      requires Valid() && L(mem, t).phase.Owner? && mem.tail == Some(t)
      modifies this
      ensures Valid() && m == tr && Within(old(tr), m) && m.Then? && m.before == old(tr) && L(mem, t).phase.Outside? && Releases(m, t)
    {
      RunInv(tr);
      OwnerIsFirst(mem, t);
      assert OnePlace(mem, mem.served, |mem.tickets| - 1);
      Record(t, CasTail);
      m := tr;
    }

    /** do succ = local->next; while (!succ) */
    method AwaitSuccessor(t: nat, spins: nat) returns (succ: Option<nat>)
      requires Valid() && L(mem, t).phase.Owner?
      modifies this
      ensures Valid() && L(mem, t).phase.Owner? && Within(old(tr), tr) && (old(mem).tail != Some(t) ==> mem.tail != Some(t))
      ensures L(mem, t).next == succ
    {
      var n := spins;
      succ := L(mem, t).next;
      while n > 0
        invariant Valid() && L(mem, t).phase.Owner? && Within(old(tr), tr) && L(mem, t).next == succ
        invariant old(mem).tail != Some(t) ==> mem.tail != Some(t)
      {
        ghost var tr1 := tr;
        Interfere(t);
        WithinTransitive(old(tr), tr1, tr);
        succ := L(mem, t).next;
        if succ != None { return; }
        n := n - 1;
      }
    }

    /** succ->waiting = 0 */
    method HandOver(t: nat, succ: nat) returns (ghost m: Run)
      requires Valid() && L(mem, t).phase.Owner? && L(mem, t).next == Some(succ)
      modifies this
      ensures Valid() && m == tr && Within(old(tr), m) && L(mem, t).phase.Outside? && Releases(m, t)
    {
      Interfere(t);
      ghost var tr1 := tr;
      WakeReachesWaiter(mem, t, succ);
      Record(t, Wake(succ));
      WithinTransitive(old(tr), tr1, tr);
      m := tr;
    }
  }

  lemma LinkIsNotToSelf(h: Mem, t: nat)
    requires Inv(h) && L(h, t).phase.Armed?
    ensures L(h, t).phase.pred != t
  {
    assert IdleOk(h, t);
    var k := PlaceOf(h, t);
    assert PlaceOk(h, k) && OnePlace(h, k - 1, k);
  }
}
