/** The array map: a fixed array of key-value slots under one versioned lock. Searches validate a
    hit with the version and a miss not at all; updates scan first and lock afterwards. The
    key 0 marks an empty slot. */
module ArrayMapOptik {
  import opened History
  import opened Calls
  import opened SetCalls
  import opened OptikLock

  datatype Option<+T> = None | Some(value: T)

  datatype Slot = Slot(key: int, val: int)

  /** `Writing(i, val)`: the key of slot `i` is written, its value is about to be. Bookkeeping. */
  datatype Pending = Nothing | Writing(i: nat, val: int)

  datatype Mem = Mem(slots: seq<Slot>, lock: Word, pending: Pending)

  datatype Act =
    | Lock
    | WriteKey(i: nat, key: int, val: int)      // array[free_idx].key = key
    | WriteVal(i: nat, val: int)                // array[free_idx].val = val
    | ClearKey(i: nat)                          // array[i].key = 0
    | Unlock

  predicate Enabled(h: Mem, t: nat, a: Act) {
    match a
    case Lock => CanLock(h.lock, h.lock.version)
    case WriteKey(i, key, val) => HeldBy(h.lock, t) && h.pending.Nothing? && i < |h.slots| && h.slots[i].key == 0 && key != 0 && NoSlotHas(h, key)
    case WriteVal(i, val) => HeldBy(h.lock, t) && h.pending == Writing(i, val) && i < |h.slots|
    case ClearKey(i) => HeldBy(h.lock, t) && h.pending.Nothing? && i < |h.slots| && h.slots[i].key != 0
    case Unlock => HeldBy(h.lock, t) && h.pending.Nothing?
  }

  /** No slot has the key. */
  predicate NoSlotHas(h: Mem, key: int) {
    forall j :: 0 <= j < |h.slots| ==> h.slots[j].key != key
  }

  function Do(h: Mem, t: nat, a: Act): Mem
    requires Enabled(h, t, a)
  {
    match a
    case Lock => h.(lock := Locked(h.lock, t))
    case WriteKey(i, key, val) => Mem(h.slots[i := h.slots[i].(key := key)], Written(h.lock, t), Writing(i, val))
    case WriteVal(i, val) => Mem(h.slots[i := h.slots[i].(val := val)], Written(h.lock, t), Nothing)
    case ClearKey(i) => Mem(h.slots[i := h.slots[i].(key := 0)], Written(h.lock, t), Nothing)
    case Unlock => h.(lock := Unlocked(h.lock))
  }

  predicate SameKeySameSlot(h: Mem, i: nat, j: nat) {
    i < |h.slots| && j < |h.slots| && h.slots[i].key == h.slots[j].key != 0 ==> i == j
  }

  /** Non-zero keys are unique in every reachable state, and a half-written slot is under a lock
      that knows of the write. */
  ghost predicate Inv(h: Mem) {
    && Consistent(h.lock) && h.lock.owner != Gone
    && (forall i, j {:trigger SameKeySameSlot(h, i, j)} :: SameKeySameSlot(h, i, j))
    && (h.pending.Writing? ==> h.lock.owner.By? && h.lock.owner.wrote && h.pending.i < |h.slots| && h.slots[h.pending.i].key != 0)
  }

  /** The value a slot has, or is about to get. */
  function Val(h: Mem, i: int): int
    requires 0 <= i < |h.slots|
  {
    if h.pending.Writing? && h.pending.i == i then h.pending.val else h.slots[i].val
  }

  function Elements(h: Mem): Pairs {
    set i | 0 <= i < |h.slots| && h.slots[i].key != 0 :: (h.slots[i].key, Val(h, i))
  }

  function Init(size: nat): Mem {
    Mem(seq(size, _ => Slot(0, 0)), Word(OPTIK_INIT, Free), Nothing)
  }

  lemma NoSlotIsAbsent(h: Mem, key: int)
    requires key != 0
    ensures NoSlotHas(h, key) <==> Lacks(Elements(h), key)
  {
    forall j | 0 <= j < |h.slots| && h.slots[j].key != 0 ensures (h.slots[j].key, Val(h, j)) in Elements(h) {
      SlotIsElement(h, j);
    }
  }

  lemma SlotIsElement(h: Mem, i: nat)
    requires i < |h.slots| && h.slots[i].key != 0
    ensures (h.slots[i].key, Val(h, i)) in Elements(h)
  {
  }

  // ---------------------------------------------------------------- what one step does

  lemma WriteKeyEffect(h: Mem, t: nat, i: nat, key: int, val: int)
    requires Inv(h) && Enabled(h, t, WriteKey(i, key, val))
    ensures Inv(Do(h, t, WriteKey(i, key, val))) && Adds(key, val)(Elements(h), Elements(Do(h, t, WriteKey(i, key, val))))
  {
    var h' := Do(h, t, WriteKey(i, key, val));
    NoSlotIsAbsent(h, key);
    forall j, k ensures SameKeySameSlot(h', j, k) { assert SameKeySameSlot(h, j, k); }
    SlotIsElement(h', i);
    forall x | x in Elements(h) ensures x in Elements(h') {
      var j :| 0 <= j < |h.slots| && h.slots[j].key != 0 && (h.slots[j].key, Val(h, j)) == x;
      SlotIsElement(h', j);
    }
    forall x | x in Elements(h') && x != (key, val) ensures x in Elements(h) {
      var j :| 0 <= j < |h'.slots| && h'.slots[j].key != 0 && (h'.slots[j].key, Val(h', j)) == x;
      SlotIsElement(h, j);
    }
    assert Elements(h') == Elements(h) + {(key, val)};
  }

  lemma ClearKeyEffect(h: Mem, t: nat, i: nat)
    requires Inv(h) && Enabled(h, t, ClearKey(i))
    ensures Inv(Do(h, t, ClearKey(i))) && Removes(h.slots[i].key, h.slots[i].val)(Elements(h), Elements(Do(h, t, ClearKey(i))))
  {
    var h', x0 := Do(h, t, ClearKey(i)), (h.slots[i].key, h.slots[i].val);
    forall j, k ensures SameKeySameSlot(h', j, k) { assert SameKeySameSlot(h, j, k); }
    SlotIsElement(h, i);
    forall x | x in Elements(h) && x != x0 ensures x in Elements(h') {
      var j :| 0 <= j < |h.slots| && h.slots[j].key != 0 && (h.slots[j].key, Val(h, j)) == x;
      SlotIsElement(h', j);
    }
    forall x | x in Elements(h') ensures x in Elements(h) && x.0 != x0.0 {
      var j :| 0 <= j < |h'.slots| && h'.slots[j].key != 0 && (h'.slots[j].key, Val(h', j)) == x;
      SlotIsElement(h, j);
      assert SameKeySameSlot(h, j, i);
    }
    assert Elements(h') == Elements(h) - {x0};
  }

  lemma ElementsSame(h: Mem, h': Mem)
    requires |h'.slots| == |h.slots|
    requires forall j :: 0 <= j < |h.slots| ==> h'.slots[j].key == h.slots[j].key && (h.slots[j].key != 0 ==> Val(h', j) == Val(h, j))
    ensures Elements(h') == Elements(h)
  {
    forall x | x in Elements(h) ensures x in Elements(h') {
      var j :| 0 <= j < |h.slots| && h.slots[j].key != 0 && (h.slots[j].key, Val(h, j)) == x;
      SlotIsElement(h', j);
    }
    forall x | x in Elements(h') ensures x in Elements(h) {
      var j :| 0 <= j < |h'.slots| && h'.slots[j].key != 0 && (h'.slots[j].key, Val(h', j)) == x;
      SlotIsElement(h, j);
    }
  }

  predicate Silent(a: Act) {
    !a.WriteKey? && !a.ClearKey?
  }

  /** What lock and data guarantee from one state to a later one. */
  ghost predicate Later(h: Mem, h': Mem) {
    |h'.slots| == |h.slots| && Since(h.lock, h.slots, h'.lock, h'.slots)
  }

  /** Every step keeps the invariant; the set changes by one pair in the steps that write a key,
      and in no other. */
  lemma StepKeeps(h: Mem, t: nat, a: Act)
    requires Inv(h) && Enabled(h, t, a)
    ensures Inv(Do(h, t, a)) && Later(h, Do(h, t, a))
    ensures match a
      case WriteKey(i, key, val) => Adds(key, val)(Elements(h), Elements(Do(h, t, a)))
      case ClearKey(i) => Removes(h.slots[i].key, h.slots[i].val)(Elements(h), Elements(Do(h, t, a)))
      case _ => Elements(Do(h, t, a)) == Elements(h)
  {
    var h' := Do(h, t, a);
    OperationsKeepSince(h.lock, h.slots, h'.slots, t);
    match a
    case WriteKey(i, key, val) => WriteKeyEffect(h, t, i, key, val);
    case ClearKey(i) => ClearKeyEffect(h, t, i);
    case _ =>
      forall i, j ensures SameKeySameSlot(h', i, j) { assert SameKeySameSlot(h, i, j); }
      ElementsSame(h, h');
  }

  /** While a thread holds the lock, nobody else can do anything. */
  lemma LockExcludes(h: Mem, t: nat, u: nat, a: Act)
    requires Inv(h) && Enabled(h, u, a) && u != t
    ensures !HeldBy(h.lock, t) && !HeldBy(Do(h, u, a).lock, t)
  {
  }

  // ---------------------------------------------------------------- runs

  type Run = Trace<Mem, Act>

  /** A run begins in any state that satisfies the invariant and goes on by enabled steps of any
      threads. */
  ghost function First(): Mem -> bool {
    h => Inv(h)
  }

  ghost function CanStep(): (Mem, nat, Act, Mem) -> bool {
    (h: Mem, t: nat, a: Act, h': Mem) => Enabled(h, t, a) && h' == Do(h, t, a)
  }

  ghost predicate IsRun(tr: Run) {
    IsRunOf(First(), CanStep(), tr)
  }

  /** Safety over whole runs. */
  lemma {:induction false} RunKeeps(m: Run, tr: Run)
    requires IsRun(tr) && Within(m, tr)
    ensures Inv(m.now) && Inv(tr.now) && Later(m.now, tr.now)
    decreases tr
  {
    LastStep(First(), CanStep(), tr);
    if tr.Then? {
      RunKeeps(if m == tr then tr.before else m, tr.before);
      StepKeeps(tr.before.now, tr.who, tr.act);
      if m != tr {
        SinceTransitive(m.now.lock, m.now.slots, tr.before.now.lock, tr.before.now.slots, tr.now.lock, tr.now.slots);
      }
    }
  }

  /** The pair was in the map at every moment from `m` to the end of `tr`. */
  ghost predicate Throughout(m: Run, tr: Run, key: int, val: int) {
    Within(m, tr) && forall i :: Within(m, i) && Within(i, tr) ==> (key, val) in Elements(i.now)
  }

  /** A hit whose version did not change is right, and for the whole time between the two reads
      of the version. */
  lemma ValidatedHit(m: Run, r: Run, tr: Run, i: nat, key: int, val: int)
    requires IsRun(tr) && Within(m, r) && Within(r, tr) && key != 0
    requires !IsLocked(m.now.lock.version) && tr.now.lock.version == m.now.lock.version
    requires i < |r.now.slots| && r.now.slots[i] == Slot(key, val)
    ensures Throughout(m, tr, key, val)
  {
    WithinTransitive(m, r, tr);
    RunKeeps(m, tr);
    forall k | Within(m, k) && Within(k, tr) ensures (key, val) in Elements(k.now) {
      UnchangedBetween(m, r, tr);
      UnchangedBetween(m, k, tr);
      SlotIsElement(k.now, i);
    }
  }

  lemma UnchangedBetween(m: Run, k: Run, tr: Run)
    requires IsRun(tr) && Within(m, k) && Within(k, tr)
    requires !IsLocked(m.now.lock.version) && tr.now.lock.version == m.now.lock.version
    ensures k.now.slots == m.now.slots == tr.now.slots && k.now.pending == Nothing
  {
    RunKeeps(k, tr);
    assert IsRun(k) by {
      RunPrefix(First(), CanStep(), k, tr);
    }
    RunKeeps(m, k);
    SameVersionSameData(m.now.lock, m.now.slots, k.now.lock, k.now.slots, tr.now.lock, tr.now.slots);
  }

  // ---------------------------------------------------------------- the scan

  /** The key is in the slot, or there was a moment without it. */
  ghost predicate StillThere(from: Run, tr: Run, key: int, j: nat) {
    Saw(Elements, from, tr, IsAbsent(key)) || (j < |tr.now.slots| && tr.now.slots[j].key == key)
  }

  /** A key cannot change slots without a moment of absence. */
  lemma {:induction false} StaysInSlot(from: Run, m: Run, tr: Run, key: int, j: nat)
    requires IsRun(tr) && Within(from, m) && Within(m, tr) && key != 0 && StillThere(from, m, key, j)
    ensures StillThere(from, tr, key, j)
    decreases tr
  {
    if m != tr {
      LastStep(First(), CanStep(), tr);
      RunKeeps(tr.before, tr);
      StaysInSlot(from, m, tr.before, key, j);
      WithinTransitive(from, m, tr);
      StepKeeps(tr.before.now, tr.who, tr.act);
      if i :| Within(from, i) && Within(i, tr.before) && IsAbsent(key)(Elements(i.now)) {
        assert Within(i, tr);
      } else {
        assert IsAbsent(key)(Elements(tr.now)) == Lacks(Elements(tr.now), key);
      }
    }
  }

  /** What a scan that has passed the first `n` slots without meeting the key knows: if the key
      was there all the time, it is in a later slot. */
  ghost predicate NotBefore(from: Run, tr: Run, key: int, n: nat) {
    exists j :: n <= j && StillThere(from, tr, key, j)
  }

  lemma ScanBegins(from: Run, tr: Run, key: int)
    requires Within(from, tr) && key != 0
    ensures NotBefore(from, tr, key, 0)
  {
    if NoSlotHas(tr.now, key) {
      NoSlotIsAbsent(tr.now, key);
      assert IsAbsent(key)(Elements(tr.now));
      assert StillThere(from, tr, key, 0);
    } else {
      var j :| 0 <= j < |tr.now.slots| && tr.now.slots[j].key == key;
      assert StillThere(from, tr, key, j);
    }
  }

  lemma ScanGoesOn(from: Run, m: Run, tr: Run, key: int, n: nat)
    requires IsRun(tr) && Within(from, m) && Within(m, tr) && key != 0 && NotBefore(from, m, key, n)
    requires n < |tr.now.slots| && tr.now.slots[n].key != key
    ensures NotBefore(from, tr, key, n + 1)
  {
    var j: nat :| n <= j && StillThere(from, m, key, j);
    StaysInSlot(from, m, tr, key, j);
    if j == n { assert StillThere(from, tr, key, n + 1); }
  }

  /** A scan that met the key nowhere, though it validated nothing: there was a moment without the
      key. */
  lemma ScanMisses(from: Run, tr: Run, key: int)
    requires NotBefore(from, tr, key, |tr.now.slots|)
    ensures Saw(Elements, from, tr, IsAbsent(key))
  {
  }

  // ---------------------------------------------------------------- the code

  /** The run went on from `tr0` to `tr` without thread `t`; what it has locked did not change. */
  ghost predicate Passed(tr0: Run, tr: Run, t: nat) {
    && Within(tr0, tr) && Calm(Elements, tr0, tr, t) && |tr.now.slots| == |tr0.now.slots|
    && (HeldBy(tr0.now.lock, t) ==> tr.now == tr0.now) && (!HeldBy(tr0.now.lock, t) ==> !HeldBy(tr.now.lock, t))
  }

  lemma PassedTransitive(a: Run, b: Run, c: Run, t: nat)
    requires Passed(a, b, t) && Passed(b, c, t)
    ensures Passed(a, c, t)
  {
    WithinTransitive(a, b, c);
    CalmTransitive(Elements, a, b, c, t);
  }

  /** How one round of a call ends. */
  datatype Outcome = Return(value: int) | Retry | Pending

  /** The map was full and did not have the key. */
  ghost predicate SawFull(from: Run, tr: Run, key: int) {
    exists m :: Within(from, m) && Within(m, tr) && NoSlotHas(m.now, key) && NoSlotHas(m.now, 0)
  }

  ghost predicate PresentAnswer(from: Run, tr: Run, key: int) {
    Saw(Elements, from, tr, IsPresent(key)) || SawFull(from, tr, key)
  }

  /** A hit was in the map for a whole interval of the call. */
  ghost predicate HeldFor(from: Run, tr: Run, key: int, val: int) {
    exists m :: Within(from, m) && Throughout(m, tr, key, val)
  }

  lemma FullStays(from: Run, m: Run, tr: Run, key: int)
    requires SawFull(from, m, key) && Within(m, tr)
    ensures SawFull(from, tr, key)
  {
    var i :| Within(from, i) && Within(i, m) && NoSlotHas(i.now, key) && NoSlotHas(i.now, 0);
    WithinTransitive(i, m, tr);
  }

  lemma KeyIsPresent(from: Run, tr: Run, key: int, i: nat)
    requires Within(from, tr) && key != 0 && i < |tr.now.slots| && tr.now.slots[i].key == key
    ensures Saw(Elements, from, tr, IsPresent(key))
  {
    SlotIsElement(tr.now, i);
    assert IsPresent(key)(Elements(tr.now));
  }

  lemma WithinFour(a: Run, b: Run, c: Run, d: Run, e: Run)
    requires Within(a, b) && Within(b, c) && Within(c, d) && Within(d, e)
    ensures Within(a, e)
  {
    WithinTransitive(a, b, c);
    WithinTransitive(a, c, d);
    WithinTransitive(a, d, e);
  }

  /** What the scan of insert has read: at some moment since it began each of the first `n` slots
      had another key, and the slot remembered, if any, was empty. */
  ghost predicate Scanned(start: Run, tr: Run, key: int, freeIdx: int, n: nat) {
    && -1 <= freeIdx < n <= |tr.now.slots|
    && (forall j {:trigger ReadAt(start, tr, j, key, freeIdx)} :: 0 <= j < n ==> ReadAt(start, tr, j, key, freeIdx))
  }

  /** The `j`-th slot was read at some moment: it did not have the key, and it was empty if it is
      the one remembered, and not empty if none is. */
  ghost predicate ReadAt(start: Run, tr: Run, j: nat, key: int, freeIdx: int) {
    exists m :: Within(start, m) && Within(m, tr) && ReadSo(m.now, j, key, freeIdx)
  }

  predicate ReadSo(h: Mem, j: nat, key: int, freeIdx: int) {
    && j < |h.slots| && h.slots[j].key != key
    && (j == freeIdx ==> h.slots[j].key == 0) && (freeIdx == -1 ==> h.slots[j].key != 0)
  }

  lemma ReadAtStays(start: Run, m: Run, tr: Run, j: nat, key: int, freeIdx: int, f: int)
    requires ReadAt(start, m, j, key, freeIdx) && Within(m, tr) && (f == freeIdx || (f != -1 && f != j))
    ensures ReadAt(start, tr, j, key, f)
  {
    var i :| Within(start, i) && Within(i, m) && ReadSo(i.now, j, key, freeIdx);
    WithinTransitive(i, m, tr);
    assert ReadSo(i.now, j, key, f);
  }

  ghost predicate ScannedAll(start: Run, tr: Run, key: int, freeIdx: int) {
    Scanned(start, tr, key, freeIdx, |tr.now.slots|)
  }

  lemma ScannedMore(start: Run, m: Run, tr: Run, key: int, freeIdx: int, n: nat)
    requires Scanned(start, m, key, freeIdx, n) && Within(m, tr) && Within(start, tr) && |tr.now.slots| == |m.now.slots|
    requires n < |tr.now.slots|
    ensures tr.now.slots[n].key != key ==>
      Scanned(start, tr, key, if tr.now.slots[n].key == 0 then n else freeIdx, n + 1)
  {
    if tr.now.slots[n].key != key {
      var f := if tr.now.slots[n].key == 0 then n else freeIdx;
      forall j | 0 <= j < n + 1 ensures ReadAt(start, tr, j, key, f) {
        if j == n {
          assert Within(tr, tr) && ReadSo(tr.now, j, key, f);
        } else {
          ReadAtStays(start, m, tr, j, key, freeIdx, f);
        }
      }
    }
  }

  /** Once the lock is taken at the version read before the scan, all that the scan has read
      holds at once: the key is absent, and the slot remembered is empty, or none is. */
  lemma ScanStands(start: Run, m: Run, tr: Run, key: int, freeIdx: int)
    requires IsRun(tr) && tr.Then? && IsRun(tr.before) && Within(m, tr.before) && Within(start, m)
    requires tr.before.now.lock.version == start.now.lock.version && !IsLocked(start.now.lock.version)
    requires ScannedAll(start, m, key, freeIdx) && |m.now.slots| == |tr.now.slots| && tr.now.slots == tr.before.now.slots
    ensures NoSlotHas(tr.now, key)
    ensures if freeIdx >= 0 then freeIdx < |tr.now.slots| && tr.now.slots[freeIdx].key == 0 else NoSlotHas(tr.now, 0)
  {
    forall j: nat | j < |tr.now.slots|
      ensures tr.now.slots[j].key != key
      ensures (j == freeIdx ==> tr.now.slots[j].key == 0) && (freeIdx == -1 ==> tr.now.slots[j].key != 0)
    {
      assert ReadAt(start, m, j, key, freeIdx);
      var i :| Within(start, i) && Within(i, m) && ReadSo(i.now, j, key, freeIdx);
      WithinTransitive(i, m, tr.before);
      UnchangedBetween(start, i, tr.before);
    }
  }

  /** There was a moment from `from` on at which the lock was held. */
  ghost predicate SawLocked(from: Run, tr: Run) {
    exists m :: Within(from, m) && Within(m, tr) && IsLocked(m.now.lock.version)
  }

  lemma LockedStays(from: Run, m: Run, tr: Run)
    requires Within(m, tr)
    ensures SawLocked(from, m) ==> SawLocked(from, tr)
  {
    if SawLocked(from, m) {
      var i :| Within(from, i) && Within(i, m) && IsLocked(i.now.lock.version);
      WithinTransitive(i, m, tr);
    }
  }

  lemma LockedNow(from: Run, tr: Run)
    requires Within(from, tr) && IsLocked(tr.now.lock.version)
    ensures SawLocked(from, tr)
  {
    assert Within(tr, tr);
  }

  lemma LockedEarlier(from: Run, m: Run, tr: Run)
    requires Within(from, m) && SawLocked(m, tr)
    ensures SawLocked(from, tr)
  {
    var i :| Within(m, i) && Within(i, tr) && IsLocked(i.now.lock.version);
    WithinTransitive(from, m, i);
  }

  lemma OnlyUnlockEndsIt(h: Mem, t: nat, a: Act)
    requires Inv(h) && Enabled(h, t, a) && !IsLocked(Do(h, t, a).lock.version) && Do(h, t, a).lock.version != h.lock.version
    ensures IsLocked(h.lock.version)
  {
    assert IsLocked(h.lock.version) != IsLocked(h.lock.version + 1);
  }

  /** An unlocked version only changes by way of the lock being held. */
  lemma {:induction false} VersionMoves(from: Run, m: Run, tr: Run)
    requires IsRun(tr) && Within(from, m) && Within(m, tr)
    requires IsLocked(m.now.lock.version) || tr.now.lock.version != m.now.lock.version
    ensures SawLocked(from, tr)
    decreases tr
  {
    WithinTransitive(from, m, tr);
    if IsLocked(tr.now.lock.version) {
      LockedNow(from, tr);
    } else if IsLocked(m.now.lock.version) {
      LockedNow(from, m);
      LockedStays(from, m, tr);
    } else {
      LastStep(First(), CanStep(), tr);
      RunKeeps(tr.before, tr);
      WithinTransitive(from, m, tr.before);
      if tr.before.now.lock.version == tr.now.lock.version {
        VersionMoves(from, m, tr.before);
      } else {
        OnlyUnlockEndsIt(tr.before.now, tr.who, tr.act);
        LockedNow(from, tr.before);
      }
      LockedStays(from, tr.before, tr);
    }
  }

  class ArrayMap {
    var mem: Mem
    ghost var tr: Run

    ghost predicate Valid()
      reads this
    {
      IsRun(tr) && tr.now == mem && Inv(mem)
    }

    constructor (size: nat)
      ensures Valid() && Elements(mem) == {} && |mem.slots| == size
    {
      mem := Init(size);
      tr := Start(Init(size));
      RunBegins<Mem, Act>(First(), CanStep(), Init(size));
      assert Elements(Init(size)) == {};
    }

    /** One step of thread `t`. */
    method Record(t: nat, a: Act)
      requires Valid() && Enabled(mem, t, a)
      modifies this
      ensures Valid() && mem == Do(old(mem), t, a) && tr == Then(old(tr), t, a, mem) && Within(old(tr), tr) && Later(old(mem), mem)
      ensures Silent(a) ==> Calm(Elements, old(tr), tr, t)
      ensures forall u: nat :: u != t ==> Passed(old(tr), tr, u)
    {
      ghost var tr' := Then(tr, t, a, Do(mem, t, a));
      StepKeeps(mem, t, a);
      RunGoesOn(First(), CanStep(), tr, t, a, Do(tr.now, t, a));
      if Silent(a) { CalmStep(Elements, tr, t, a, tr'.now, t); }
      forall u: nat | u != t ensures Passed(tr, tr', u) {
        CalmStep(Elements, tr, t, a, tr'.now, u);
        LockExcludes(mem, u, t, a);
      }
      mem := Do(mem, t, a);
      tr := tr';
    }

    /** The other threads run: any number of steps, each by any thread but `t`, each one the
        code enables. Every access to shared memory below comes after such a pause. */
    method Interfere(t: nat)
      requires Valid()
      modifies this
      ensures Valid() && Passed(old(tr), tr, t)
    {
      var n: nat := *;
      while n > 0
        invariant Valid() && Passed(old(tr), tr, t)
      {
        var u: nat, a: Act := *, *;
        if u != t && Enabled(mem, u, a) {
          ghost var tr1 := tr;
          Record(u, a);
          PassedTransitive(old(tr), tr1, tr, t);
        }
        n := n - 1;
      }
    }

    // -------------------------------------------------------------- search

    /** optik_get_version_wait: spins until the lock is free. */
    method GetVersionWait(t: nat, spins: nat) returns (ok: bool, version: nat)
      requires Valid()
      modifies this
      ensures Valid() && Passed(old(tr), tr, t)
      ensures ok ==> !IsLocked(version) && version == mem.lock.version
      ensures !ok ==> spins == 0 || SawLocked(old(tr), tr)
    {
      var n := spins;
      version := 1;
      while n > 0
        invariant Valid() && Passed(old(tr), tr, t)
        invariant n == spins || SawLocked(old(tr), tr)
      {
        ghost var tr1 := tr;
        Interfere(t);
        PassedTransitive(old(tr), tr1, tr, t);
        version := mem.lock.version;
        if !IsLocked(version) { return true, version; }
        LockedNow(old(tr), tr);
        n := n - 1;
      }
      ok := false;
    }

    /** What search does at the slot that has the key: reads the value and validates. */
    method ReadHit(t: nat, key: int, i: nat, version: nat, ghost start: Run) returns (ok: bool, val: int)
      requires Valid() && Within(start, tr) && !IsLocked(version) && start.now.lock.version == version
      requires i < |mem.slots| && mem.slots[i].key == key != 0
      modifies this
      ensures Valid() && Passed(old(tr), tr, t) && (if ok then Throughout(start, tr, key, val) else SawLocked(start, tr))
    {
      ghost var r := tr;
      Interfere(t);
      ghost var r2 := tr;
      val := mem.slots[i].val;
      Interfere(t);
      PassedTransitive(old(tr), r2, tr, t);
      ok := mem.lock.version == version;
      if ok {
        WithinTransitive(start, r, r2);
        WithinTransitive(r, r2, tr);
        UnchangedBetween(start, r, tr);
        UnchangedBetween(start, r2, tr);
        ValidatedHit(start, r2, tr, i, key, val);
      } else {
        WithinTransitive(start, old(tr), tr);
        VersionMoves(start, start, tr);
      }
    }

    /** One round of search. */
    method TrySearch(t: nat, key: int, spins: nat, ghost from: Run) returns (outcome: Outcome)
      requires Valid() && key != 0 && Within(from, tr)
      modifies this
      ensures Valid() && Passed(old(tr), tr, t)
      ensures outcome.Return? ==>
        HeldFor(from, tr, key, outcome.value) || (outcome.value == 0 && Saw(Elements, from, tr, IsAbsent(key)))
      ensures !outcome.Return? ==> spins == 0 || SawLocked(from, tr)
    {
      var ok, version := GetVersionWait(t, spins);
      if !ok {
        if spins > 0 { LockedEarlier(from, old(tr), tr); }
        return Pending;
      }
      WithinTransitive(from, old(tr), tr);
      ghost var start := tr;
      ScanBegins(from, tr, key);
      var i := 0;
      assert Passed(tr, tr, t);
      while i < |mem.slots|
        invariant Valid() && Passed(start, tr, t) && 0 <= i <= |mem.slots|
        invariant Within(from, tr) && NotBefore(from, tr, key, i)
      {
        ghost var tr1 := tr;
        Interfere(t);
        PassedTransitive(start, tr1, tr, t);
        WithinTransitive(from, tr1, tr);
        if mem.slots[i].key == key {
          ghost var tr2 := tr;
          var same, val := ReadHit(t, key, i, version, start);
          PassedTransitive(start, tr2, tr, t);
          PassedTransitive(old(tr), start, tr, t);
          if !same { LockedEarlier(from, start, tr); }
          return if same then Return(val) else Retry;
        }
        ScanGoesOn(from, tr1, tr, key, i);
        i := i + 1;
      }
      ScanMisses(from, tr, key);
      PassedTransitive(old(tr), start, tr, t);
      outcome := Return(0);
    }

    /** Looks a key up: a hit was in the map throughout an interval of the call, a miss was right
        at some moment of it. None when the call has not returned within `rounds` rounds. */
    method Search(t: nat, key: int, rounds: nat) returns (r: Option<int>)
      requires Valid() && key != 0
      modifies this
      ensures Valid() && Passed(old(tr), tr, t)
      ensures match r
        case Some(v) => HeldFor(old(tr), tr, key, v) || (v == 0 && Saw(Elements, old(tr), tr, IsAbsent(key)))
        case None => rounds == 0 || SawLocked(old(tr), tr)
    {
      var n := rounds;
      while n > 0
        invariant Valid() && Passed(old(tr), tr, t) && (n == rounds || SawLocked(old(tr), tr))
      {
        ghost var tr1 := tr;
        var outcome := TrySearch(t, key, rounds, old(tr));
        PassedTransitive(old(tr), tr1, tr, t);
        if outcome.Return? { return Some(outcome.value); }
        if outcome.Pending? { return None; }
        n := n - 1;
      }
      r := None;
    }

    // -------------------------------------------------------------- updates

    /** optik_trylock_version: a plain read of the version, and only if it is the one expected and
        not locked, the CAS. */
    method TryLockVersion(t: nat, version: nat) returns (ok: bool)
      requires Valid() && !HeldBy(mem.lock, t)
      modifies this
      ensures Valid() && Within(old(tr), tr) && Calm(Elements, old(tr), tr, t) && |mem.slots| == |old(mem.slots)|
      ensures ok <==> HeldBy(mem.lock, t)
      ensures !ok ==> IsLocked(version) || mem.lock.version != version
      ensures ok ==> !IsLocked(version) && mem.pending == Nothing && tr.Then? && mem.slots == tr.before.now.slots
      ensures ok ==> Within(old(tr), tr.before) && tr.before.now.lock.version == version && IsRun(tr.before)
    {
      Interfere(t);
      if IsLocked(version) || mem.lock.version != version { return false; }
      ghost var tr0 := tr;
      Interfere(t);
      PassedTransitive(old(tr), tr0, tr, t);
      ok := mem.lock.version == version;
      if ok {
        ghost var tr1 := tr;
        Record(t, Lock);
        WithinTransitive(old(tr), tr1, tr);
        CalmTransitive(Elements, old(tr), tr1, tr, t);
      }
    }

    /** optik_unlock */
    method Release(t: nat)
      requires Valid() && HeldBy(mem.lock, t) && mem.pending == Nothing
      modifies this
      ensures Valid() && !HeldBy(mem.lock, t) && Within(old(tr), tr) && Calm(Elements, old(tr), tr, t)
    {
      Interfere(t);
      ghost var tr1 := tr;
      Record(t, Unlock);
      WithinTransitive(old(tr), tr1, tr);
      CalmTransitive(Elements, old(tr), tr1, tr, t);
    }

    /** The scan of insert: the key's slot, or the last empty one. The version was read before it
        began. */
    method ScanForInsert(t: nat, key: int, ghost start: Run, ghost from: Run) returns (found: bool, freeIdx: int)
      requires Valid() && key != 0 && Within(from, start) && start == tr && !HeldBy(mem.lock, t)
      modifies this
      ensures Valid() && Passed(old(tr), tr, t) && Within(from, tr)
      ensures found ==> Saw(Elements, from, tr, IsPresent(key))
      ensures !found ==> ScannedAll(start, tr, key, freeIdx)
    {
      found, freeIdx := false, -1;
      var i := 0;
      assert Passed(tr, tr, t);
      while i < |mem.slots|
        invariant Valid() && Passed(start, tr, t) && Within(from, tr) && 0 <= i <= |mem.slots|
        invariant Scanned(start, tr, key, freeIdx, i)
      {
        ghost var tr1 := tr;
        Interfere(t);
        PassedTransitive(start, tr1, tr, t);
        WithinTransitive(from, tr1, tr);
        var ck := mem.slots[i].key;
        ScannedMore(start, tr1, tr, key, freeIdx, i);
        if ck == key {
          KeyIsPresent(from, tr, key, i);
          return true, freeIdx;
        } else if ck == 0 {
          freeIdx := i;
        }
        i := i + 1;
      }
    }

    /** One round of insert. */
    method TryInsert(t: nat, key: int, val: int, ghost from: Run) returns (outcome: Outcome)
      requires Valid() && key != 0 && !HeldBy(mem.lock, t) && Quiet(Elements, from, tr, t)
      modifies this
      ensures Valid() && !HeldBy(mem.lock, t) && !outcome.Pending?
      ensures outcome == Return(1) ==> MadeOnce(Elements, from, tr, t, Adds(key, val))
      ensures outcome != Return(1) ==> Quiet(Elements, from, tr, t)
      ensures outcome.Return? ==> outcome.value == 1 || (outcome.value == 0 && PresentAnswer(from, tr, key))
      ensures outcome.Retry? ==> SawLocked(from, tr)
    {
      Interfere(t);
      var version := mem.lock.version;
      ghost var start := tr;
      var found, freeIdx := ScanForInsert(t, key, start, from);
      if found { return Return(0); }
      ghost var tr1 := tr;
      var ok := TryLockVersion(t, version);
      if !ok {
        WithinTransitive(start, tr1, tr);
        VersionMoves(from, start, tr);
        return Retry;
      }
      ScanStands(start, tr1, tr, key, freeIdx);
      if freeIdx >= 0 {
        WriteSlot(t, key, val, freeIdx, from);
        Release(t);
        return Return(1);
      }
      assert Within(from, tr);
      assert SawFull(from, tr, key);
      ghost var tr2 := tr;
      Release(t);
      FullStays(from, tr2, tr, key);
      outcome := Return(0);
    }

    /** array[free_idx].key = key; array[free_idx].val = val */
    method WriteSlot(t: nat, key: int, val: int, i: nat, ghost from: Run)
      requires Valid() && HeldBy(mem.lock, t) && mem.pending == Nothing && Quiet(Elements, from, tr, t)
      requires key != 0 && i < |mem.slots| && mem.slots[i].key == 0 && NoSlotHas(mem, key)
      modifies this
      ensures Valid() && HeldBy(mem.lock, t) && mem.pending == Nothing && MadeOnce(Elements, from, tr, t, Adds(key, val))
      ensures mem.slots == old(mem.slots)[i := Slot(key, val)]
    {
      Interfere(t);
      StepKeeps(mem, t, WriteKey(i, key, val));
      Record(t, WriteKey(i, key, val));
      MakeStep(Elements, from, tr, t, Adds(key, val));
      Interfere(t);
      Record(t, WriteVal(i, val));
    }

    /** Inserts the pair: 1 when it was added, 0 when the key was there or the map full; None when
        the call has not returned within `rounds` rounds. */
    method Insert(t: nat, key: int, val: int, rounds: nat) returns (r: Option<int>)
      requires Valid() && key != 0 && !HeldBy(mem.lock, t)
      modifies this
      ensures Valid() && !HeldBy(mem.lock, t)
      ensures match r
        case Some(1) => MadeOnce(Elements, old(tr), tr, t, Adds(key, val))
        case Some(v) => v == 0 && Quiet(Elements, old(tr), tr, t) && PresentAnswer(old(tr), tr, key)
        case None => Quiet(Elements, old(tr), tr, t) && (rounds == 0 || SawLocked(old(tr), tr))
    {
      NothingYet(Elements, tr, t);
      var n := rounds;
      while n > 0
        invariant Valid() && !HeldBy(mem.lock, t) && Quiet(Elements, old(tr), tr, t)
        invariant n == rounds || SawLocked(old(tr), tr)
      {
        var outcome := TryInsert(t, key, val, old(tr));
        if outcome.Return? { return Some(outcome.value); }
        n := n - 1;
      }
      r := None;
    }

    /** What remove does at the slot that has the key: locks at the version read before the scan,
        reads the value and clears the key. */
    method ClearSlot(t: nat, key: int, i: nat, version: nat, ghost start: Run, ghost from: Run) returns (ok: bool, val: int)
      requires Valid() && key != 0 && !HeldBy(mem.lock, t) && Within(start, tr) && start.now.lock.version == version
      requires i < |mem.slots| && mem.slots[i].key == key && Quiet(Elements, from, tr, t)
      modifies this
      ensures Valid() && !HeldBy(mem.lock, t) && Within(old(tr), tr)
      ensures if ok then MadeOnce(Elements, from, tr, t, Removes(key, val)) else Quiet(Elements, from, tr, t) && SawLocked(start, tr)
    {
      ghost var r := tr;
      val := 0;
      ok := TryLockVersion(t, version);
      if !ok {
        WithinTransitive(start, r, tr);
        VersionMoves(start, start, tr);
      } else {
        UnchangedBetween(start, r, tr.before);
        ghost var tr1 := tr;
        Interfere(t);
        val := mem.slots[i].val;
        Interfere(t);
        ghost var tr2 := tr;
        StepKeeps(mem, t, ClearKey(i));
        Record(t, ClearKey(i));
        MakeStep(Elements, from, tr, t, Removes(key, val));
        ghost var tr3 := tr;
        Release(t);
        WithinFour(old(tr), tr1, tr2, tr3, tr);
      }
    }

    /** One round of remove. */
    method TryRemove(t: nat, key: int, ghost from: Run) returns (outcome: Outcome)
      requires Valid() && key != 0 && !HeldBy(mem.lock, t) && Quiet(Elements, from, tr, t)
      modifies this
      ensures Valid() && !HeldBy(mem.lock, t) && !outcome.Pending?
      ensures outcome.Retry? ==> Quiet(Elements, from, tr, t) && SawLocked(from, tr)
      ensures outcome.Return? ==>
        || MadeOnce(Elements, from, tr, t, Removes(key, outcome.value))
        || (outcome.value == 0 && Quiet(Elements, from, tr, t) && Saw(Elements, from, tr, IsAbsent(key)))
    {
      Interfere(t);
      var version := mem.lock.version;
      ghost var start := tr;
      ScanBegins(from, tr, key);
      var i := 0;
      while i < |mem.slots|
        invariant Valid() && Passed(start, tr, t) && 0 <= i <= |mem.slots| && Quiet(Elements, from, tr, t)
        invariant NotBefore(from, tr, key, i)
      {
        ghost var tr1 := tr;
        Interfere(t);
        PassedTransitive(start, tr1, tr, t);
        if mem.slots[i].key == key {
          var ok, val := ClearSlot(t, key, i, version, start, from);
          if !ok { LockedEarlier(from, start, tr); }
          return if ok then Return(val) else Retry;
        }
        ScanGoesOn(from, tr1, tr, key, i);
        i := i + 1;
      }
      ScanMisses(from, tr, key);
      outcome := Return(0);
    }

    /** Removes the key: its value, or 0 when it was absent; None when the call has not returned
        within `rounds` rounds. */
    method Remove(t: nat, key: int, rounds: nat) returns (r: Option<int>)
      requires Valid() && key != 0 && !HeldBy(mem.lock, t)
      modifies this
      ensures Valid() && !HeldBy(mem.lock, t)
      ensures match r
        case Some(v) =>
          || MadeOnce(Elements, old(tr), tr, t, Removes(key, v))
          || (v == 0 && Quiet(Elements, old(tr), tr, t) && Saw(Elements, old(tr), tr, IsAbsent(key)))
        case None => Quiet(Elements, old(tr), tr, t) && (rounds == 0 || SawLocked(old(tr), tr))
    {
      NothingYet(Elements, tr, t);
      var n := rounds;
      while n > 0
        invariant Valid() && !HeldBy(mem.lock, t) && Quiet(Elements, old(tr), tr, t)
        invariant n == rounds || SawLocked(old(tr), tr)
      {
        var outcome := TryRemove(t, key, old(tr));
        if outcome.Return? { return Some(outcome.value); }
        n := n - 1;
      }
      r := None;
    }
  }
}
