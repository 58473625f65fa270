/** The hash map after Java's ConcurrentHashMap: searches take no lock and may be on a table that
    has been replaced; updates lock the segment and replace it by one twice as large when it
    is full. The class is one segment number with all the segments it ever has. */
module JavaMap {
  import opened History
  import opened Calls
  import opened SetCalls
  import opened JavaMapModel
  import opened JavaRehash
  import opened JavaRehashMeaning
  import opened JavaMapSteps

  datatype Option<+T> = None | Some(value: T)

  type Run = Trace<Mem, Act>

  /** A run begins in any state that satisfies the invariant and goes on by enabled steps of any
      threads. */
  ghost function First(): Mem -> bool {
    h => Inv(h)
  }

  ghost function CanStep(): (Mem, nat, Act, Mem) -> bool {
    (h: Mem, t: nat, a: Act, h': Mem) => Inv(h) && Enabled(h, t, a) && h' == Do(h, t, a)
  }

  ghost predicate IsRun(tr: Run) {
    IsRunOf(First(), CanStep(), tr)
  }

  lemma StepBefore(tr: Run)
    requires IsRun(tr)
    ensures Inv(tr.now)
    ensures tr.Then? ==>
      && IsRun(tr.before) && Inv(tr.before.now) && Enabled(tr.before.now, tr.who, tr.act) && tr.now == Do(tr.before.now, tr.who, tr.act)
      && Steps(tr.before.now, tr.now)
  {
    LastStep(First(), CanStep(), tr);
    if tr.Then? {
      StepInv(tr.before.now, tr.who, tr.act);
      StepSteps(tr.before.now, tr.who, tr.act);
      RunPrefix(First(), CanStep(), tr.before, tr);
    }
  }

  ghost predicate Grown(h: Mem, h': Mem) {
    && |h.nodes| <= |h'.nodes| && |h.segs| <= |h'.segs| && h'.seed == h.seed
    && (forall r :: 0 <= r < |h.nodes| ==> h'.nodes[r].key == h.nodes[r].key && h'.nodes[r].val == h.nodes[r].val)
    && (forall s :: 0 <= s < |h.segs| ==> |h'.segs[s].table| == |h.segs[s].table|)
  }

  /** Safety over whole runs. */
  lemma {:induction false} RunGrows(m: Run, tr: Run)
    requires IsRun(tr) && Within(m, tr)
    ensures IsRun(m) && Inv(m.now) && Inv(tr.now) && Grown(m.now, tr.now)
    decreases tr
  {
    StepBefore(tr);
    if m != tr { RunGrows(m, tr.before); }
  }

  /** In every reachable state: who has the lock of a segment that is not retired has that of the
      published one, and an unlocked segment has room for one more node at most below the
      limit, its size being the number of its elements. */
  lemma OnlyPublishedIsLocked(tr: Run, s: nat)
    requires IsRun(tr) && s < |tr.now.segs|
    ensures tr.now.segs[s].lock != Retired <==> s == |tr.now.segs| - 1
    ensures tr.now.segs[s].lock == Free ==> tr.now.segs[s].size == |Elements(tr.now)| < tr.now.segs[s].limit
  {
    StepBefore(tr);
  }

  // ---------------------------------------------------------------- hindsight

  /** There was a moment from `from` on at which the node was in the published table. */
  ghost predicate SawLive(from: Run, tr: Run, p: Ref) {
    exists m :: Within(from, m) && Within(m, tr) && Live(m.now, p)
  }

  lemma {:induction false} Hindsight(from: Run, tr: Run, p: Ref) returns (m: Run)
    requires IsRun(tr) && Within(from, tr) && Live(from.now, p)
    ensures Within(from, m) && Within(m, tr) && Live(m.now, p)
    ensures In(m.now.nodes, p) && In(tr.now.nodes, p) && m.now.nodes[p].next == tr.now.nodes[p].next
    decreases tr
  {
    RunGrows(from, tr);
    LiveIsElement(from.now, p);
    StepBefore(tr);
    if from == tr || Live(tr.now, p) {
      m := tr;
    } else {
      m := Hindsight(from, tr.before, p);
    }
  }

  /** What a reader finds next was in the published table too. */
  lemma NextSawLive(from: Run, tr: Run, p: Ref)
    requires IsRun(tr) && SawLive(from, tr, p)
    ensures In(tr.now.nodes, p) && (tr.now.nodes[p].next != NULL ==> SawLive(from, tr, tr.now.nodes[p].next))
  {
    var f :| Within(from, f) && Within(f, tr) && Live(f.now, p);
    var m := Hindsight(f, tr, p);
    WithinTransitive(from, f, m);
    RunGrows(m, tr);
    LiveIsElement(m.now, p);
  }

  lemma {:induction false} TableHindsight(from: Run, tr: Run, s: nat) returns (m: Run)
    requires IsRun(tr) && Within(from, tr) && s == |from.now.segs| - 1
    ensures Within(from, m) && Within(m, tr) && s == |m.now.segs| - 1
    ensures s < |tr.now.segs| && m.now.segs[s].table == tr.now.segs[s].table
    decreases tr
  {
    RunGrows(from, tr);
    StepBefore(tr);
    if from == tr || s == |tr.now.segs| - 1 {
      m := tr;
    } else {
      RunGrows(from, tr.before);
      m := TableHindsight(from, tr.before, s);
    }
  }

  /** What a reader finds in a bucket was in the published table at some moment since it found
      the segment, even if the segment has been replaced meanwhile. */
  lemma BucketSawLive(from: Run, tr: Run, s: nat, b: nat)
    requires IsRun(tr) && Within(from, tr) && s == |from.now.segs| - 1 && b < |from.now.segs[s].table|
    ensures s < |tr.now.segs| && b < |tr.now.segs[s].table|
    ensures tr.now.segs[s].table[b] != NULL ==> SawLive(from, tr, tr.now.segs[s].table[b])
  {
    RunGrows(from, tr);
    var m := TableHindsight(from, tr, s);
    RunGrows(m, tr);
    if m.now.segs[s].table[b] != NULL { HeadIsLive(m.now, b); }
  }

  lemma LiveSaw(from: Run, tr: Run, p: Ref)
    requires IsRun(tr) && SawLive(from, tr, p)
    ensures In(tr.now.nodes, p) && Saw(Elements, from, tr, IsBound(tr.now.nodes[p].key, tr.now.nodes[p].val))
  {
    var m :| Within(from, m) && Within(m, tr) && Live(m.now, p);
    RunGrows(m, tr);
    LiveIsElement(m.now, p);
    assert IsBound(tr.now.nodes[p].key, tr.now.nodes[p].val)(Elements(m.now));
  }

  // ---------------------------------------------------------------- misses

  /** The reader at `p` has the key ahead of it, or there was a moment without the key. */
  ghost predicate Ahead(from: Run, tr: Run, p: Ref, key: int) {
    Saw(Elements, from, tr, IsAbsent(key)) || Leads(tr.now.nodes, p, key)
  }

  lemma SawGrows(from: Run, m: Run, tr: Run, wanted: Pairs -> bool)
    requires Saw(Elements, from, m, wanted) && Within(m, tr)
    ensures Saw(Elements, from, tr, wanted)
  {
    var i :| Within(from, i) && Within(i, m) && wanted(Elements(i.now));
    WithinTransitive(i, m, tr);
  }

  /** Whatever other threads do, that stays so while the reader waits. */
  lemma {:induction false} AheadStays(from: Run, m: Run, tr: Run, p: Ref, key: int)
    requires IsRun(tr) && Within(from, m) && Within(m, tr) && Ahead(from, m, p, key)
    ensures Ahead(from, tr, p, key)
    decreases tr
  {
    if m != tr {
      StepBefore(tr);
      AheadStays(from, m, tr.before, p, key);
      WithinTransitive(from, m, tr);
      if Saw(Elements, from, tr.before, IsAbsent(key)) {
        SawGrows(from, tr.before, tr, IsAbsent(key));
      } else {
        StepLeads(tr.before.now, tr.who, tr.act, p, key);
        AbsentNow(from, tr, key);
      }
    }
  }

  lemma AbsentNow(from: Run, tr: Run, key: int)
    requires Within(from, tr)
    ensures Lacks(Elements(tr.now), key) ==> Saw(Elements, from, tr, IsAbsent(key))
  {
    assert Within(tr, tr) && IsAbsent(key)(Elements(tr.now)) == Lacks(Elements(tr.now), key);
  }

  /** The same for a reader that knows the segment and has not read the bucket. */
  ghost predicate BucketAhead(from: Run, tr: Run, s: nat, b: nat, key: int) {
    && s < |tr.now.segs| && b < |tr.now.segs[s].table|
    && Ahead(from, tr, tr.now.segs[s].table[b], key)
  }

  lemma {:induction false} BucketAheadStays(from: Run, m: Run, tr: Run, s: nat, b: nat, key: int)
    requires IsRun(tr) && Within(from, m) && Within(m, tr) && BucketAhead(from, m, s, b, key)
    ensures BucketAhead(from, tr, s, b, key)
    decreases tr
  {
    if m != tr {
      StepBefore(tr);
      BucketAheadStays(from, m, tr.before, s, b, key);
      WithinTransitive(from, m, tr);
      if Saw(Elements, from, tr.before, IsAbsent(key)) {
        SawGrows(from, tr.before, tr, IsAbsent(key));
      } else {
        StepBucketLeads(tr.before.now, tr.who, tr.act, s, b, key);
        AbsentNow(from, tr, key);
      }
    }
  }

  lemma AheadAtFirst(from: Run, tr: Run, key: int)
    requires IsRun(tr) && Within(from, tr)
    ensures 0 < |tr.now.segs| && 0 < |Cur(tr.now).table|
    ensures var b := Bucket(key, tr.now.seed, |Cur(tr.now).table|);
      b < |Cur(tr.now).table| && BucketAhead(from, tr, |tr.now.segs| - 1, b, key)
  {
    StepBefore(tr);
    AbsentNow(from, tr, key);
    if !Lacks(Elements(tr.now), key) { PresentIsAhead(tr.now, key); }
  }

  /** One step of the reader, past a node that does not have the key. */
  lemma AheadOn(from: Run, tr: Run, p: Ref, key: int)
    requires Ahead(from, tr, p, key) && In(tr.now.nodes, p) && tr.now.nodes[p].key != key
    ensures Ahead(from, tr, tr.now.nodes[p].next, key)
  {
    if Leads(tr.now.nodes, p, key) { LeadsOn(tr.now.nodes, p, key); }
  }

  /** The end of a chain: there was a moment without the key. */
  lemma AheadOfNothing(from: Run, tr: Run, key: int)
    requires Ahead(from, tr, NULL, key)
    ensures Saw(Elements, from, tr, IsAbsent(key))
  {
    if Leads(tr.now.nodes, NULL, key) { LeadsFromNode(tr.now.nodes, NULL, key); }
  }

  // ---------------------------------------------------------------- the code

  /** The run went on from `tr0` to `tr` without thread `t`; what it has locked did not change. */
  ghost predicate Passed(tr0: Run, tr: Run, t: nat) {
    && Within(tr0, tr) && Grown(tr0.now, tr.now) && Calm(Elements, tr0, tr, t)
    && (Mine(tr0.now, t) ==> tr.now == tr0.now) && (!Mine(tr0.now, t) ==> !Mine(tr.now, t))
    && (Alone(tr0, tr, t) ==> tr == tr0)
  }

  lemma PassedTransitive(a: Run, b: Run, c: Run, t: nat)
    requires Passed(a, b, t) && Passed(b, c, t)
    ensures Passed(a, c, t)
  {
    WithinTransitive(a, b, c);
    CalmTransitive(Elements, a, b, c, t);
  }

  predicate BucketKnown(h: Mem, key: int) {
    0 < |h.segs| && 0 < |Cur(h).table| && Bucket(key, h.seed, |Cur(h).table|) < |Cur(h).chains|
  }

  /** The nodes of the bucket that the key belongs to. */
  function ChainOf(h: Mem, key: int): seq<Ref> {
    if BucketKnown(h, key) then Cur(h).chains[Bucket(key, h.seed, |Cur(h).table|)] else []
  }

  /** A walk along the bucket has come past its first `i` nodes. */
  ghost predicate Position(h: Mem, key: int, curr: Ref, i: int) {
    0 <= i <= |ChainOf(h, key)| && curr == Head(ChainOf(h, key), i)
  }

  lemma FirstPosition(h: Mem, key: int)
    requires Inv(h)
    ensures var b := Bucket(key, h.seed, |Cur(h).table|); b < |Cur(h).table| && Position(h, key, Cur(h).table[b], 0)
  {
    var b := Bucket(key, h.seed, |Cur(h).table|);
    assert BucketOk(h.nodes, Cur(h).table, Cur(h).chains, h.seed, b);
  }

  lemma NextPosition(h: Mem, key: int, curr: Ref, i: nat)
    requires Inv(h) && Position(h, key, curr, i) && curr != NULL
    ensures In(h.nodes, curr) && Position(h, key, h.nodes[curr].next, i + 1)
  {
    assert BucketOk(h.nodes, Cur(h).table, Cur(h).chains, h.seed, Bucket(key, h.seed, |Cur(h).table|));
    assert LinkOk(h.nodes, ChainOf(h, key), i);
  }

  ghost predicate WalkAnswer(from: Run, tr: Run, key: int, found: bool, val: int) {
    if found then Saw(Elements, from, tr, IsBound(key, val)) else val == 0 && Saw(Elements, from, tr, IsAbsent(key))
  }

  // ---------------------------------------------------------------- calls that nobody disturbs

  predicate Unlocked(h: Mem) {
    0 < |h.segs| && Cur(h).lock == Free
  }

  /** The lock of a segment that was the published one at a moment since is taken, or retired. */
  ghost predicate SawBusy(from: Run, tr: Run) {
    exists m :: Within(from, m) && Within(m, tr) && 0 < |m.now.segs| <= |tr.now.segs| && tr.now.segs[|m.now.segs| - 1].lock != Free
  }

  lemma BusyEarlier(from: Run, m: Run, tr: Run)
    requires Within(from, m) && SawBusy(m, tr)
    ensures SawBusy(from, tr)
  {
    var i :| Within(m, i) && Within(i, tr) && 0 < |i.now.segs| <= |tr.now.segs| && tr.now.segs[|i.now.segs| - 1].lock != Free;
    WithinTransitive(from, m, i);
  }

  lemma BusyNow(tr: Run)
    requires SawBusy(tr, tr)
    ensures !Unlocked(tr.now)
  {
    var m :| Within(tr, m) && Within(m, tr) && 0 < |m.now.segs| <= |tr.now.segs| && tr.now.segs[|m.now.segs| - 1].lock != Free;
    WithinAntisymmetric(m, tr);
  }

  /** A thread that is alone and has released its lock leaves none taken. */
  lemma {:induction false} AloneKeepsOut(m: Run, tr: Run, t: nat)
    requires IsRun(tr) && Within(m, tr) && Alone(m, tr, t) && (Unlocked(m.now) || Mine(m.now, t))
    ensures Unlocked(tr.now) || Mine(tr.now, t)
    decreases tr
  {
    if m != tr {
      StepBefore(tr);
      ForeignGrows(m, tr.before, t);
      AloneKeepsOut(m, tr.before, t);
    }
  }

  lemma AloneEndsUnlocked(m: Run, tr: Run, t: nat)
    requires IsRun(tr) && Within(m, tr) && !Mine(tr.now, t)
    ensures Alone(m, tr, t) && Unlocked(m.now) ==> Unlocked(tr.now)
  {
    if Alone(m, tr, t) && Unlocked(m.now) { AloneKeepsOut(m, tr, t); }
  }

  lemma BoundIsPresent(from: Run, tr: Run, key: int, val: int)
    requires Saw(Elements, from, tr, IsBound(key, val))
    ensures Saw(Elements, from, tr, IsPresent(key))
  {
    var m :| Within(from, m) && Within(m, tr) && IsBound(key, val)(Elements(m.now));
    assert IsPresent(key)(Elements(m.now));
  }

  lemma FoundIsPresent(from: Run, tr: Run, b: nat, i: nat, key: int)
    requires IsRun(tr) && Within(from, tr) && 0 < |tr.now.segs| && b < |Cur(tr.now).chains| && i < |Cur(tr.now).chains[b]|
    requires Pair(tr.now.nodes, Cur(tr.now).chains[b][i]).0 == key
    ensures Saw(Elements, from, tr, IsPresent(key))
  {
    assert Pair(tr.now.nodes, Cur(tr.now).chains[b][i]) in Elements(tr.now);
    assert IsPresent(key)(Elements(tr.now));
  }

  class Segments {
    const roFail: bool
    var mem: Mem
    ghost var tr: Run

    ghost predicate Valid()
      reads this
    {
      IsRun(tr) && tr.now == mem && Inv(mem)
    }

    constructor (capacity: nat, seed: nat, load: nat, roFail: bool)
      requires IsPow2(capacity) && 0 < load
      ensures Valid() && Elements(mem) == {} && this.roFail == roFail
    {
      this.roFail := roFail;
      mem := Init(capacity, seed, load);
      tr := Start(Init(capacity, seed, load));
      InitInv(capacity, seed, load);
    }

    /** One step of thread `t`. */
    method Record(t: nat, a: Act)
      requires Valid() && Enabled(mem, t, a)
      modifies this
      ensures Valid() && mem == Do(old(mem), t, a) && tr == Then(old(tr), t, a, mem) && Grown(old(mem), mem) && Within(old(tr), tr)
      ensures Silent(a) ==> Calm(Elements, old(tr), tr, t)
      ensures forall u: nat :: u != t ==> Passed(old(tr), tr, u)
    {
      ghost var tr' := Then(tr, t, a, Do(mem, t, a));
      StepInv(mem, t, a);
      StepSteps(mem, t, a);
      RunGoesOn(First(), CanStep(), tr, t, a, Do(tr.now, t, a));
      StepEffect(mem, t, a);
      if Silent(a) { CalmStep(Elements, tr, t, a, tr'.now, t); }
      forall u: nat | u != t ensures Passed(tr, tr', u) {
        CalmStep(Elements, tr, t, a, tr'.now, u);
        LockExcludes(mem, u, t, a);
      }
      mem := Do(mem, t, a);
      tr := tr';
    }

    /** The other threads run: any number of steps, each by any thread but `t`, each one the
        code enables. Every access to shared memory below comes after such a pause. */
    method Interfere(t: nat)
      requires Valid()
      modifies this
      ensures Valid() && Passed(old(tr), tr, t)
    {
      var n: nat := *;
      while n > 0
        invariant Valid() && Passed(old(tr), tr, t)
      {
        var u: nat, a: Act := *, *;
        if u != t && Enabled(mem, u, a) {
          ghost var tr1 := tr;
          Record(u, a);
          PassedTransitive(old(tr), tr1, tr, t);
        }
        n := n - 1;
      }
    }

    // -------------------------------------------------------------- searches

    /** Reads the segment and then the bucket of the key. */
    method ReadBucket(t: nat, key: int, ghost from: Run) returns (curr: Ref)
      requires Valid() && !Mine(mem, t) && Within(from, tr)
      modifies this
      ensures Valid() && Passed(old(tr), tr, t) && Within(from, tr)
      ensures Ahead(from, tr, curr, key) && (curr != NULL ==> SawLive(from, tr, curr))
      ensures Alone(old(tr), tr, t) ==> Position(old(mem), key, curr, 0)
    {
      Interfere(t);
      WithinTransitive(from, old(tr), tr);
      ghost var tr1 := tr;
      var s := |mem.segs| - 1;
      AheadAtFirst(from, tr, key);
      FirstPosition(mem, key);
      var b := Bucket(key, mem.seed, |mem.segs[s].table|);
      Interfere(t);
      PassedTransitive(old(tr), tr1, tr, t);
      WithinTransitive(from, tr1, tr);
      BucketAheadStays(from, tr1, tr, s, b, key);
      BucketSawLive(tr1, tr, s, b);
      curr := mem.segs[s].table[b];
      if curr != NULL {
        ghost var m :| Within(tr1, m) && Within(m, tr) && Live(m.now, curr);
        WithinTransitive(from, tr1, m);
      }
    }

    /** The walk of search and of chm_contains along a bucket, which takes no lock and may be on
        a table that has been replaced. `ended` is false if the walk has not come to an end
        within `steps` steps; if nobody disturbs it, it needs at most one more than the bucket has
        nodes. */
    method Walk(t: nat, key: int, steps: nat, ghost from: Run) returns (ended: bool, found: bool, val: int)
      requires Valid() && !Mine(mem, t) && Within(from, tr)
      modifies this
      ensures Valid() && Passed(old(tr), tr, t)
      ensures ended ==> WalkAnswer(from, tr, key, found, val)
      ensures !ended ==> steps <= |ChainOf(old(mem), key)| || !Alone(old(tr), tr, t)
    {
      var curr := ReadBucket(t, key, from);
      ended, found, val := false, false, 0;
      var n := steps;
      while n > 0 && !ended
        invariant Valid() && Passed(old(tr), tr, t) && Within(from, tr)
        invariant if ended then WalkAnswer(from, tr, key, found, val) else Ahead(from, tr, curr, key) && (curr != NULL ==> SawLive(from, tr, curr))
        invariant n <= steps && (Alone(old(tr), tr, t) && !ended ==> Position(old(mem), key, curr, steps - n))
      {
        ghost var tr1 := tr;
        ended, found, val, curr := LookAt(t, key, curr, from, steps - n);
        PassedTransitive(old(tr), tr1, tr, t);
        n := n - 1;
      }
    }

    /** The loop's body: the walk ends at NULL or at a node with the key. */
    method LookAt(t: nat, key: int, curr: Ref, ghost from: Run, ghost i: nat) returns (ended: bool, found: bool, val: int, next: Ref)
      requires Valid() && !Mine(mem, t) && Within(from, tr) && Ahead(from, tr, curr, key) && (curr != NULL ==> SawLive(from, tr, curr))
      modifies this
      ensures Valid() && Passed(old(tr), tr, t) && Within(from, tr)
      ensures if ended then WalkAnswer(from, tr, key, found, val) else Ahead(from, tr, next, key) && (next != NULL ==> SawLive(from, tr, next))
      ensures !ended && Alone(old(tr), tr, t) && Position(old(mem), key, curr, i) ==> Position(mem, key, next, i + 1)
    {
      if curr == NULL {
        AheadOfNothing(from, tr, key);
        return true, false, 0, curr;
      }
      LiveSaw(from, tr, curr);
      if mem.nodes[curr].key == key { return true, true, mem.nodes[curr].val, curr; }
      if Position(mem, key, curr, i) { NextPosition(mem, key, curr, i); }
      next := ReadNext(t, key, curr, from);
      ended, found, val := false, false, 0;
    }

    /** curr->next, of a node that does not have the key */
    method ReadNext(t: nat, key: int, curr: Ref, ghost from: Run) returns (next: Ref)
      requires Valid() && !Mine(mem, t) && Within(from, tr)
      requires Ahead(from, tr, curr, key) && SawLive(from, tr, curr) && In(mem.nodes, curr) && mem.nodes[curr].key != key
      modifies this
      ensures Valid() && Passed(old(tr), tr, t) && Within(from, tr)
      ensures Ahead(from, tr, next, key) && (next != NULL ==> SawLive(from, tr, next))
      ensures In(mem.nodes, curr) && next == mem.nodes[curr].next
    {
      Interfere(t);
      WithinTransitive(from, old(tr), tr);
      AheadStays(from, old(tr), tr, curr, key);
      ghost var m :| Within(from, m) && Within(m, old(tr)) && Live(m.now, curr);
      WithinTransitive(m, old(tr), tr);
      NextSawLive(from, tr, curr);
      AheadOn(from, tr, curr, key);
      next := mem.nodes[curr].next;
    }

    /** Looks a key up: the answer was right at some moment of the call. None when the walk has
        not come to its end within `steps` steps. */
    method Search(t: nat, key: int, steps: nat) returns (r: Option<int>)
      requires Valid() && !Mine(mem, t)
      modifies this
      ensures Valid() && Passed(old(tr), tr, t)
      ensures match r
        case Some(v) => Saw(Elements, old(tr), tr, IsBound(key, v)) || (v == 0 && Saw(Elements, old(tr), tr, IsAbsent(key)))
        case None => steps <= |ChainOf(old(mem), key)| || !Alone(old(tr), tr, t)
    {
      var ended, found, val := Walk(t, key, steps, tr);
      r := if ended then Some(val) else None;
    }

    // -------------------------------------------------------------- updates

    /** do seg = segments[i]; while (!TRYLOCK(seg->lock)): the lock won is always that of the
        published segment, because that of a replaced one is never released. False when at each of
        `tries` attempts the lock of what was the published segment was not free. */
    method LockSegment(t: nat, tries: nat) returns (ok: bool)
      requires Valid() && !Mine(mem, t)
      modifies this
      ensures Valid() && Within(old(tr), tr) && Calm(Elements, old(tr), tr, t)
      ensures if ok then Cur(mem).lock == Held(t) else Passed(old(tr), tr, t) && !Mine(mem, t) && (tries == 0 || SawBusy(old(tr), tr))
    {
      ok := false;
      var n := tries;
      while n > 0 && !ok
        invariant Valid() && Within(old(tr), tr) && Calm(Elements, old(tr), tr, t)
        invariant if ok then Cur(mem).lock == Held(t) else Passed(old(tr), tr, t) && !Mine(mem, t) && (n == tries || SawBusy(old(tr), tr))
      {
        ghost var tr1 := tr;
        ok := TrySegment(t);
        WithinTransitive(old(tr), tr1, tr);
        CalmTransitive(Elements, old(tr), tr1, tr, t);
        if !ok {
          PassedTransitive(old(tr), tr1, tr, t);
          BusyEarlier(old(tr), tr1, tr);
        }
        n := n - 1;
      }
    }

    /** One attempt: reads the segment and tries its lock. */
    method TrySegment(t: nat) returns (ok: bool)
      requires Valid() && !Mine(mem, t)
      modifies this
      ensures Valid() && Within(old(tr), tr) && Calm(Elements, old(tr), tr, t)
      ensures if ok then Cur(mem).lock == Held(t) else Passed(old(tr), tr, t) && !Mine(mem, t) && SawBusy(old(tr), tr)
    {
      Interfere(t);
      var s := |mem.segs| - 1;
      ghost var tr1 := tr;
      Interfere(t);
      PassedTransitive(old(tr), tr1, tr, t);
      ok := mem.segs[s].lock == Free;
      if ok {
        OnlyPublishedIsLocked(tr, s);
        ghost var tr2 := tr;
        Record(t, TryLock(s));
        WithinTransitive(old(tr), tr2, tr);
        CalmTransitive(Elements, old(tr), tr2, tr, t);
      }
    }

    method UnlockSegment(t: nat)
      requires Valid() && Cur(mem).lock == Held(t)
      modifies this
      ensures Valid() && !Mine(mem, t) && Within(old(tr), tr) && Calm(Elements, old(tr), tr, t)
    {
      Interfere(t);
      ghost var tr1 := tr;
      Record(t, Unlock);
      WithinTransitive(old(tr), tr1, tr);
      CalmTransitive(Elements, old(tr), tr1, tr, t);
    }

    /** A pause under the lock: nobody else can change anything. */
    method Pause(t: nat)
      requires Valid() && Cur(mem).lock == Held(t)
      modifies this
      ensures Valid() && mem == old(mem) && Within(old(tr), tr) && Calm(Elements, old(tr), tr, t)
    {
      Interfere(t);
    }

    /** The walk under the lock: the position of the key in its chain, or the last node. */
    method FindLocked(t: nat, key: int) returns (found: bool, curr: Ref, pred: Ref, i: nat)
      requires Valid() && Cur(mem).lock == Held(t)
      modifies this
      ensures Valid() && mem == old(mem) && Within(old(tr), tr) && Calm(Elements, old(tr), tr, t)
      ensures BucketKnown(mem, key)
      ensures var c := Cur(mem).chains[Bucket(key, mem.seed, |Cur(mem).table|)];
        && i <= |c| && pred == (if i == 0 then NULL else c[i - 1])
        && (if found then i < |c| && c[i] == curr && In(mem.nodes, curr) && mem.nodes[curr].key == key else i == |c| && Lacks(Elements(mem), key))
    {
      Pause(t);
      var b := Bucket(key, mem.seed, |Cur(mem).table|);
      ghost var c := Cur(mem).chains[b];
      assert BucketOk(mem.nodes, Cur(mem).table, Cur(mem).chains, mem.seed, b);
      curr, pred, i, found := Cur(mem).table[b], NULL, 0, false;
      while curr != NULL
        invariant Valid() && mem == old(mem) && Within(old(tr), tr) && Calm(Elements, old(tr), tr, t)
        invariant i <= |c| && curr == Head(c, i) && pred == (if i == 0 then NULL else c[i - 1])
        invariant forall j :: 0 <= j < i ==> Pair(mem.nodes, c[j]).0 != key
        decreases |c| - i
      {
        assert LinkOk(mem.nodes, c, i);
        if mem.nodes[curr].key == key { return true, curr, pred, i; }
        ghost var tr1 := tr;
        Pause(t);
        WithinTransitive(old(tr), tr1, tr);
        CalmTransitive(Elements, old(tr), tr1, tr, t);
        pred, curr, i := curr, mem.nodes[curr].next, i + 1;
      }
      EndOfChain(mem.nodes, c, Cur(mem).table[b], i);
      LacksIff(mem.nodes, Cur(mem).table, Cur(mem).chains, mem.seed, key);
    }

    /** pred->next = n or *bucket = n, then seg->size = sizepp. */
    method AppendNode(t: nat, key: int, val: int, pred: Ref, ghost from: Run)
      requires Valid() && Cur(mem).lock == Held(t) && Quiet(Elements, from, tr, t) && Lacks(Elements(mem), key)
      requires BucketKnown(mem, key) && Cur(mem).size + 1 < Cur(mem).limit
      requires pred == Last(Cur(mem).chains[Bucket(key, mem.seed, |Cur(mem).table|)])
      modifies this
      ensures Valid() && Cur(mem).lock == Held(t) && MadeOnce(Elements, from, tr, t, Adds(key, val))
    {
      Pause(t);
      var b, sizepp := Bucket(key, mem.seed, |Cur(mem).table|), Cur(mem).size + 1;
      StepEffect(mem, t, Append(b, pred, key, val));
      Record(t, Append(b, pred, key, val));
      MakeStep(Elements, from, tr, t, Adds(key, val));
      StoreSize(t, sizepp);
    }

    /** seg->size = n */
    method StoreSize(t: nat, n: int)
      requires Valid() && Cur(mem).lock == Owing(t, n)
      modifies this
      ensures Valid() && Cur(mem).lock == Held(t) && Calm(Elements, old(tr), tr, t)
    {
      Interfere(t);
      ghost var tr1 := tr;
      Record(t, SetSize(n));
      CalmTransitive(Elements, old(tr), tr1, tr, t);
    }

    /** chm_segment_rehash with the publication of the new segment, by which the old one is left
        locked for good. */
    method Grow(t: nat, key: int, val: int, ghost from: Run)
      requires Valid() && Cur(mem).lock == Held(t) && Quiet(Elements, from, tr, t) && Lacks(Elements(mem), key)
      requires Cur(mem).limit <= Cur(mem).size + 1
      modifies this
      ensures Valid() && !Mine(mem, t) && MadeOnce(Elements, from, tr, t, Adds(key, val))
      ensures |mem.segs| == |old(mem.segs)| + 1 && mem.segs[|old(mem.segs)| - 1] == Cur(old(mem)).(lock := Retired)
    {
      Pause(t);
      var job := Job(mem.nodes, Cur(mem).chains, mem.seed);
      var nodes, table := Rehash(job, Cur(mem).table, key, val);
      DoubledIsRight(job, Cur(mem).table, key, val);
      ListingIs(nodes, table[..], Doubled(job, key, val).chains, mem.seed);
      PublishSegment(t, nodes, table[..], Listing(nodes, table[..]), key, val, from);
    }

    /** chm->segments[seg_num] = seg_new */
    method PublishSegment(t: nat, nodes: Nodes, table: seq<Ref>, chains: seq<seq<Ref>>, key: int, val: int, ghost from: Run)
      requires Valid() && Cur(mem).lock == Held(t) && Quiet(Elements, from, tr, t) && Cur(mem).limit <= Cur(mem).size + 1
      requires Rehashed(Job(mem.nodes, Cur(mem).chains, mem.seed), nodes, table, chains, key, val)
      modifies this
      ensures Valid() && !Mine(mem, t) && MadeOnce(Elements, from, tr, t, Adds(key, val))
      ensures |mem.segs| == |old(mem.segs)| + 1 && mem.segs[|old(mem.segs)| - 1] == Cur(old(mem)).(lock := Retired)
    {
      Pause(t);
      StepEffect(mem, t, Publish(nodes, table, chains, key, val));
      Record(t, Publish(nodes, table, chains, key, val));
      MakeStep(Elements, from, tr, t, Adds(key, val));
    }

    /** Inserts the pair: 1 when it was added, 0 when the key was there; None when the call has
        not returned within `steps` steps and attempts. A call that begins when the segment is
        unlocked, that nobody disturbs and that may walk the bucket to its end returns, and leaves
        it unlocked. */
    method Insert(t: nat, key: int, val: int, steps: nat) returns (r: Option<int>)
      requires Valid() && !Mine(mem, t)
      modifies this
      ensures Valid() && !Mine(mem, t)
      ensures match r
        case Some(1) => MadeOnce(Elements, old(tr), tr, t, Adds(key, val))
        case Some(v) => v == 0 && Quiet(Elements, old(tr), tr, t) && Saw(Elements, old(tr), tr, IsPresent(key))
        case None => Quiet(Elements, old(tr), tr, t)
      ensures r.None? ==> steps <= |ChainOf(old(mem), key)| || !Unlocked(old(mem)) || !Alone(old(tr), tr, t)
      ensures r.Some? && Unlocked(old(mem)) && Alone(old(tr), tr, t) ==> Unlocked(mem)
    {
      assert Within(tr, tr);
      NothingYet(Elements, tr, t);
      if roFail {
        var ended, found, v := Walk(t, key, steps, tr);
        if !ended { return None; }
        if found {
          BoundIsPresent(old(tr), tr, key, v);
          AloneEndsUnlocked(old(tr), tr, t);
          return Some(0);
        }
      }
      var ok := LockSegment(t, steps);
      if !ok {
        if SawBusy(tr, tr) { BusyNow(tr); }
        return None;
      }
      r := InsertLocked(t, key, val, old(tr));
      MadeOnceSince(Elements, old(tr), tr, t, Adds(key, val));
      AloneEndsUnlocked(old(tr), tr, t);
    }

    method InsertLocked(t: nat, key: int, val: int, ghost from: Run) returns (r: Option<int>)
      requires Valid() && Cur(mem).lock == Held(t) && Quiet(Elements, from, tr, t)
      modifies this
      ensures Valid() && !Mine(mem, t) && (r == Some(0) || r == Some(1))
      ensures r == Some(1) ==> MadeOnce(Elements, from, tr, t, Adds(key, val))
      ensures r == Some(0) ==> Quiet(Elements, from, tr, t) && Saw(Elements, from, tr, IsPresent(key))
    {
      var found, curr, pred, i := FindLocked(t, key);
      if found {
        FoundIsPresent(from, tr, Bucket(key, mem.seed, |Cur(mem).table|), i, key);
        UnlockSegment(t);
        return Some(0);
      }
      if Cur(mem).size + 1 >= Cur(mem).limit {
        Grow(t, key, val, from);
      } else {
        AppendNode(t, key, val, pred, from);
        UnlockSegment(t);
      }
      r := Some(1);
    }

    /** Removes the key: its value, or 0 when it was absent; None when the call has not returned
        within `steps` steps and attempts. */
    method Remove(t: nat, key: int, steps: nat) returns (r: Option<int>)
      requires Valid() && !Mine(mem, t)
      modifies this
      ensures Valid() && !Mine(mem, t)
      ensures match r
        case Some(v) =>
          || MadeOnce(Elements, old(tr), tr, t, Removes(key, v))
          || (v == 0 && Quiet(Elements, old(tr), tr, t) && Saw(Elements, old(tr), tr, IsAbsent(key)))
        case None => Quiet(Elements, old(tr), tr, t)
      ensures r.None? ==> steps <= |ChainOf(old(mem), key)| || !Unlocked(old(mem)) || !Alone(old(tr), tr, t)
      ensures r.Some? && Unlocked(old(mem)) && Alone(old(tr), tr, t) ==> Unlocked(mem)
    {
      assert Within(tr, tr);
      NothingYet(Elements, tr, t);
      if roFail {
        var ended, found, v := Walk(t, key, steps, tr);
        if !ended { return None; }
        if !found {
          AloneEndsUnlocked(old(tr), tr, t);
          return Some(0);
        }
      }
      var ok := LockSegment(t, steps);
      if !ok {
        if SawBusy(tr, tr) { BusyNow(tr); }
        return None;
      }
      var val := RemoveLocked(t, key, old(tr));
      r := Some(val);
      MadeOnceSince(Elements, old(tr), tr, t, Removes(key, val));
      AloneEndsUnlocked(old(tr), tr, t);
    }

    method RemoveLocked(t: nat, key: int, ghost from: Run) returns (val: int)
      requires Valid() && Cur(mem).lock == Held(t) && Quiet(Elements, from, tr, t)
      modifies this
      ensures Valid() && !Mine(mem, t)
      ensures
        || MadeOnce(Elements, from, tr, t, Removes(key, val))
        || (val == 0 && Quiet(Elements, from, tr, t) && Saw(Elements, from, tr, IsAbsent(key)))
    {
      var found, curr, pred, i := FindLocked(t, key);
      if found {
        val := UnlinkNode(t, key, curr, pred, i, from);
      } else {
        AbsentNow(from, tr, key);
        val := 0;
      }
      UnlockSegment(t);
    }

    /** pred->next = curr->next or *bucket = curr->next, then seg->size-- and the value. */
    method UnlinkNode(t: nat, key: int, curr: Ref, pred: Ref, i: nat, ghost from: Run) returns (val: int)
      requires Valid() && Cur(mem).lock == Held(t) && Quiet(Elements, from, tr, t) && BucketKnown(mem, key)
      requires var c := Cur(mem).chains[Bucket(key, mem.seed, |Cur(mem).table|)];
        i < |c| && c[i] == curr && pred == (if i == 0 then NULL else c[i - 1]) && In(mem.nodes, curr) && mem.nodes[curr].key == key
      modifies this
      ensures Valid() && Cur(mem).lock == Held(t) && MadeOnce(Elements, from, tr, t, Removes(key, val))
    {
      Pause(t);
      var b, size := Bucket(key, mem.seed, |Cur(mem).table|), Cur(mem).size;
      val := mem.nodes[curr].val;
      StepEffect(mem, t, Unlink(b, i, pred, curr));
      Record(t, Unlink(b, i, pred, curr));
      MakeStep(Elements, from, tr, t, Removes(key, val));
      StoreSize(t, size - 1);
    }
  }
}
