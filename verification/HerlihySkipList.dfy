/** The lock-based skip list of Herlihy and others: searches take no lock; insert and remove
    lock the predecessors level by level, validate them and then link or unlink. */
module HerlihySkipList {
  import opened History
  import opened Calls
  import opened SetCalls
  import opened SkipModel
  import opened HerlihySteps
  import opened HerlihyKnowledge

  datatype Option<+T> = None | Some(value: T)

  class SkipList {
    var mem: Mem
    ghost var tr: Run

    ghost predicate Valid()
      reads this
    {
      IsRun(tr) && tr.now == mem && Inv(mem)
    }

    constructor (min: int, max: int, levelmax: nat)
      requires min < max && 1 <= levelmax
      ensures Valid() && Elements(mem) == {}
      ensures mem == Init(min, max, levelmax)
    {
      mem := Init(min, max, levelmax);
      tr := Start(Init(min, max, levelmax));
      InitInv(min, max, levelmax);
    }

    /** One step of thread `t`. */
    method Record(t: nat, a: Act)
      requires Valid() && Enabled(mem, t, a)
      modifies this
      ensures Valid() && mem == Do(old(mem), t, a) && tr == Then(old(tr), t, a, mem)
      ensures Steps(old(mem).nodes, mem.nodes)
      ensures Silent(a) ==> Calm(Elements, old(tr), tr, t)
      ensures forall u: nat :: u != t ==> Passed(old(tr), tr, u)
    {
      ghost var tr' := Then(tr, t, a, Do(mem, t, a));
      StepInv(mem, t, a);
      StepGrows(mem, t, a);
      RunGoesOn(First(), CanStep(), tr, t, a, tr'.now);
      StepEffect(mem, t, a);
      if Silent(a) { CalmStep(Elements, tr, t, a, tr'.now, t); }
      forall u: nat | u != t ensures Passed(tr, tr', u) {
        CalmStep(Elements, tr, t, a, tr'.now, u);
        StepKept(mem, t, a, u);
      }
      mem := Do(mem, t, a);
      tr := tr';
    }

    /** The other threads run: any number of steps, each by any thread but `t`, each one the
        code enables. Every access to shared memory below comes after such a pause. */
    method Interfere(t: nat)
      requires Valid()
      modifies this
      ensures Valid() && Passed(old(tr), tr, t)
    {
      var n: nat := *;
      PassedNothing(tr, t);
      while n > 0
        invariant Valid() && Passed(old(tr), tr, t)
      {
        var u: nat, a: Act := *, *;
        if u != t && Enabled(mem, u, a) {
          ghost var tr1 := tr;
          Record(u, a);
          PassedTransitive(old(tr), tr1, tr, t);
        }
        n := n - 1;
      }
    }

    // -------------------------------------------------------------- searches

    /** The inner loop of a descent: walks level `i` from `start` to the last node below the
        key, and returns that node and the next it read from it. */
    method Walk(t: nat, key: int, i: nat, start: Ref, ghost from: Run) returns (pred: Ref, curr: Ref)
      requires Valid() && SawAt(from, tr, i, start) && In(mem.nodes, start) && start != TAIL
      requires mem.nodes[start].key < key < mem.nodes[TAIL].key
      modifies this
      ensures Valid() && Passed(old(tr), tr, t) && FoundAt(from, tr, key, i, pred, curr)
      ensures pred == start || mem.nodes[start].key < mem.nodes[pred].key
    {
      Interfere(t);
      pred := start;
      curr := Next(mem.nodes, pred, i);
      TraversalStep(from, tr, i, pred);
      while key > mem.nodes[curr].key
        invariant Valid() && Passed(old(tr), tr, t)
        invariant In(mem.nodes, pred) && In(mem.nodes, curr) && In(mem.nodes, start) && pred != TAIL
        invariant SawStand(from, tr, i, pred, curr) && SawAt(from, tr, i, pred) && SawAt(from, tr, i, curr)
        invariant mem.nodes[pred].key < key < mem.nodes[TAIL].key && mem.nodes[pred].key < mem.nodes[curr].key
        invariant pred == start || mem.nodes[start].key < mem.nodes[pred].key
        decreases key - mem.nodes[pred].key
      {
        pred := curr;
        ghost var tr1 := tr;
        Interfere(t);
        PassedTransitive(old(tr), tr1, tr, t);
        curr := Next(mem.nodes, pred, i);
        TraversalStep(from, tr, i, pred);
      }
    }

    /** The search that takes no lock: goes down level by level and stops at the first node with
        the key. NULL if the key was absent at some moment of the search. */
    method LeftSearch(t: nat, key: int, ghost from: Run) returns (node: Ref, ghost level: nat)
      requires Valid() && Within(from, tr) && mem.nodes[HEAD].key < key < mem.nodes[TAIL].key
      modifies this
      ensures Valid() && Passed(old(tr), tr, t)
      ensures node != NULL ==> In(mem.nodes, node) && mem.nodes[node].key == key && SawAt(from, tr, level, node)
      ensures node == NULL ==> Saw(Elements, from, tr, IsAbsent(key))
    {
      PassedNothing(tr, t);
      var pred, curr, i := HEAD, NULL, Height(mem.nodes, HEAD) - 1;
      assert NodeOk(mem.nodes, HEAD) && At(mem.nodes, HEAD, i);
      while i >= 0
        invariant Valid() && Passed(old(tr), tr, t) && -1 <= i
        invariant In(mem.nodes, pred) && pred != TAIL && mem.nodes[pred].key < key < mem.nodes[TAIL].key
        invariant i >= 0 ==> SawAt(from, tr, i, pred)
        invariant i == -1 ==> FoundAt(from, tr, key, 0, pred, curr) && key != mem.nodes[curr].key
      {
        ghost var tr1 := tr;
        pred, curr := Walk(t, key, i, pred, from);
        PassedTransitive(old(tr), tr1, tr, t);
        if key == mem.nodes[curr].key { return curr, i; }
        if i > 0 { SawBelow(from, tr, i, i - 1, pred); }
        i := i - 1;
      }
      GapSaw(from, tr, pred, curr, key);
      node, level := NULL, 0;
    }

    /** Looks a key up: the answer was right at some moment of the call. */
    method Search(t: nat, key: int) returns (result: int)
      requires Valid() && mem.nodes[HEAD].key < key < mem.nodes[TAIL].key
      modifies this
      ensures Valid() && Passed(old(tr), tr, t)
      ensures Saw(Elements, old(tr), tr, IsBound(key, result)) || (result == 0 && Saw(Elements, old(tr), tr, IsAbsent(key)))
    {
      var node; ghost var level;
      node, level := LeftSearch(t, key, old(tr));
      result := 0;
      if node != NULL {
        ghost var tr1 := tr;
        var live := IsLive(t, key, node, level, old(tr));
        PassedTransitive(old(tr), tr1, tr, t);
        if live { result := mem.nodes[node].val; }
      }
    }

    /** !node->marked && node->fullylinked, read in this order. */
    method IsLive(t: nat, key: int, node: Ref, ghost level: nat, ghost from: Run) returns (live: bool)
      requires Valid() && In(mem.nodes, node) && mem.nodes[node].key == key && Within(from, tr) && SawAt(from, tr, level, node)
      requires mem.nodes[HEAD].key < key < mem.nodes[TAIL].key
      modifies this
      ensures Valid() && Passed(old(tr), tr, t) && In(mem.nodes, node)
      ensures if live then Saw(Elements, from, tr, IsBound(key, mem.nodes[node].val)) else Saw(Elements, from, tr, IsAbsent(key))
    {
      Interfere(t);
      ghost var tr1 := tr;
      if mem.nodes[node].marked {
        MarkedSaw(from, tr, level, node);
        return false;
      }
      Interfere(t);
      PassedTransitive(old(tr), tr1, tr, t);
      live := mem.nodes[node].fully;
      if live {
        FullySaw(tr1, tr, node);
        SawEarlier(from, tr1, tr, IsBound(key, mem.nodes[node].val));
      } else {
        NotFullyLacks(from, tr, node);
      }
    }

    /** The search of the updates: for every level the last node below the key and its next, and
        the highest level on which the key was met. Starts anew when a predecessor is found
        marked; false when the call has not returned within `restarts` rounds. */
    method OptimisticSearch(t: nat, key: int, preds: array<Ref>, succs: array<Ref>, restarts: nat, ghost from: Run)
      returns (done: bool, found: int)
      requires Valid() && Within(from, tr) && mem.nodes[HEAD].key < key < mem.nodes[TAIL].key
      requires preds.Length == succs.Length == Height(mem.nodes, HEAD) && preds != succs
      modifies this, preds, succs
      ensures Valid() && Passed(old(tr), tr, t)
      ensures if done then Searched(from, tr, key, found, preds[..], succs[..]) else restarts == 0 || MetMarked(from, tr)
    {
      PassedNothing(tr, t);
      var n := restarts;
      while n > 0
        invariant Valid() && Passed(old(tr), tr, t) && mem.nodes[HEAD].key < key < mem.nodes[TAIL].key
        invariant n == restarts || MetMarked(from, tr)
        invariant preds.Length == Height(mem.nodes, HEAD)
      {
        ghost var tr1 := tr;
        done, found := Descend(t, key, preds, succs, from);
        PassedTransitive(old(tr), tr1, tr, t);
        if done { return; }
        n := n - 1;
      }
      done, found := false, -1;
    }

    /** One descent of optimistic_search; false when it has to start anew, which is when it meets a
        marked predecessor. */
    method Descend(t: nat, key: int, preds: array<Ref>, succs: array<Ref>, ghost from: Run) returns (done: bool, found: int)
      requires Valid() && Within(from, tr) && mem.nodes[HEAD].key < key < mem.nodes[TAIL].key
      requires preds.Length == succs.Length == Height(mem.nodes, HEAD) && preds != succs
      modifies this, preds, succs
      ensures Valid() && Passed(old(tr), tr, t)
      ensures if done then Searched(from, tr, key, found, preds[..], succs[..]) else MetMarked(from, tr)
    {
      PassedNothing(tr, t);
      found := -1;
      var pred, i := HEAD, preds.Length - 1;
      assert NodeOk(mem.nodes, HEAD) && At(mem.nodes, HEAD, i);
      while i >= 0
        invariant Valid() && Passed(old(tr), tr, t) && -1 <= i < preds.Length
        invariant In(mem.nodes, pred) && pred != TAIL && mem.nodes[pred].key < key < mem.nodes[TAIL].key
        invariant i >= 0 ==> SawAt(from, tr, i, pred)
        invariant i + 1 < preds.Length ==> pred == preds[i + 1]
        invariant SearchedFrom(from, tr, key, found, preds[..], succs[..], i + 1)
      {
        ghost var tr1 := tr;
        var restart;
        restart, pred, found := DescendLevel(t, key, i, pred, found, preds, succs, from);
        PassedTransitive(old(tr), tr1, tr, t);
        if restart { return false, found; }
        i := i - 1;
      }
      done := true;
    }

    /** The body of the loop over the levels. */
    method DescendLevel(t: nat, key: int, i: nat, start: Ref, found0: int, preds: array<Ref>, succs: array<Ref>, ghost from: Run)
      returns (restart: bool, pred: Ref, found: int)
      requires Valid() && SawAt(from, tr, i, start) && In(mem.nodes, start) && start != TAIL
      requires mem.nodes[start].key < key < mem.nodes[TAIL].key && preds != succs
      requires SearchedFrom(from, tr, key, found0, preds[..], succs[..], i + 1)
      requires i + 1 < preds.Length ==> start == preds[i + 1]
      modifies this, preds, succs
      ensures Valid() && Passed(old(tr), tr, t)
      ensures restart ==> MetMarked(from, tr)
      ensures !restart ==>
        && SearchedFrom(from, tr, key, found, preds[..], succs[..], i) && pred == preds[i]
        && (i > 0 ==> SawAt(from, tr, i - 1, pred)) && In(mem.nodes, pred) && pred != TAIL && mem.nodes[pred].key < key
    {
      ghost var ps, ss := preds[..], succs[..];
      var curr;
      pred, curr := Walk(t, key, i, start, from);
      ghost var tr1 := tr;
      Interfere(t);
      PassedTransitive(old(tr), tr1, tr, t);
      FoundStays(from, tr1, tr, t, key, i, pred, curr);
      preds[i] := pred;
      restart, found := mem.nodes[pred].marked, found0;
      if !restart {
        succs[i] := curr;
        if found == -1 && key == mem.nodes[curr].key { found := i; }
        SearchedStays(from, old(tr), tr, t, key, found0, ps, ss, i + 1);
        SearchedMore(from, tr, key, found0, ps, ss, i, pred, curr);
        assert preds[..] == ps[i := pred] && succs[..] == ss[i := curr];
        if i > 0 { SawBelow(from, tr, i, i - 1, pred); }
      }
    }

    // -------------------------------------------------------------- locks

    /** LOCK(n): spins until the lock is free; false when another thread held it at each of `spins`
        attempts. */
    method Acquire(t: nat, n: Ref, spins: nat, ghost s: set<Ref>) returns (ok: bool)
      requires Valid() && Owns(mem, t, s) && IsBelow(mem.nodes, n, s)
      modifies this
      ensures Valid() && Worked(old(tr), tr, t, s)
      ensures if ok then Owns(mem, t, s + {n}) else spins == 0 || Taken(mem, t, n)
    {
      Interfere(t);
      PassedWorked(old(tr), tr, t, s);
      ok := false;
      ghost var tr1 := tr;
      StartWaiting(t, n, s);
      WorkedTransitive(old(tr), tr1, tr, t, s);
      var k := spins;
      while k > 0
        invariant Valid() && Worked(old(tr), tr, t, s) && Waiting(mem, t, n, s) && (k == spins || Taken(mem, t, n))
      {
        ghost var tr2 := tr;
        ok := TryLock(t, n, s);
        WorkedTransitive(old(tr), tr2, tr, t, s);
        if ok { return; }
        k := k - 1;
      }
    }

    method StartWaiting(t: nat, n: Ref, ghost s: set<Ref>)
      requires Valid() && Owns(mem, t, s) && IsBelow(mem.nodes, n, s)
      modifies this
      ensures Valid() && Worked(old(tr), tr, t, s) && Waiting(mem, t, n, s)
    {
      forall r | 0 <= r < |mem.nodes| && Holds(mem, r, t) ensures mem.nodes[n].key < mem.nodes[r].key {}
      Record(t, Want(n));
      forall r ensures Holds(mem, r, t) <==> r in s {
        assert Holds(old(mem), r, t) <==> r in s;
      }
    }

    method TryLock(t: nat, n: Ref, ghost s: set<Ref>) returns (ok: bool)
      requires Valid() && Waiting(mem, t, n, s)
      modifies this
      ensures Valid() && Worked(old(tr), tr, t, s)
      ensures if ok then Owns(mem, t, s + {n}) else Waiting(mem, t, n, s) && Taken(mem, t, n)
    {
      Interfere(t);
      WaitingStays(old(tr), tr, t, n, s);
      ok := mem.nodes[n].lock == Free;
      if ok {
        ghost var tr1 := tr;
        LockSettles(mem, t, n);
        Record(t, Lock(n));
        forall r ensures Holds(mem, r, t) <==> r in s + {n} {
          assert Holds(tr1.now, r, t) <==> r in s;
        }
        assert Worked(tr1, tr, t, s);
        WorkedTransitive(old(tr), tr1, tr, t, s);
      } else {
        assert WaitsBelow(mem, t, n);
      }
    }

    /** UNLOCK(n), never of a marked node that is still on some level. */
    method Release(t: nat, n: Ref, ghost s: set<Ref>)
      requires Valid() && Owns(mem, t, s) && n in s && n !in Leaving(mem, t)
      modifies this
      ensures Valid() && Worked(old(tr), tr, t, s) && Owns(mem, t, s - {n})
    {
      Interfere(t);
      PassedWorked(old(tr), tr, t, s);
      ghost var tr1 := tr;
      assert Holds(mem, n, t);
      Record(t, Unlock(n));
      forall r ensures Holds(mem, r, t) <==> r in s - {n} {
        assert Holds(tr1.now, r, t) <==> r in s;
      }
      forall r | r in s ensures Frozen(tr1.now.nodes, tr.now.nodes, r) {
        assert Holds(tr1.now, r, t);
      }
      WorkedTransitive(old(tr), tr1, tr, t, s);
    }

    /** Locks the predecessors level by level, each node once, and checks on every level that the
        predecessor is not marked and still points to the successor; insert also checks that
        the successor is not marked. Stops at the first level that fails. `ok` is false when a
        lock was not acquired within `spins` attempts. */
    method LockAndValidate(t: nat, toplevel: nat, ps: seq<Ref>, ss: seq<Ref>, inserting: bool, spins: nat, ghost base: set<Ref>)
      returns (ok: bool, valid: bool, highest: int)
      requires Valid() && Owns(mem, t, base) && Lockable(mem.nodes, ps, base) && toplevel <= |ps| == |ss|
      requires forall i :: 0 <= i < |ss| ==> In(mem.nodes, ss[i])
      modifies this
      ensures Valid() && Worked(old(tr), tr, t, base) && -1 <= highest < |ps|
      ensures if ok then Owns(mem, t, base + LockedSet(ps, highest)) else spins == 0 || Blocked(mem, t)
      ensures ok && valid ==> ValidBelow(mem.nodes, ps, ss, toplevel) && LockedSet(ps, highest) == LockedSet(ps, toplevel - 1)
      ensures ok && !valid ==> Refuted(mem.nodes, ps, ss, toplevel, inserting)
      ensures ok && valid && inserting ==> UnmarkedBelow(old(tr), tr, ss, toplevel)
    {
      var i, prev := 0, NULL;
      ok, valid, highest := true, true, -1;
      assert base + LockedSet(ps, -1) == base && Within(tr, tr);
      PassedNothing(tr, t);
      PassedWorked(tr, tr, t, base);
      while valid && i < toplevel
        invariant Valid() && Worked(old(tr), tr, t, base) && 0 <= i <= toplevel && LockedUpTo(ps, i, highest, prev)
        invariant Owns(mem, t, base + LockedSet(ps, highest))
        invariant if valid then ValidBelow(mem.nodes, ps, ss, i) else Refuted(mem.nodes, ps, ss, toplevel, inserting)
        invariant valid && inserting ==> UnmarkedBelow(old(tr), tr, ss, i)
        decreases toplevel - i
      {
        ghost var tr1 := tr;
        LockableStays(old(mem).nodes, mem.nodes, ps, base);
        ok, valid, highest, prev := LockLevel(t, i, ps, ss, highest, prev, inserting, spins, base);
        WorkedTransitive(old(tr), tr1, tr, t, base);
        if !ok { return; }
        if valid && inserting { UnmarkedMore(old(tr), tr1, tr, t, ss, i); }
        i := i + 1;
      }
      LockedSetAll(ps, i, highest, prev);
    }

    /** The check on one level; the fields are read one after the other. */
    method Check(t: nat, i: nat, p: Ref, s: Ref, inserting: bool, ghost mine: set<Ref>) returns (valid: bool)
      requires Valid() && Owns(mem, t, mine) && p in mine && In(mem.nodes, s)
      modifies this
      ensures Valid() && Worked(old(tr), tr, t, mine) && Owns(mem, t, mine)
      ensures if valid then Validated(mem.nodes, p, s, i) else RefutedAt(mem.nodes, p, s, i, inserting)
      ensures valid && inserting ==> SawUnmarked(old(tr), tr, s)
    {
      assert Within(tr, tr);
      assert Holds(mem, p, t);
      Interfere(t);
      PassedWorked(old(tr), tr, t, mine);
      if mem.nodes[p].marked { return false; }
      ghost var tr1 := tr;
      Interfere(t);
      PassedWorked(tr1, tr, t, mine);
      WorkedTransitive(old(tr), tr1, tr, t, mine);
      if inserting && mem.nodes[s].marked { return false; }
      ghost var tr2 := tr;
      assert inserting ==> Within(old(tr), tr2) && !tr2.now.nodes[s].marked;
      Interfere(t);
      PassedWorked(tr2, tr, t, mine);
      WorkedTransitive(old(tr), tr2, tr, t, mine);
      valid := Next(mem.nodes, p, i) == s;
    }

    /** The body of that loop. */
    method LockLevel(t: nat, i: nat, ps: seq<Ref>, ss: seq<Ref>, highest0: int, prev0: Ref, inserting: bool, spins: nat, ghost base: set<Ref>)
      returns (ok: bool, valid: bool, highest: int, prev: Ref)
      requires Valid() && Lockable(mem.nodes, ps, base) && i < |ps| == |ss|
      requires LockedUpTo(ps, i, highest0, prev0) && Owns(mem, t, base + LockedSet(ps, highest0)) && ValidBelow(mem.nodes, ps, ss, i)
      requires In(mem.nodes, ss[i])
      modifies this
      ensures Valid() && Worked(old(tr), tr, t, base) && -1 <= highest < |ps|
      ensures ok ==> LockedUpTo(ps, i + 1, highest, prev) && Owns(mem, t, base + LockedSet(ps, highest))
      ensures ok ==> if valid then ValidBelow(mem.nodes, ps, ss, i + 1) else RefutedAt(mem.nodes, ps[i], ss[i], i, inserting)
      ensures ok && valid && inserting ==> SawUnmarked(old(tr), tr, ss[i])
      ensures !ok ==> spins == 0 || Blocked(mem, t)
    {
      assert Within(tr, tr);
      valid := false;
      ok, highest, prev := LockPred(t, i, ps, ss, highest0, prev0, spins, base);
      if !ok { return; }
      ghost var mine := base + LockedSet(ps, highest);
      ghost var tr1 := tr;
      assert ps[i] in mine by { assert ps[i] == ps[highest]; }
      valid := Check(t, i, ps[i], ss[i], inserting, mine);
      WorkedTransitive(old(tr), tr1, tr, t, base);
      if valid && inserting { UnmarkedEarlier(old(tr), tr1, tr, ss[i]); }
      if valid {
        forall j | 0 <= j < i + 1 ensures Validated(mem.nodes, ps[j], ss[j], j) {
          if j < i { assert Validated(tr1.now.nodes, ps[j], ss[j], j); }
        }
      }
    }

    method LockPred(t: nat, i: nat, ps: seq<Ref>, ghost ss: seq<Ref>, highest0: int, prev0: Ref, spins: nat, ghost base: set<Ref>)
      returns (ok: bool, highest: int, prev: Ref)
      requires Valid() && Lockable(mem.nodes, ps, base) && i < |ps| == |ss|
      requires LockedUpTo(ps, i, highest0, prev0) && Owns(mem, t, base + LockedSet(ps, highest0)) && ValidBelow(mem.nodes, ps, ss, i)
      modifies this
      ensures Valid() && Worked(old(tr), tr, t, base) && -1 <= highest < |ps|
      ensures ok ==> LockedUpTo(ps, i + 1, highest, prev) && Owns(mem, t, base + LockedSet(ps, highest)) && ValidBelow(mem.nodes, ps, ss, i)
      ensures !ok ==> spins == 0 || Blocked(mem, t)
    {
      ghost var mine := base + LockedSet(ps, highest0);
      ok, highest, prev := true, highest0, prev0;
      PassedNothing(tr, t);
      PassedWorked(tr, tr, t, mine);
      assert IsBelow(mem.nodes, ps[i], base);
      if ps[i] != prev {
        NewPredIsBelow(mem.nodes, ps, i, highest0, prev0);
        ok := Acquire(t, ps[i], spins, mine);
        ValidStays(old(tr), tr, t, ps, ss, i, highest0, prev0, mine);
        highest, prev := i, ps[i];
        assert base + LockedSet(ps, i) == mine + {ps[i]};
      }
    }

    /** Releases the predecessors locked, each once: afterwards the thread holds just `base`. */
    method UnlockLevels(t: nat, ps: seq<Ref>, highest: int, ghost base: set<Ref>)
      requires Valid() && Lockable(mem.nodes, ps, base) && -1 <= highest < |ps|
      requires Owns(mem, t, base + LockedSet(ps, highest)) && LockedSet(ps, highest) !! Leaving(mem, t)
      modifies this
      ensures Valid() && Worked(old(tr), tr, t, base) && Owns(mem, t, base)
    {
      var last, i := NULL, 0;
      PassedNothing(tr, t);
      PassedWorked(tr, tr, t, base + LockedSet(ps, highest));
      forall j | 0 <= j < |ps| ensures IsBelow(mem.nodes, ps[j], base) {}
      assert Remaining(ps, 0, highest, NULL) == LockedSet(ps, highest);
      while i <= highest
        invariant Valid() && Worked(old(tr), tr, t, base) && 0 <= i <= highest + 1
        invariant (i == 0 ==> last == NULL) && (i > 0 ==> last == ps[i - 1])
        invariant Owns(mem, t, base + Remaining(ps, i, highest, last))
      {
        ghost var tr1, mine := tr, Remaining(ps, i, highest, last);
        ReleasedOnce(old(mem).nodes, ps, i, highest, last);
        assert ps[i] !in base by { assert IsBelow(old(mem).nodes, ps[i], base); }
        if last != ps[i] {
          Release(t, ps[i], base + mine);
          WorkedTransitive(old(tr), tr1, tr, t, base);
        }
        assert base + mine - {ps[i]} == base + Remaining(ps, i + 1, highest, ps[i]);
        last := ps[i];
        i := i + 1;
      }
      assert Remaining(ps, i, highest, last) == {};
      assert base + {} == base;
    }

    // -------------------------------------------------------------- linking

    /** preds[0]->next[0] = new_node, with all its next pointers set. */
    method EnterNode(t: nat, key: int, val: int, ps: seq<Ref>, ss: seq<Ref>, ghost mine: set<Ref>) returns (n: Ref)
      requires Valid() && Owns(mem, t, mine) && 1 <= |ss| <= Height(mem.nodes, HEAD)
      requires ReadyFrom(mem, t, key, ps, ss, 0)
      modifies this
      ensures Valid() && Grown(old(mem).nodes, mem.nodes) && Calm(Elements, old(tr), tr, t) && Owns(mem, t, mine)
      ensures ReadyFrom(mem, t, key, ps, ss, 1) && NewNode(mem, t, key, val, ss, n, 1)
      ensures Leaving(mem, t) <= Leaving(old(mem), t) && Unfinished(mem, t) <= Unfinished(old(mem), t) + {n}
    {
      Interfere(t);
      PassedWorked(old(tr), tr, t, mine);
      ReadyStays(old(mem), mem, t, key, ps, ss, 0);
      ghost var tr1 := tr;
      n := |mem.nodes|;
      assert ReadyAt(mem, t, key, ps[0], ss[0], 0);
      Record(t, Enter(ps[0], key, val, ss));
      EnterKeeps(tr1.now, mem, t, key, val, ps, ss, mine);
      GrownTransitive(old(mem).nodes, tr1.now.nodes, mem.nodes);
      CalmTransitive(Elements, old(tr), tr1, tr, t);
    }

    /** preds[i]->next[i] = new_node on a level above the lowest. */
    method LinkLevel(t: nat, key: int, val: int, i: nat, n: Ref, ps: seq<Ref>, ss: seq<Ref>, ghost mine: set<Ref>)
      requires Valid() && Owns(mem, t, mine) && 1 <= i < |ss|
      requires ReadyFrom(mem, t, key, ps, ss, i) && NewNode(mem, t, key, val, ss, n, i)
      modifies this
      ensures Valid() && Went(old(tr), tr, t) && Owns(mem, t, mine)
      ensures ReadyFrom(mem, t, key, ps, ss, i + 1) && NewNode(mem, t, key, val, ss, n, i + 1)
    {
      Interfere(t);
      PassedWorked(old(tr), tr, t, mine);
      ReadyStays(old(mem), mem, t, key, ps, ss, i);
      ghost var tr1 := tr;
      assert ReadyAt(mem, t, key, ps[i], ss[i], i);
      Record(t, LinkUp(ps[i], n, i));
      LinkKeeps(tr1.now, mem, t, key, val, i, n, ps, ss, mine);
      WentTransitive(old(tr), tr1, tr, t);
    }

    /** Links the new node in level by level from the bottom, then sets fullylinked: this is the
        moment of the insertion. */
    method LinkAll(t: nat, key: int, val: int, ps: seq<Ref>, ss: seq<Ref>, ghost mine: set<Ref>, ghost from: Run)
      requires Valid() && Owns(mem, t, mine) && 1 <= |ss| <= Height(mem.nodes, HEAD)
      requires ReadyFrom(mem, t, key, ps, ss, 0) && Quiet(Elements, from, tr, t)
      modifies this
      ensures Valid() && Owns(mem, t, mine) && Grown(old(mem).nodes, mem.nodes) && Settles(old(mem), mem, t)
      ensures Foreign(old(tr), t) <= Foreign(tr, t)
      ensures MadeOnce(Elements, from, tr, t, Adds(key, val)) && HasTower(mem.nodes, key, val, |ss|)
    {
      var n := EnterNode(t, key, val, ps, ss, mine);
      ghost var tr0 := tr;
      PassedNothing(tr, t);
      PassedWorked(tr, tr, t, mine);
      var i := 1;
      while i < |ss|
        invariant Valid() && Went(tr0, tr, t) && Owns(mem, t, mine) && 1 <= i <= |ss|
        invariant ReadyFrom(mem, t, key, ps, ss, i) && NewNode(mem, t, key, val, ss, n, i)
      {
        ghost var tr1 := tr;
        LinkLevel(t, key, val, i, n, ps, ss, mine);
        WentTransitive(tr0, tr1, tr, t);
        i := i + 1;
      }
      ghost var tr2 := tr;
      FinishNode(t, key, val, n, ss, mine, from);
      GrownTransitive(tr0.now.nodes, tr2.now.nodes, mem.nodes);
      GrownTransitive(old(mem).nodes, tr0.now.nodes, mem.nodes);
    }

    method FinishNode(t: nat, key: int, val: int, n: Ref, ghost ss: seq<Ref>, ghost mine: set<Ref>, ghost from: Run)
      requires Valid() && Owns(mem, t, mine) && NewNode(mem, t, key, val, ss, n, |ss|) && Quiet(Elements, from, tr, t)
      modifies this
      ensures Valid() && Owns(mem, t, mine) && Grown(old(mem).nodes, mem.nodes)
      ensures Leaving(mem, t) <= Leaving(old(mem), t) && Unfinished(mem, t) <= Unfinished(old(mem), t) - {n}
      ensures Foreign(old(tr), t) <= Foreign(tr, t)
      ensures MadeOnce(Elements, from, tr, t, Adds(key, val)) && HasTower(mem.nodes, key, val, |ss|)
    {
      Interfere(t);
      PassedWorked(old(tr), tr, t, mine);
      ghost var tr1 := tr;
      StepEffect(mem, t, Finish(n));
      Record(t, Finish(n));
      forall r ensures Holds(mem, r, t) <==> r in mine { assert Holds(tr1.now, r, t) <==> r in mine; }
      MakeStep(Elements, from, tr, t, Adds(key, val));
      assert Height(mem.nodes, n) == |ss|;
      GrownTransitive(old(mem).nodes, tr1.now.nodes, mem.nodes);
    }

    /** What insert does with a node that has the key: waits until it is fully linked, unless it
        is marked. */
    method AwaitNode(t: nat, key: int, node: Ref, spins: nat, ghost from: Run) returns (outcome: Outcome)
      requires Valid() && Within(from, tr) && In(mem.nodes, node) && mem.nodes[node].key == key
      requires mem.nodes[HEAD].key < key < mem.nodes[TAIL].key
      modifies this
      ensures Valid() && Passed(old(tr), tr, t)
      ensures match outcome
        case Return(v) => v == 0 && Saw(Elements, from, tr, IsPresent(key))
        case Retry => mem.nodes[node].marked
        case Pending => spins == 0 || !mem.nodes[node].fully
    {
      Interfere(t);
      if mem.nodes[node].marked { return Retry; }
      ghost var tr1 := tr;
      PassedNothing(tr, t);
      var n := spins;
      while n > 0
        invariant Valid() && Passed(tr1, tr, t) && Passed(old(tr), tr, t) && (n == spins || !mem.nodes[node].fully)
      {
        ghost var tr2 := tr;
        Interfere(t);
        PassedTransitive(tr1, tr2, tr, t);
        PassedTransitive(old(tr), tr2, tr, t);
        if mem.nodes[node].fully {
          FullySaw(tr1, tr, node);
          BoundIsPresent(from, tr1, tr, key, mem.nodes[node].val);
          return Return(0);
        }
        n := n - 1;
      }
      outcome := Pending;
    }

    /** One round of insert's loop. A round that nobody disturbs and that begins when all is quiet
        returns. */
    method TryInsert(t: nat, key: int, val: int, toplevel: nat, preds: array<Ref>, succs: array<Ref>, fuel: nat, ghost from: Run)
      returns (outcome: Outcome)
      requires Valid() && Owns(mem, t, {}) && Quiet(Elements, from, tr, t) && mem.nodes[HEAD].key < key < mem.nodes[TAIL].key
      requires 1 <= toplevel <= preds.Length == succs.Length == Height(mem.nodes, HEAD) && preds != succs
      modifies this, preds, succs
      ensures Valid() && Grown(old(mem).nodes, mem.nodes) && Foreign(old(tr), t) <= Foreign(tr, t)
      ensures InsertOutcome(from, tr, t, key, val, toplevel, outcome)
      ensures outcome != Pending ==> Owns(mem, t, {}) && Settles(old(mem), mem, t)
      ensures from == old(tr) && Alone(old(tr), tr, t) && Quiescent(old(mem)) && 0 < fuel ==> outcome.Return?
    {
      var done, found := OptimisticSearch(t, key, preds, succs, fuel, from);
      ghost var tr1 := tr;
      if !done {
        if Quiescent(old(mem)) { QuietMeetsNoMarked(old(tr)); }
        return Pending;
      }
      PassedWorked(old(tr), tr, t, {});
      outcome := InsertAt(t, key, val, toplevel, found, preds[..], succs[..], fuel, from);
      GrownTransitive(old(mem).nodes, tr1.now.nodes, mem.nodes);
    }

    /** The round after its search: waits for the node found, or links a new one. */
    method InsertAt(t: nat, key: int, val: int, toplevel: nat, found: int, ps: seq<Ref>, ss: seq<Ref>, fuel: nat, ghost from: Run)
      returns (outcome: Outcome)
      requires Valid() && Owns(mem, t, {}) && Quiet(Elements, from, tr, t) && mem.nodes[HEAD].key < key < mem.nodes[TAIL].key
      requires Searched(from, tr, key, found, ps, ss) && 1 <= toplevel <= |ss|
      modifies this
      ensures Valid() && Grown(old(mem).nodes, mem.nodes) && Foreign(old(tr), t) <= Foreign(tr, t)
      ensures InsertOutcome(from, tr, t, key, val, toplevel, outcome)
      ensures outcome != Pending ==> Owns(mem, t, {}) && Settles(old(mem), mem, t)
      ensures from == old(tr) && Alone(old(tr), tr, t) && Quiescent(old(mem)) && 0 < fuel ==> outcome.Return?
    {
      if found != -1 {
        if from == tr && Quiescent(mem) { QuietFinds(tr, key, found, ps, ss); }
        assert LevelFound(from, tr, key, found, found, ps[found], ss[found]);
        outcome := AwaitNode(t, key, ss[found], fuel, from);
        PassedWorked(old(tr), tr, t, {});
      } else {
        outcome := LockAndLink(t, key, val, toplevel, ps, ss, fuel, from);
      }
    }

    /** The second half of the round: lock, validate, link, unlock. */
    method LockAndLink(t: nat, key: int, val: int, toplevel: nat, ps: seq<Ref>, ss: seq<Ref>, spins: nat, ghost from: Run)
      returns (outcome: Outcome)
      requires Valid() && Owns(mem, t, {}) && Quiet(Elements, from, tr, t)
      requires Searched(from, tr, key, -1, ps, ss) && 1 <= toplevel <= |ss|
      modifies this
      ensures Valid() && Grown(old(mem).nodes, mem.nodes) && Foreign(old(tr), t) <= Foreign(tr, t)
      ensures InsertOutcome(from, tr, t, key, val, toplevel, outcome)
      ensures outcome != Pending ==> Owns(mem, t, {}) && Settles(old(mem), mem, t)
      ensures from == old(tr) && Alone(old(tr), tr, t) && Quiescent(old(mem)) && 0 < spins ==> outcome.Return?
    {
      SearchedIsLockable(from, tr, key, -1, ps, ss, {});
      OwnsLeaving(mem, t, {});
      assert Within(tr, tr);
      var ok, valid, highest := LockAndValidate(t, toplevel, ps, ss, true, spins, {});
      LockableStays(old(mem).nodes, mem.nodes, ps, {});
      AloneIsNotBlocked(old(tr), tr, t);
      if !ok { return Pending; }
      ghost var tr1, mine := tr, {} + LockedSet(ps, highest);
      if !valid {
        if from == old(tr) { QuietRound(old(tr), tr, t, key, -1, ps, ss, toplevel, NULL, true); }
        UnlockLevels(t, ps, highest, {});
        GrownTransitive(old(mem).nodes, tr1.now.nodes, mem.nodes);
        return Retry;
      }
      WorkedSearched(from, old(tr), tr, t, key, -1, ps, ss, {});
      ReadyToLink(from, tr, t, key, -1, ps, ss, toplevel, mine);
      LinkAll(t, key, val, ps, ss[..toplevel], mine, from);
      LockableStays(tr1.now.nodes, mem.nodes, ps, {});
      ghost var tr2 := tr;
      GrownTransitive(old(mem).nodes, tr1.now.nodes, mem.nodes);
      UnlockLevels(t, ps, highest, {});
      GrownTransitive(old(mem).nodes, tr2.now.nodes, mem.nodes);
      TowerStays(tr2.now.nodes, mem.nodes, key, val, toplevel);
      outcome := Return(1);
    }

    /** Inserts the key with a node of `toplevel` levels, which the code draws at random: 1 when
        it was added, 0 when it was there; None when the call has not returned within `rounds`
        rounds and waits. A call that begins when all is quiet and that nobody disturbs returns, and
        all is quiet again. */
    method Insert(t: nat, key: int, val: int, toplevel: nat, rounds: nat) returns (r: Option<int>)
      requires Valid() && Owns(mem, t, {}) && mem.nodes[HEAD].key < key < mem.nodes[TAIL].key
      requires 1 <= toplevel <= Height(mem.nodes, HEAD)
      modifies this
      ensures Valid() && Grown(old(mem).nodes, mem.nodes)
      ensures r.Some? ==> Owns(mem, t, {}) && Settles(old(mem), mem, t)
      ensures match r
        case Some(1) => MadeOnce(Elements, old(tr), tr, t, Adds(key, val)) && HasTower(mem.nodes, key, val, toplevel)
        case Some(v) => v == 0 && Quiet(Elements, old(tr), tr, t) && Saw(Elements, old(tr), tr, IsPresent(key))
        case None => Quiet(Elements, old(tr), tr, t)
      ensures r.None? ==> rounds == 0 || !Quiescent(old(mem)) || !Alone(old(tr), tr, t)
      ensures r.Some? && Quiescent(old(mem)) && Alone(old(tr), tr, t) ==> Quiescent(mem)
    {
      var preds, succs := new Ref[Height(mem.nodes, HEAD)], new Ref[Height(mem.nodes, HEAD)];
      NothingYet(Elements, tr, t);
      PassedNothing(tr, t);
      PassedWorked(tr, tr, t, {});
      var n := rounds;
      while n > 0
        invariant Valid() && Owns(mem, t, {}) && Quiet(Elements, old(tr), tr, t) && Grown(old(mem).nodes, mem.nodes)
        invariant Settles(old(mem), mem, t)
        invariant if n == rounds then tr == old(tr) else !Quiescent(old(mem)) || !Alone(old(tr), tr, t)
      {
        ghost var tr1 := tr;
        ForeignGrows(old(tr), tr, t);
        var outcome := TryInsert(t, key, val, toplevel, preds, succs, rounds, old(tr));
        GrownTransitive(old(mem).nodes, tr1.now.nodes, mem.nodes);
        if outcome.Return? {
          MadeOnceSince(Elements, old(tr), tr, t, Adds(key, val));
          AloneEndsQuiescent(old(tr), tr, t);
          return Some(outcome.value);
        }
        if outcome.Pending? { return None; }
        n := n - 1;
      }
      r := None;
    }

    // -------------------------------------------------------------- unlinking

    /** preds[i]->next[i] = node_to_remove->next[i] */
    method UnlinkLevel(t: nat, key: int, ps: seq<Ref>, v: Ref, i: nat, ghost mine: set<Ref>)
      requires Valid() && Owns(mem, t, mine) && UnlinkBelow(mem, t, ps, v, i + 1) && Victim(mem, t, key, v, i + 1)
      modifies this
      ensures Valid() && Went(old(tr), tr, t) && Owns(mem, t, mine)
      ensures UnlinkBelow(mem, t, ps, v, i) && Victim(mem, t, key, v, i)
    {
      Interfere(t);
      PassedWorked(old(tr), tr, t, mine);
      UnlinkStays(old(mem), mem, t, key, ps, v, i + 1);
      var next := Next(mem.nodes, v, i);
      ghost var tr1 := tr;
      Interfere(t);
      PassedWorked(tr1, tr, t, mine);
      WentTransitive(old(tr), tr1, tr, t);
      UnlinkStays(tr1.now, mem, t, key, ps, v, i + 1);
      ghost var tr2 := tr;
      assert UnlinkAt(mem, t, ps[i], v, i) && next == Next(mem.nodes, v, i);
      Record(t, Unlink(ps[i], v, i));
      UnlinkKeeps(tr2.now, mem, t, key, ps, v, i, mine);
      WentTransitive(old(tr), tr2, tr, t);
    }

    /** Unlinks the victim level by level from the top. */
    method UnlinkAll(t: nat, key: int, ps: seq<Ref>, v: Ref, toplevel: nat, ghost mine: set<Ref>)
      requires Valid() && Owns(mem, t, mine) && UnlinkBelow(mem, t, ps, v, toplevel) && Victim(mem, t, key, v, toplevel)
      modifies this
      ensures Valid() && Went(old(tr), tr, t) && Owns(mem, t, mine) && Victim(mem, t, key, v, 0)
    {
      PassedNothing(tr, t);
      PassedWorked(tr, tr, t, mine);
      var i := toplevel;
      while i > 0
        invariant Valid() && Went(old(tr), tr, t) && Owns(mem, t, mine) && 0 <= i
        invariant UnlinkBelow(mem, t, ps, v, i) && Victim(mem, t, key, v, i)
      {
        i := i - 1;
        ghost var tr1 := tr;
        UnlinkLevel(t, key, ps, v, i, mine);
        WentTransitive(old(tr), tr1, tr, t);
      }
    }

    /** node->fullylinked && node->toplevel - 1 == found && !node->marked, read in this order: when
        it fails, the key was absent at some moment of the call. */
    method OkToDelete(t: nat, key: int, found: int, ps: seq<Ref>, ss: seq<Ref>, ghost from: Run) returns (ok: bool)
      requires Valid() && Searched(from, tr, key, found, ps, ss) && found != -1 && Within(from, tr)
      requires mem.nodes[HEAD].key < key < mem.nodes[TAIL].key
      modifies this
      ensures Valid() && Passed(old(tr), tr, t)
      ensures In(mem.nodes, ss[found])
      ensures ok <==> mem.nodes[ss[found]].fully && Height(mem.nodes, ss[found]) - 1 == found && !mem.nodes[ss[found]].marked
      ensures !ok ==> Saw(Elements, from, tr, IsAbsent(key))
    {
      var node := ss[found];
      assert LevelFound(from, tr, key, found, found, ps[found], node);
      Interfere(t);
      SearchedStays(from, old(tr), tr, t, key, found, ps, ss, 0);
      assert LevelFound(from, tr, key, found, found, ps[found], node);
      if !mem.nodes[node].fully {
        NotFullyLacks(from, tr, node);
        return false;
      }
      if Height(mem.nodes, node) - 1 != found {
        OtherLevelSaw(from, tr, key, found, ps, ss);
        return false;
      }
      ghost var tr1 := tr;
      Interfere(t);
      PassedTransitive(old(tr), tr1, tr, t);
      ok := !mem.nodes[node].marked;
      if !ok { MarkedSaw(from, tr, found, node); }
    }

    /** Locks the node found and marks it, unless somebody else has: this is the moment of the
        removal. Return(0) when the node was marked already. */
    method MarkVictim(t: nat, key: int, level: int, v: Ref, spins: nat, ghost from: Run) returns (outcome: Outcome, toplevel: nat)
      requires Valid() && Owns(mem, t, {}) && Quiet(Elements, from, tr, t) && SawAt(from, tr, level, v)
      requires In(mem.nodes, v) && mem.nodes[v].key == key && mem.nodes[HEAD].key < key < mem.nodes[TAIL].key && mem.nodes[v].fully
      modifies this
      ensures Valid() && Grown(old(mem).nodes, mem.nodes) && Within(old(tr), tr) && Unfinished(mem, t) <= Unfinished(old(mem), t)
      ensures RemoveOutcome(from, tr, t, key, v, true, toplevel, outcome)
      ensures outcome.Pending? ==> Quiet(Elements, from, tr, t) && (spins == 0 || Blocked(mem, t))
      ensures Alone(old(tr), tr, t) ==> OnlyLocks(old(mem).nodes, mem.nodes, v)
    {
      assert Within(tr, tr);
      OwnsLeaving(mem, t, {});
      var ok := Acquire(t, v, spins, {});
      if !ok { return Pending, 0; }
      assert {} + {v} == {v};
      ghost var tr1 := tr;
      outcome, toplevel := MarkLocked(t, key, level, v, from);
      GrownTransitive(old(mem).nodes, tr1.now.nodes, mem.nodes);
      WithinTransitive(old(tr), tr1, tr);
      ForeignGrows(tr1, tr, t);
    }

    /** The same under the lock. */
    method MarkLocked(t: nat, key: int, level: int, v: Ref, ghost from: Run) returns (outcome: Outcome, toplevel: nat)
      requires Valid() && Owns(mem, t, {v}) && Quiet(Elements, from, tr, t) && SawAt(from, tr, level, v) && Leaving(mem, t) == {}
      requires In(mem.nodes, v) && mem.nodes[v].key == key && mem.nodes[HEAD].key < key < mem.nodes[TAIL].key && mem.nodes[v].fully
      modifies this
      ensures Valid() && Grown(old(mem).nodes, mem.nodes) && Within(old(tr), tr) && outcome != Pending && Unfinished(mem, t) <= Unfinished(old(mem), t)
      ensures RemoveOutcome(from, tr, t, key, v, true, toplevel, outcome)
      ensures Alone(old(tr), tr, t) ==> OnlyLocks(old(mem).nodes, mem.nodes, v)
    {
      assert Within(tr, tr);
      Interfere(t);
      PassedWorked(old(tr), tr, t, {v});
      ghost var tr1 := tr;
      if mem.nodes[v].marked {
        MarkedSaw(from, tr, level, v);
        Release(t, v, {v});
        WorkedTransitive(old(tr), tr1, tr, t, {v});
        assert {v} - {v} == {};
        outcome, toplevel := Return(0), 0;
      } else {
        assert Holds(mem, v, t);
        toplevel := MarkIt(t, key, v, from);
        GrownTransitive(old(mem).nodes, tr1.now.nodes, mem.nodes);
        WithinTransitive(old(tr), tr1, tr);
        ForeignGrows(tr1, tr, t);
        outcome := Retry;
      }
    }

    /** node_to_remove->marked = 1 */
    method MarkIt(t: nat, key: int, v: Ref, ghost from: Run) returns (toplevel: nat)
      requires Valid() && Owns(mem, t, {v}) && Quiet(Elements, from, tr, t) && Holds(mem, v, t)
      requires mem.nodes[v].key == key && mem.nodes[HEAD].key < key < mem.nodes[TAIL].key
      requires mem.nodes[v].fully && !mem.nodes[v].marked
      modifies this
      ensures Valid() && Grown(old(mem).nodes, mem.nodes) && Owns(mem, t, {v}) && Within(old(tr), tr) && Unfinished(mem, t) <= Unfinished(old(mem), t)
      ensures Alone(old(tr), tr, t) ==> OnlyLocks(old(mem).nodes, mem.nodes, v)
      ensures Victim(mem, t, key, v, toplevel) && toplevel <= Height(mem.nodes, HEAD)
      ensures MadeOnce(Elements, from, tr, t, Removes(key, mem.nodes[v].val))
    {
      Interfere(t);
      PassedWorked(old(tr), tr, t, {v});
      toplevel := Height(mem.nodes, v);
      assert NodeOk(mem.nodes, v);
      ghost var tr1 := tr;
      StepEffect(mem, t, Mark(v));
      Record(t, Mark(v));
      forall r ensures Holds(mem, r, t) <==> r in {v} { assert Holds(tr1.now, r, t) <==> r in {v}; }
      MakeStep(Elements, from, tr, t, Removes(key, mem.nodes[v].val));
      WithinTransitive(old(tr), tr1, tr);
      GrownTransitive(old(mem).nodes, tr1.now.nodes, mem.nodes);
    }

    /** The physical deletion of the marked node: lock the predecessors, validate, unlink, unlock.
        Retry when the validation failed; the node then stays locked. Only a node that is off every
        level can be released. */
    method Delete(t: nat, key: int, found: int, ps: seq<Ref>, ss: seq<Ref>, v: Ref, toplevel: nat, spins: nat, ghost from: Run)
      returns (outcome: Outcome)
      requires Valid() && Owns(mem, t, {v}) && Victim(mem, t, key, v, toplevel)
      requires Searched(from, tr, key, found, ps, ss) && toplevel <= |ss|
      modifies this
      ensures Valid() && Went(old(tr), tr, t)
      ensures outcome.Return? ==> Owns(mem, t, {}) && outcome.value == old(mem.nodes[v].val)
      ensures outcome.Retry? ==> Owns(mem, t, {v}) && Victim(mem, t, key, v, toplevel)
      ensures outcome.Retry? && Alone(old(tr), tr, t) ==> Refuted(old(mem).nodes, ps, ss, toplevel, false)
      ensures outcome.Pending? ==> spins == 0 || Blocked(mem, t)
    {
      OwnsLeaving(mem, t, {v});
      assert Within(tr, tr);
      SearchedIsLockable(from, tr, key, found, ps, ss, {v});
      var ok, valid, highest := LockAndValidate(t, toplevel, ps, ss, false, spins, {v});
      LockableStays(old(mem).nodes, mem.nodes, ps, {v});
      if !ok { return Pending; }
      ghost var tr1, mine := tr, {v} + LockedSet(ps, highest);
      WorkedVictim(old(tr), tr, t, key, v, toplevel, mine);
      NotAmongPreds(mem.nodes, ps, highest, v);
      if !valid {
        UnlockLevels(t, ps, highest, {v});
        WorkedVictim(tr1, tr, t, key, v, toplevel, {v});
        WentTransitive(old(tr), tr1, tr, t);
        if Alone(old(tr), tr1, t) { RefutedBefore(old(mem).nodes, tr1.now.nodes, ps, ss, toplevel); }
        return Retry;
      }
      WorkedSearched(from, old(tr), tr, t, key, found, ps, ss, {v});
      ValidatedPointsToVictim(from, tr, t, key, found, ps, ss, v, toplevel, mine);
      UnlinkAll(t, key, ps, v, toplevel, mine);
      LockableStays(tr1.now.nodes, mem.nodes, ps, {v});
      WentTransitive(old(tr), tr1, tr, t);
      ghost var tr2 := tr;
      var val := ReleaseAll(t, v, ps, highest);
      WentTransitive(old(tr), tr2, tr, t);
      outcome := Return(val);
    }

    /** The end of a removal: reads the value, releases the victim and the predecessors. */
    method ReleaseAll(t: nat, v: Ref, ps: seq<Ref>, highest: int) returns (val: int)
      requires Valid() && Owns(mem, t, {v} + LockedSet(ps, highest)) && Lockable(mem.nodes, ps, {v})
      requires -1 <= highest < |ps| && In(mem.nodes, v) && Leaving(mem, t) == {}
      modifies this
      ensures Valid() && Went(old(tr), tr, t) && Owns(mem, t, {}) && val == old(mem.nodes[v].val)
    {
      val := mem.nodes[v].val;
      NotAmongPreds(mem.nodes, ps, highest, v);
      Release(t, v, {v} + LockedSet(ps, highest));
      assert {v} + LockedSet(ps, highest) - {v} == {} + LockedSet(ps, highest);
      LockableStays(old(mem).nodes, mem.nodes, ps, {v});
      forall i | 0 <= i < |ps| ensures IsBelow(mem.nodes, ps[i], {}) { assert IsBelow(mem.nodes, ps[i], {v}); }
      ghost var tr1 := tr;
      UnlockLevels(t, ps, highest, {});
      WentTransitive(old(tr), tr1, tr, t);
    }

    /** One round of remove's loop. `marked` says whether the victim has been marked, in this
        round or before. A first round that nobody disturbs and that begins when all is quiet
        returns. */
    method TryRemove(t: nat, key: int, preds: array<Ref>, succs: array<Ref>, v0: Ref, marked0: bool, toplevel0: nat, fuel: nat, ghost from: Run)
      returns (outcome: Outcome, v: Ref, marked: bool, toplevel: nat)
      requires Valid() && mem.nodes[HEAD].key < key < mem.nodes[TAIL].key && Within(from, tr)
      requires preds.Length == succs.Length == Height(mem.nodes, HEAD) && preds != succs
      requires Removing(this.tr, t, key, from, v0, marked0, toplevel0)
      modifies this, preds, succs
      ensures Valid() && Grown(old(mem).nodes, mem.nodes) && Within(from, tr) && Unfinished(mem, t) <= Unfinished(old(mem), t)
      ensures RemoveOutcome(from, tr, t, key, v, marked, toplevel, outcome) && Foreign(old(tr), t) <= Foreign(tr, t)
      ensures from == old(tr) && !marked0 && Alone(old(tr), tr, t) && Quiescent(old(mem)) && 0 < fuel ==> outcome.Return?
    {
      v, marked, toplevel := v0, marked0, toplevel0;
      var done, found := OptimisticSearch(t, key, preds, succs, fuel, from);
      KeptSettles(old(mem), mem, t);
      PassedRemoving(old(tr), tr, t, key, from, v, marked, toplevel);
      if !done {
        if Quiescent(old(mem)) { QuietMeetsNoMarked(old(tr)); }
        return Pending, v, marked, toplevel;
      }
      ghost var tr1 := tr;
      outcome, v, marked, toplevel := RemoveAt(t, key, found, preds[..], succs[..], v, marked, toplevel, fuel, from);
      GrownTransitive(old(mem).nodes, tr1.now.nodes, mem.nodes);
    }

    /** The round after its search. */
    method RemoveAt(t: nat, key: int, found: int, ps: seq<Ref>, ss: seq<Ref>, v0: Ref, marked0: bool, toplevel0: nat, fuel: nat, ghost from: Run)
      returns (outcome: Outcome, v: Ref, marked: bool, toplevel: nat)
      requires Valid() && mem.nodes[HEAD].key < key < mem.nodes[TAIL].key && Within(from, tr)
      requires Searched(from, tr, key, found, ps, ss) && Removing(this.tr, t, key, from, v0, marked0, toplevel0)
      modifies this
      ensures Valid() && Grown(old(mem).nodes, mem.nodes) && Within(from, tr) && Unfinished(mem, t) <= Unfinished(old(mem), t)
      ensures RemoveOutcome(from, tr, t, key, v, marked, toplevel, outcome) && Foreign(old(tr), t) <= Foreign(tr, t)
      ensures from == old(tr) && !marked0 && Alone(old(tr), tr, t) && Quiescent(old(mem)) && 0 < fuel ==> outcome.Return?
    {
      v, marked, toplevel := v0, marked0, toplevel0;
      if !marked {
        if found == -1 {
          assert LevelFound(from, tr, key, found, 0, ps[0], ss[0]);
          GapSaw(from, tr, ps[0], ss[0], key);
          return Return(0), v, marked, toplevel;
        }
        outcome, v, toplevel := Claim(t, key, found, ps, ss, fuel, from);
        AloneIsNotBlocked(old(tr), tr, t);
        ForeignGrows(old(tr), tr, t);
        if !outcome.Retry? { return; }
        marked := true;
        if from == old(tr) { QuietRound(old(tr), tr, t, key, found, ps, ss, toplevel, v, false); }
      }
      ghost var tr1 := tr;
      outcome := DeleteMarked(t, key, found, ps, ss, v, toplevel, fuel, from);
      GrownTransitive(old(mem).nodes, tr1.now.nodes, mem.nodes);
      WithinTransitive(from, tr1, tr);
      if from == old(tr) { AloneIsNotBlocked(from, tr, t); }
    }

    /** The first half of the round in which a node is found: ok_to_delete, lock and mark. */
    method Claim(t: nat, key: int, found: int, ps: seq<Ref>, ss: seq<Ref>, spins: nat, ghost from: Run)
      returns (outcome: Outcome, v: Ref, toplevel: nat)
      requires Valid() && Owns(mem, t, {}) && Quiet(Elements, from, tr, t)
      requires Searched(from, tr, key, found, ps, ss) && found != -1 && mem.nodes[HEAD].key < key < mem.nodes[TAIL].key
      modifies this
      ensures Valid() && Grown(old(mem).nodes, mem.nodes) && Within(from, tr) && Within(old(tr), tr) && Unfinished(mem, t) <= Unfinished(old(mem), t)
      ensures RemoveOutcome(from, tr, t, key, v, true, toplevel, outcome) && Searched(from, tr, key, found, ps, ss)
      ensures outcome.Pending? ==> Quiet(Elements, from, tr, t) && (spins == 0 || Blocked(mem, t))
      ensures In(old(mem).nodes, v) && old(mem).nodes[v].key == key
      ensures Alone(old(tr), tr, t) ==> OnlyLocks(old(mem).nodes, mem.nodes, v)
    {
      assert Within(tr, tr);
      v, toplevel := ss[found], 0;
      assert LevelFound(from, tr, key, found, found, ps[found], v);
      var ok := OkToDelete(t, key, found, ps, ss, from);
      PassedWorked(old(tr), tr, t, {});
      SearchedStays(from, old(tr), tr, t, key, found, ps, ss, 0);
      if !ok { return Return(0), v, 0; }
      assert LevelFound(from, tr, key, found, found, ps[found], v);
      ghost var tr1 := tr;
      outcome, toplevel := MarkVictim(t, key, found, v, spins, from);
      GrownTransitive(old(mem).nodes, tr1.now.nodes, mem.nodes);
      WithinTransitive(from, tr1, tr);
      WithinTransitive(old(tr), tr1, tr);
      ForeignGrows(tr1, tr, t);
      SearchedLater(from, tr1, tr, key, found, ps, ss);
    }

    /** The second half, for a node that is marked. */
    method DeleteMarked(t: nat, key: int, found: int, ps: seq<Ref>, ss: seq<Ref>, v: Ref, toplevel: nat, spins: nat, ghost from: Run)
      returns (outcome: Outcome)
      requires Valid() && Searched(from, tr, key, found, ps, ss) && Removing(tr, t, key, from, v, true, toplevel)
      modifies this
      ensures Valid() && Went(old(tr), tr, t) && Within(old(tr), tr) && RemoveOutcome(from, tr, t, key, v, true, toplevel, outcome)
      ensures outcome.Retry? && Alone(old(tr), tr, t) ==> Refuted(old(mem).nodes, ps, ss, toplevel, false)
      ensures outcome.Pending? ==> spins == 0 || Blocked(mem, t)
    {
      assert Within(tr, tr);
      ghost var val := mem.nodes[v].val;
      outcome := Delete(t, key, found, ps, ss, v, toplevel, spins, from);
      if outcome.Return? { RemovedIsOff(from, tr, t, key, outcome.value); }
      assert MadeOnce(Elements, from, tr, t, Removes(key, val));
    }

    /** Removes the key: its value, or 0 when it was absent; the node removed is on no level any
        more. None when the call has not returned within `rounds` rounds and waits. A call that
        begins when all is quiet and that nobody disturbs returns, and all is quiet again. */
    method Remove(t: nat, key: int, rounds: nat) returns (r: Option<int>)
      requires Valid() && Owns(mem, t, {}) && mem.nodes[HEAD].key < key < mem.nodes[TAIL].key
      modifies this
      ensures Valid() && Grown(old(mem).nodes, mem.nodes)
      ensures match r
        case Some(v) => Owns(mem, t, {}) && RemoveAnswer(old(tr), tr, t, key, v) && Unfinished(mem, t) <= Unfinished(old(mem), t)
        case None => Quiet(Elements, old(tr), tr, t) || exists v :: MadeOnce(Elements, old(tr), tr, t, Removes(key, v))
      ensures r.None? ==> rounds == 0 || !Quiescent(old(mem)) || !Alone(old(tr), tr, t)
      ensures r.Some? && Quiescent(old(mem)) && Alone(old(tr), tr, t) ==> Quiescent(mem)
    {
      var preds, succs := new Ref[Height(mem.nodes, HEAD)], new Ref[Height(mem.nodes, HEAD)];
      NothingYet(Elements, tr, t);
      PassedNothing(tr, t);
      var v, marked, toplevel, n := NULL, false, 0, rounds;
      while n > 0
        invariant Valid() && Grown(old(mem).nodes, mem.nodes) && Within(old(tr), tr) && Unfinished(mem, t) <= Unfinished(old(mem), t)
        invariant Removing(tr, t, key, old(tr), v, marked, toplevel)
        invariant if n == rounds then tr == old(tr) && !marked else !Quiescent(old(mem)) || !Alone(old(tr), tr, t)
      {
        ghost var tr1 := tr;
        ForeignGrows(old(tr), tr, t);
        var outcome;
        outcome, v, marked, toplevel := TryRemove(t, key, preds, succs, v, marked, toplevel, rounds, old(tr));
        GrownTransitive(old(mem).nodes, tr1.now.nodes, mem.nodes);
        if outcome.Return? {
          AloneEndsQuiescent(old(tr), tr, t);
          return Some(outcome.value);
        }
        if outcome.Pending? { return None; }
        n := n - 1;
      }
      r := None;
    }
  }
}
