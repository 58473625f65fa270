/** What a thread of the lock-based skip list knows: what a search has seen on the way, and what
    its locks protect. */
module HerlihyKnowledge {
  import opened History
  import opened Calls
  import opened SetCalls
  import opened SkipModel
  import opened HerlihySteps

  // ---------------------------------------------------------------- what a search has seen

  ghost predicate StandsAt(h: Nodes, i: int, p: Ref, s: Ref) {
    At(h, p, i) && p != TAIL && Next(h, p, i) == s
  }

  /** There was a moment from `from` on at which `p` was on level `i`. */
  ghost predicate SawAt(from: Run, tr: Run, i: int, p: Ref) {
    exists m :: Within(from, m) && Within(m, tr) && At(m.now.nodes, p, i)
  }

  /** There was a moment from `from` on at which `p` was on level `i` and its next there was `s`. */
  ghost predicate SawStand(from: Run, tr: Run, i: int, p: Ref, s: Ref) {
    exists m :: Within(from, m) && Within(m, tr) && StandsAt(m.now.nodes, i, p, s)
  }

  /** Hindsight, level by level: whatever next is read from a node that was on the level, there
      was a moment since then at which the node was on the level with that same next. */
  lemma {:induction false} Hindsight(from: Run, tr: Run, i: int, p: Ref) returns (m: Run)
    requires IsRun(tr) && Within(from, tr) && At(from.now.nodes, p, i) && p != TAIL
    ensures Within(from, m) && Within(m, tr) && StandsAt(m.now.nodes, i, p, Next(tr.now.nodes, p, i))
    decreases tr
  {
    RunGrows(from, tr);
    StepBefore(tr);
    if from == tr || At(tr.now.nodes, p, i) {
      m := tr;
    } else {
      RunGrows(from, tr.before);
      m := Hindsight(from, tr.before, i, p);
      assert Next(tr.now.nodes, p, i) == Next(tr.before.now.nodes, p, i);
    }
  }

  /** One step of a traversal on level `i`: the node read was on the level too, further right. */
  lemma TraversalStep(from: Run, tr: Run, i: int, p: Ref)
    requires IsRun(tr) && SawAt(from, tr, i, p) && p != TAIL
    ensures In(tr.now.nodes, p)
    ensures var s := Next(tr.now.nodes, p, i);
      SawStand(from, tr, i, p, s) && SawAt(from, tr, i, s) && In(tr.now.nodes, s) && tr.now.nodes[p].key < tr.now.nodes[s].key
  {
    var f :| Within(from, f) && Within(f, tr) && At(f.now.nodes, p, i);
    var m := Hindsight(f, tr, i, p);
    WithinTransitive(from, f, m);
    RunGrows(m, tr);
    assert Linked(m.now.nodes, p, i);
  }

  /** A node seen on a level was seen on every level below. */
  lemma SawBelow(from: Run, tr: Run, i: int, j: int, p: Ref)
    requires SawAt(from, tr, i, p) && 0 <= j <= i
    ensures SawAt(from, tr, j, p)
  {
    var m :| Within(from, m) && Within(m, tr) && At(m.now.nodes, p, i);
    assert At(m.now.nodes, p, j);
  }

  /** What was seen stays: a predecessor that is not marked is still on its level. */
  lemma SawAtStays(from: Run, tr: Run, i: int, p: Ref)
    requires IsRun(tr) && SawAt(from, tr, i, p)
    ensures In(tr.now.nodes, p) && 0 <= i < Height(tr.now.nodes, p)
    ensures !tr.now.nodes[p].marked ==> At(tr.now.nodes, p, i)
  {
    var m :| Within(from, m) && Within(m, tr) && At(m.now.nodes, p, i);
    RunGrows(m, tr);
    assert NodeOk(m.now.nodes, p);
  }

  /** A gap seen on the lowest level was a moment without the key. */
  lemma GapSaw(from: Run, tr: Run, p: Ref, s: Ref, key: int)
    requires IsRun(tr) && SawStand(from, tr, 0, p, s) && In(tr.now.nodes, p) && In(tr.now.nodes, s)
    requires tr.now.nodes[p].key < key < tr.now.nodes[s].key
    ensures Saw(Elements, from, tr, IsAbsent(key))
  {
    var m :| Within(from, m) && Within(m, tr) && StandsAt(m.now.nodes, 0, p, s);
    RunGrows(m, tr);
    assert Linked(m.now.nodes, p, 0);
    GapLacks(m.now.nodes, p, 0, key);
  }

  /** A node that was linked and is marked now: there was a moment without its key. */
  lemma MarkedSaw(from: Run, tr: Run, i: int, n: Ref)
    requires IsRun(tr) && SawAt(from, tr, i, n) && n != HEAD && n != TAIL && In(tr.now.nodes, n) && tr.now.nodes[n].marked
    ensures Saw(Elements, from, tr, IsAbsent(tr.now.nodes[n].key))
  {
    var f :| Within(from, f) && Within(f, tr) && At(f.now.nodes, n, i);
    var m := Marking(f, tr, n);
    WithinTransitive(from, f, m);
    RunGrows(f, tr);
    RunGrows(m, tr);
    NotLiveLacks(m.now.nodes, n);
  }

  lemma {:induction false} Marking(from: Run, tr: Run, n: Ref) returns (m: Run)
    requires IsRun(tr) && Within(from, tr) && At(from.now.nodes, n, 0) && In(tr.now.nodes, n) && tr.now.nodes[n].marked
    ensures Within(from, m) && Within(m, tr) && At(m.now.nodes, n, 0) && m.now.nodes[n].marked
    decreases tr
  {
    StepBefore(tr);
    if from == tr {
      m := tr;
    } else {
      RunGrows(from, tr.before);
      if tr.before.now.nodes[n].marked {
        m := Marking(from, tr.before, n);
      } else {
        assert NodeOk(tr.before.now.nodes, n);
        m := tr;
      }
    }
  }

  /** A node that was not marked and is fully linked now: there was a moment at which it was an
      element. */
  lemma {:induction false} FullySaw(from: Run, tr: Run, n: Ref)
    requires IsRun(tr) && Within(from, tr) && n != HEAD && n != TAIL
    requires In(from.now.nodes, n) && !from.now.nodes[n].marked && In(tr.now.nodes, n) && tr.now.nodes[n].fully
    ensures Saw(Elements, from, tr, IsBound(tr.now.nodes[n].key, tr.now.nodes[n].val))
    decreases tr
  {
    StepBefore(tr);
    if tr.now.nodes[n].marked {
      RunGrows(from, tr.before);
      assert NodeOk(tr.before.now.nodes, n);
      FullySaw(from, tr.before, n);
      SawGrows(from, tr.before, tr, IsBound(tr.now.nodes[n].key, tr.now.nodes[n].val));
    } else {
      assert Live(tr.now.nodes, n);
      assert IsBound(tr.now.nodes[n].key, tr.now.nodes[n].val)(Elements(tr.now));
    }
  }

  lemma SawGrows(from: Run, tr: Run, tr': Run, wanted: Pairs -> bool)
    requires Saw(Elements, from, tr, wanted) && Within(tr, tr')
    ensures Saw(Elements, from, tr', wanted)
  {
    var m :| Within(from, m) && Within(m, tr) && wanted(Elements(m.now));
    WithinTransitive(m, tr, tr');
  }

  /** A node that a search missed on one of its levels, though it is fully linked and not marked
      by now: there was a moment without its key. */
  lemma MissedSaw(from: Run, tr: Run, i: int, p: Ref, s: Ref, n: Ref)
    requires IsRun(tr) && SawStand(from, tr, i, p, s) && In(tr.now.nodes, p) && In(tr.now.nodes, s)
    requires In(tr.now.nodes, n) && 0 <= i < Height(tr.now.nodes, n) && tr.now.nodes[n].fully && !tr.now.nodes[n].marked
    requires tr.now.nodes[p].key < tr.now.nodes[n].key < tr.now.nodes[s].key && n != HEAD && n != TAIL
    ensures Saw(Elements, from, tr, IsAbsent(tr.now.nodes[n].key))
  {
    var f :| Within(from, f) && Within(f, tr) && StandsAt(f.now.nodes, i, p, s);
    RunGrows(f, tr);
    assert Linked(f.now.nodes, p, i);
    GapLacks(f.now.nodes, p, i, tr.now.nodes[n].key);
    if In(f.now.nodes, n) { assert !At(f.now.nodes, n, i) && NodeOk(f.now.nodes, n); }
    FullyTurns(f, tr, n);
    var m :| Within(f, m) && Within(m, tr) && IsAbsent(tr.now.nodes[n].key)(Elements(m.now));
    WithinTransitive(from, f, m);
  }

  lemma {:induction false} FullyTurns(from: Run, tr: Run, n: Ref)
    requires IsRun(tr) && Within(from, tr) && In(tr.now.nodes, n) && tr.now.nodes[n].fully && n != HEAD && n != TAIL
    requires !In(from.now.nodes, n) || !from.now.nodes[n].fully
    ensures Saw(Elements, from, tr, IsAbsent(tr.now.nodes[n].key))
    decreases tr
  {
    StepBefore(tr);
    RunGrows(from, tr.before);
    assert In(tr.before.now.nodes, n);
    if tr.before.now.nodes[n].fully {
      FullyTurns(from, tr.before, n);
      SawGrows(from, tr.before, tr, IsAbsent(tr.now.nodes[n].key));
    } else {
      assert NodeOk(tr.before.now.nodes, n);
      NotLiveLacks(tr.before.now.nodes, n);
      assert Within(tr.before, tr);
    }
  }

  /** The run went on from `tr0` to `tr` by steps of other threads than `t`. */
  ghost predicate Passed(tr0: Run, tr: Run, t: nat) {
    && Grown(tr0.now.nodes, tr.now.nodes) && Kept(tr0.now, tr.now, t) && Calm(Elements, tr0, tr, t)
    && (Alone(tr0, tr, t) ==> tr == tr0)
  }

  lemma PassedTransitive(a: Run, b: Run, c: Run, t: nat)
    requires Passed(a, b, t) && Passed(b, c, t)
    ensures Passed(a, c, t)
  {
    GrownTransitive(a.now.nodes, b.now.nodes, c.now.nodes);
    CalmTransitive(Elements, a, b, c, t);
    KeptTransitive(a.now, b.now, c.now, t);
  }

  lemma KeptTransitive(a: Mem, b: Mem, c: Mem, t: nat)
    requires Kept(a, b, t) && Kept(b, c, t)
    ensures Kept(a, c, t)
  {
  }

  lemma PassedNothing(tr: Run, t: nat)
    requires IsRun(tr)
    ensures Passed(tr, tr, t)
  {
  }

  /** What a search for the key has found on level `i`. */
  ghost predicate FoundAt(from: Run, tr: Run, key: int, i: int, p: Ref, s: Ref) {
    && SawStand(from, tr, i, p, s) && SawAt(from, tr, i, p) && SawAt(from, tr, i, s)
    && In(tr.now.nodes, p) && In(tr.now.nodes, s) && p != TAIL
    && tr.now.nodes[p].key < key <= tr.now.nodes[s].key
  }

  lemma FoundStays(from: Run, tr: Run, tr': Run, t: nat, key: int, i: int, p: Ref, s: Ref)
    requires FoundAt(from, tr, key, i, p, s) && Passed(tr, tr', t)
    ensures FoundAt(from, tr', key, i, p, s)
  {
  }

  predicate GoesDown(h: Nodes, p: Ref, above: Ref) {
    p == above || (In(h, p) && In(h, above) && h[above].key < h[p].key)
  }

  /** Predecessors move right on the way down. */
  ghost predicate Descending(h: Nodes, ps: seq<Ref>, low: int) {
    0 <= low && forall i, j {:trigger GoesDown(h, ps[i], ps[j])} :: low <= i <= j < |ps| ==> GoesDown(h, ps[i], ps[j])
  }

  /** Predecessor and successor on level `i`, and whether the key was met there, `found` being
      the highest level on which it was. */
  ghost predicate LevelFound(from: Run, tr: Run, key: int, found: int, i: int, p: Ref, s: Ref) {
    && FoundAt(from, tr, key, i, p, s)
    && (found < i ==> key < tr.now.nodes[s].key) && (found == i ==> key == tr.now.nodes[s].key)
  }

  /** What a descent for the key has found on the levels from `low` on. */
  ghost predicate SearchedFrom(from: Run, tr: Run, key: int, found: int, ps: seq<Ref>, ss: seq<Ref>, low: int) {
    && |ps| == |ss| == Height(tr.now.nodes, HEAD) && 0 <= low <= |ps|
    && (found == -1 || low <= found < |ps|)
    && (forall i {:trigger LevelFound(from, tr, key, found, i, ps[i], ss[i])} ::
          low <= i < |ps| ==> LevelFound(from, tr, key, found, i, ps[i], ss[i]))
    && Descending(tr.now.nodes, ps, low)
  }

  ghost predicate Searched(from: Run, tr: Run, key: int, found: int, ps: seq<Ref>, ss: seq<Ref>) {
    SearchedFrom(from, tr, key, found, ps, ss, 0)
  }

  lemma SearchedStays(from: Run, tr: Run, tr': Run, t: nat, key: int, found: int, ps: seq<Ref>, ss: seq<Ref>, low: int)
    requires IsRun(tr) && SearchedFrom(from, tr, key, found, ps, ss, low) && Passed(tr, tr', t)
    ensures SearchedFrom(from, tr', key, found, ps, ss, low)
  {
    StepBefore(tr);
    forall i | low <= i < |ps| ensures LevelFound(from, tr', key, found, i, ps[i], ss[i]) {
      assert LevelFound(from, tr, key, found, i, ps[i], ss[i]);
      FoundStays(from, tr, tr', t, key, i, ps[i], ss[i]);
    }
    DescendingStays(tr.now.nodes, tr'.now.nodes, ps, low);
  }

  lemma SearchedLater(from: Run, tr: Run, tr': Run, key: int, found: int, ps: seq<Ref>, ss: seq<Ref>)
    requires IsRun(tr') && Searched(from, tr, key, found, ps, ss) && Within(tr, tr') && In(tr.now.nodes, HEAD)
    ensures Searched(from, tr', key, found, ps, ss)
  {
    RunGrows(tr, tr');
    forall m | Within(m, tr) ensures Within(m, tr') { WithinTransitive(m, tr, tr'); }
    forall i | 0 <= i < |ps| ensures LevelFound(from, tr', key, found, i, ps[i], ss[i]) {
      assert LevelFound(from, tr, key, found, i, ps[i], ss[i]);
    }
    DescendingStays(tr.now.nodes, tr'.now.nodes, ps, 0);
  }

  lemma DescendingStays(h: Nodes, h': Nodes, ps: seq<Ref>, low: int)
    requires Descending(h, ps, low) && Grown(h, h')
    ensures Descending(h', ps, low)
  {
    forall i, j | low <= i <= j < |ps| ensures GoesDown(h', ps[i], ps[j]) {
      assert GoesDown(h, ps[i], ps[j]);
    }
  }

  function HighestMet(h: Nodes, key: int, found: int, i: int, s: Ref): int {
    if found == -1 && In(h, s) && key == h[s].key then i else found
  }

  /** One more level is searched. */
  lemma SearchedMore(from: Run, tr: Run, key: int, found: int, ps: seq<Ref>, ss: seq<Ref>, i: int, p: Ref, s: Ref)
    requires SearchedFrom(from, tr, key, found, ps, ss, i + 1) && 0 <= i < |ps|
    requires FoundAt(from, tr, key, i, p, s) && (i + 1 < |ps| ==> GoesDown(tr.now.nodes, p, ps[i + 1]))
    ensures SearchedFrom(from, tr, key, HighestMet(tr.now.nodes, key, found, i, s), ps[i := p], ss[i := s], i)
  {
    var h, f, ps', ss' := tr.now.nodes, HighestMet(tr.now.nodes, key, found, i, s), ps[i := p], ss[i := s];
    forall j | i <= j < |ps| ensures LevelFound(from, tr, key, f, j, ps'[j], ss'[j]) {
      if i < j { assert LevelFound(from, tr, key, found, j, ps[j], ss[j]); }
    }
    forall j, k | i <= j <= k < |ps| ensures GoesDown(h, ps'[j], ps'[k]) {
      if i < j {
        assert GoesDown(h, ps[j], ps[k]);
      } else if i < k {
        assert GoesDown(h, ps[i + 1], ps[k]);
      }
    }
  }

  lemma SawEarlier(from: Run, m: Run, tr: Run, wanted: Pairs -> bool)
    requires Within(from, m) && Saw(Elements, m, tr, wanted)
    ensures Saw(Elements, from, tr, wanted)
  {
    var i :| Within(m, i) && Within(i, tr) && wanted(Elements(i.now));
    WithinTransitive(from, m, i);
  }

  /** A node in the heap that is not fully linked: the key is absent right now. */
  lemma NotFullyLacks(from: Run, tr: Run, n: Ref)
    requires IsRun(tr) && Within(from, tr) && In(tr.now.nodes, n) && !tr.now.nodes[n].fully && n != HEAD && n != TAIL
    ensures Saw(Elements, from, tr, IsAbsent(tr.now.nodes[n].key))
  {
    StepBefore(tr);
    assert NodeOk(tr.now.nodes, n);
    NotLiveLacks(tr.now.nodes, n);
    assert IsAbsent(tr.now.nodes[n].key)(Elements(tr.now));
  }

  lemma BoundIsPresent(from: Run, m: Run, tr: Run, key: int, val: int)
    requires Within(from, m) && Saw(Elements, m, tr, IsBound(key, val))
    ensures Saw(Elements, from, tr, IsPresent(key))
  {
    var i :| Within(m, i) && Within(i, tr) && IsBound(key, val)(Elements(i.now));
    WithinTransitive(from, m, i);
    assert IsPresent(key)(Elements(i.now));
  }

  /** The node found is fully linked, but on its highest level the descent did not meet it: at
      some moment of the search the key was absent. */
  lemma OtherLevelSaw(from: Run, tr: Run, key: int, found: int, ps: seq<Ref>, ss: seq<Ref>)
    requires IsRun(tr) && Searched(from, tr, key, found, ps, ss) && found != -1
    requires In(tr.now.nodes, ss[found]) && tr.now.nodes[ss[found]].fully && Height(tr.now.nodes, ss[found]) - 1 != found
    requires In(tr.now.nodes, TAIL) && tr.now.nodes[HEAD].key < key < tr.now.nodes[TAIL].key
    ensures Saw(Elements, from, tr, IsAbsent(key))
  {
    StepBefore(tr);
    var n, i := ss[found], Height(tr.now.nodes, ss[found]) - 1;
    assert LevelFound(from, tr, key, found, found, ps[found], n);
    SawAtStays(from, tr, found, n);
    assert NodeOk(tr.now.nodes, n);
    if tr.now.nodes[n].marked {
      MarkedSaw(from, tr, found, n);
    } else {
      assert LevelFound(from, tr, key, found, i, ps[i], ss[i]);
      MissedSaw(from, tr, i, ps[i], ss[i], n);
    }
  }

  // ---------------------------------------------------------------- locks and what they protect

  /** The locks thread `t` holds are exactly those of the nodes in `s`, and it waits for none. */
  ghost predicate Owns(q: Mem, t: nat, s: set<Ref>) {
    t !in q.wants && forall r {:trigger Holds(q, r, t)} :: Holds(q, r, t) <==> r in s
  }

  ghost predicate Frozen(h: Nodes, h': Nodes, r: Ref) {
    && In(h, r) && In(h', r) && h'[r].next == h[r].next && h'[r].marked == h[r].marked
    && (h[r].marked ==> h'[r].levels == h[r].levels)
  }

  /** The run went on without a change of the set by `t`, which has not begun what it has not
      finished. */
  ghost predicate Went(tr0: Run, tr: Run, t: nat) {
    Grown(tr0.now.nodes, tr.now.nodes) && Calm(Elements, tr0, tr, t) && Settles(tr0.now, tr.now, t)
  }

  /** No node has changed but for its lock, and node `v` for its mark. */
  ghost predicate OnlyLocks(h: Nodes, h': Nodes, v: Ref) {
    && |h'| == |h|
    && forall r :: 0 <= r < |h| ==> h'[r].next == h[r].next && h'[r].fully == h[r].fully && (r != v ==> h'[r].marked == h[r].marked)
  }

  /** `t` has changed nothing but locks since, and the nodes it kept locked are as they were. */
  ghost predicate Worked(tr0: Run, tr: Run, t: nat, s: set<Ref>) {
    && Went(tr0, tr, t) && (forall r :: r in s ==> Frozen(tr0.now.nodes, tr.now.nodes, r))
    && (Alone(tr0, tr, t) ==> OnlyLocks(tr0.now.nodes, tr.now.nodes, NULL))
  }

  lemma WentTransitive(a: Run, b: Run, c: Run, t: nat)
    requires Went(a, b, t) && Went(b, c, t)
    ensures Went(a, c, t)
  {
    GrownTransitive(a.now.nodes, b.now.nodes, c.now.nodes);
    CalmTransitive(Elements, a, b, c, t);
  }

  lemma WorkedTransitive(a: Run, b: Run, c: Run, t: nat, s: set<Ref>)
    requires Worked(a, b, t, s) && Worked(b, c, t, s)
    ensures Worked(a, c, t, s)
  {
    WentTransitive(a, b, c, t);
  }

  lemma PassedWorked(tr0: Run, tr: Run, t: nat, s: set<Ref>)
    requires Passed(tr0, tr, t) && Owns(tr0.now, t, s)
    ensures Worked(tr0, tr, t, s) && Owns(tr.now, t, s)
  {
    KeptSettles(tr0.now, tr.now, t);
    forall r | r in s ensures Frozen(tr0.now.nodes, tr.now.nodes, r) {
      assert Holds(tr0.now, r, t);
    }
    forall r ensures Holds(tr.now, r, t) <==> r in s {
      assert Holds(tr0.now, r, t) <==> r in s;
    }
  }

  /** Thread `t` holds exactly the locks in `s` and spins on that of `n`. */
  ghost predicate Waiting(q: Mem, t: nat, n: Ref, s: set<Ref>) {
    && t in q.wants && q.wants[t] == n && In(q.nodes, n)
    && (forall r {:trigger Holds(q, r, t)} :: Holds(q, r, t) <==> r in s)
  }

  lemma WaitingStays(tr0: Run, tr: Run, t: nat, n: Ref, s: set<Ref>)
    requires Passed(tr0, tr, t) && Waiting(tr0.now, t, n, s)
    ensures Worked(tr0, tr, t, s) && Waiting(tr.now, t, n, s)
  {
    KeptSettles(tr0.now, tr.now, t);
    forall r | r in s ensures Frozen(tr0.now.nodes, tr.now.nodes, r) {
      assert Holds(tr0.now, r, t);
    }
    forall r ensures Holds(tr.now, r, t) <==> r in s {
      assert Holds(tr0.now, r, t) <==> r in s;
    }
  }

  lemma WorkedSearched(from: Run, tr: Run, tr': Run, t: nat, key: int, found: int, ps: seq<Ref>, ss: seq<Ref>, s: set<Ref>)
    requires IsRun(tr) && Searched(from, tr, key, found, ps, ss) && Worked(tr, tr', t, s)
    ensures Searched(from, tr', key, found, ps, ss)
  {
    StepBefore(tr);
    forall i | 0 <= i < |ps| ensures LevelFound(from, tr', key, found, i, ps[i], ss[i]) {
      assert LevelFound(from, tr, key, found, i, ps[i], ss[i]);
    }
    DescendingStays(tr.now.nodes, tr'.now.nodes, ps, 0);
  }

  /** The predecessors on the levels up to `n`. */
  function LockedSet(ps: seq<Ref>, n: int): set<Ref> {
    set j | 0 <= j <= n && j < |ps| :: ps[j]
  }

  /** The predecessor is not marked and still points to the successor. */
  predicate Validated(h: Nodes, p: Ref, s: Ref, i: int) {
    In(h, p) && !h[p].marked && Next(h, p, i) == s
  }

  /** `prev` is the last predecessor locked, that of level `highest`, and of all levels up to `i`. */
  ghost predicate LockedUpTo(ps: seq<Ref>, i: int, highest: int, prev: Ref) {
    && -1 <= highest < i <= |ps| && (i == 0 <==> highest == -1)
    && (if i == 0 then prev == NULL else prev == ps[highest])
    && (forall j :: highest < j < i ==> ps[j] == prev)
  }

  /** Equal predecessors are neighbours, so a predecessor that differs from the last one locked
      is not locked yet, and its key is smaller than that of all the locked ones. */
  lemma NewPredIsBelow(h: Nodes, ps: seq<Ref>, i: int, highest: int, prev: Ref)
    requires Descending(h, ps, 0) && 0 <= i < |ps| && ps[i] != prev && LockedUpTo(ps, i, highest, prev)
    requires In(h, ps[i])
    ensures forall r :: r in LockedSet(ps, highest) ==> In(h, r) && h[ps[i]].key < h[r].key
    ensures LockedSet(ps, i) == LockedSet(ps, highest) + {ps[i]} && LockedUpTo(ps, i + 1, i, ps[i])
  {
    forall r | r in LockedSet(ps, highest) ensures In(h, r) && h[ps[i]].key < h[r].key {
      var j :| 0 <= j <= highest && ps[j] == r;
      assert GoesDown(h, ps[j], ps[i]) && GoesDown(h, ps[highest], ps[i]) && GoesDown(h, ps[j], ps[highest]);
    }
  }

  /** What locking the predecessors needs to know of them: they are nodes, their keys do not
      grow from level to level, and lie below those of the nodes locked before. */
  ghost predicate Lockable(h: Nodes, ps: seq<Ref>, base: set<Ref>) {
    && Descending(h, ps, 0)
    && (forall i :: 0 <= i < |ps| ==> IsBelow(h, ps[i], base))
  }

  ghost predicate IsBelow(h: Nodes, n: Ref, s: set<Ref>) {
    In(h, n) && forall r :: r in s ==> In(h, r) && h[n].key < h[r].key
  }

  lemma LockableStays(h: Nodes, h': Nodes, ps: seq<Ref>, base: set<Ref>)
    requires Lockable(h, ps, base) && Grown(h, h')
    ensures Lockable(h', ps, base)
  {
    DescendingStays(h, h', ps, 0);
    forall i | 0 <= i < |ps| ensures IsBelow(h', ps[i], base) { assert IsBelow(h, ps[i], base); }
  }

  /** All levels below `i` are validated. */
  ghost predicate ValidBelow(h: Nodes, ps: seq<Ref>, ss: seq<Ref>, i: int) {
    i <= |ps| == |ss| && forall j {:trigger Validated(h, ps[j], ss[j], j)} :: 0 <= j < i ==> Validated(h, ps[j], ss[j], j)
  }

  lemma ValidStays(tr0: Run, tr: Run, t: nat, ps: seq<Ref>, ss: seq<Ref>, i: int, highest: int, prev: Ref, s: set<Ref>)
    requires ValidBelow(tr0.now.nodes, ps, ss, i) && LockedUpTo(ps, i, highest, prev) && Worked(tr0, tr, t, s) && LockedSet(ps, highest) <= s
    ensures ValidBelow(tr.now.nodes, ps, ss, i)
  {
    forall j | 0 <= j < i ensures Validated(tr.now.nodes, ps[j], ss[j], j) {
      assert Validated(tr0.now.nodes, ps[j], ss[j], j);
      assert ps[j] in LockedSet(ps, highest) by {
        if j <= highest { assert ps[j] == ps[j]; } else { assert ps[j] == ps[highest]; }
      }
      assert Frozen(tr0.now.nodes, tr.now.nodes, ps[j]);
    }
  }

  lemma LockedSetAll(ps: seq<Ref>, i: int, highest: int, prev: Ref)
    requires LockedUpTo(ps, i, highest, prev)
    ensures LockedSet(ps, highest) == LockedSet(ps, i - 1)
  {
    forall r | r in LockedSet(ps, i - 1) ensures r in LockedSet(ps, highest) {
      var j :| 0 <= j <= i - 1 && ps[j] == r;
      if highest < j { assert ps[j] == ps[highest]; }
    }
  }

  /** What unlock_levels still has to release when it gets to level `i`, `last` being the
      predecessor of the level before. */
  function Remaining(ps: seq<Ref>, i: int, highest: int, last: Ref): set<Ref> {
    set j | 0 <= i <= j <= highest && j < |ps| && ps[j] != last :: ps[j]
  }

  lemma ReleasedOnce(h: Nodes, ps: seq<Ref>, i: int, highest: int, last: Ref)
    requires Descending(h, ps, 0) && 0 <= i <= highest < |ps| && (i == 0 ==> last == NULL) && (i > 0 ==> last == ps[i - 1])
    requires forall j :: 0 <= j < |ps| ==> In(h, ps[j])
    ensures ps[i] != last ==> ps[i] in Remaining(ps, i, highest, last)
    ensures Remaining(ps, i + 1, highest, ps[i]) == Remaining(ps, i, highest, last) - {ps[i]}
    ensures ps[i] == last ==> ps[i] !in Remaining(ps, i, highest, last)
  {
    forall r | r in Remaining(ps, i + 1, highest, ps[i]) ensures r in Remaining(ps, i, highest, last) && r != ps[i] {
      var j :| i + 1 <= j <= highest && ps[j] != ps[i] && ps[j] == r;
      if i > 0 {
        assert GoesDown(h, ps[i - 1], ps[i]) && GoesDown(h, ps[i], ps[j]) && GoesDown(h, ps[i - 1], ps[j]);
      }
    }
  }

  /** On level `i` the predecessor is locked and nothing lies between it and the successor. */
  predicate ReadyAt(q: Mem, t: nat, key: int, p: Ref, s: Ref, i: int) {
    && MayWrite(q, t, p, i) && Next(q.nodes, p, i) == s && In(q.nodes, s)
    && q.nodes[p].key < key < q.nodes[s].key
  }

  ghost predicate ReadyFrom(q: Mem, t: nat, key: int, ps: seq<Ref>, ss: seq<Ref>, low: int) {
    |ss| <= |ps| && forall i {:trigger ReadyAt(q, t, key, ps[i], ss[i], i)} :: low <= i < |ss| && 0 <= i ==> ReadyAt(q, t, key, ps[i], ss[i], i)
  }

  /** The node that `t` inserts, linked on `levels` levels so far. */
  ghost predicate NewNode(q: Mem, t: nat, key: int, val: int, ss: seq<Ref>, n: Ref, levels: nat) {
    && In(q.nodes, n) && n != HEAD && n != TAIL && q.nodes[n].maker == t && !q.nodes[n].fully && q.nodes[n].levels == levels
    && q.nodes[n].key == key && q.nodes[n].val == val && |q.nodes[n].next| == |ss|
    && (forall i :: levels <= i < |ss| ==> q.nodes[n].next[i] == ss[i])
  }

  lemma ReadyStays(q: Mem, q': Mem, t: nat, key: int, ps: seq<Ref>, ss: seq<Ref>, low: int)
    requires ReadyFrom(q, t, key, ps, ss, low) && Kept(q, q', t) && Grown(q.nodes, q'.nodes)
    ensures ReadyFrom(q', t, key, ps, ss, low)
  {
    forall i | low <= i < |ss| && 0 <= i ensures ReadyAt(q', t, key, ps[i], ss[i], i) {
      assert ReadyAt(q, t, key, ps[i], ss[i], i);
    }
  }

  lemma EnterKeeps(q: Mem, q': Mem, t: nat, key: int, val: int, ps: seq<Ref>, ss: seq<Ref>, mine: set<Ref>)
    requires Inv(q) && Owns(q, t, mine) && ReadyFrom(q, t, key, ps, ss, 0) && 1 <= |ss|
    requires Enabled(q, t, Enter(ps[0], key, val, ss)) && q' == Do(q, t, Enter(ps[0], key, val, ss))
    ensures Owns(q', t, mine) && ReadyFrom(q', t, key, ps, ss, 1) && NewNode(q', t, key, val, ss, |q.nodes|, 1)
    ensures Leaving(q', t) <= Leaving(q, t) && Unfinished(q', t) <= Unfinished(q, t) + {|q.nodes|}
  {
    assert NodeOk(q.nodes, ps[0]);
    forall r ensures Holds(q', r, t) <==> r in mine { assert Holds(q, r, t) <==> r in mine; }
    forall i | 1 <= i < |ss| ensures ReadyAt(q', t, key, ps[i], ss[i], i) {
      assert ReadyAt(q, t, key, ps[i], ss[i], i);
    }
  }

  lemma LinkKeeps(q: Mem, q': Mem, t: nat, key: int, val: int, i: nat, n: Ref, ps: seq<Ref>, ss: seq<Ref>, mine: set<Ref>)
    requires Inv(q) && Owns(q, t, mine) && ReadyFrom(q, t, key, ps, ss, i) && 1 <= i < |ss| && NewNode(q, t, key, val, ss, n, i)
    requires Enabled(q, t, LinkUp(ps[i], n, i)) && q' == Do(q, t, LinkUp(ps[i], n, i))
    ensures Owns(q', t, mine) && ReadyFrom(q', t, key, ps, ss, i + 1) && NewNode(q', t, key, val, ss, n, i + 1) && Settles(q, q', t)
  {
    assert NodeOk(q.nodes, ps[i]) && NodeOk(q.nodes, n) && n != ps[i];
    forall r ensures Holds(q', r, t) <==> r in mine { assert Holds(q, r, t) <==> r in mine; }
    forall j | i + 1 <= j < |ss| ensures ReadyAt(q', t, key, ps[j], ss[j], j) {
      assert ReadyAt(q, t, key, ps[j], ss[j], j);
    }
  }

  /** How far one round of an update has come: the call returns, goes into another round, or is
      still waiting for something when the run under consideration ends. */
  datatype Outcome = Return(value: int) | Retry | Pending

  /** What was validated under the locks is ready to be linked behind. */
  lemma ReadyToLink(from: Run, tr: Run, t: nat, key: int, found: int, ps: seq<Ref>, ss: seq<Ref>, toplevel: nat, mine: set<Ref>)
    requires IsRun(tr) && Searched(from, tr, key, found, ps, ss) && found == -1 && 1 <= toplevel <= |ss|
    requires ValidBelow(tr.now.nodes, ps, ss, toplevel) && Owns(tr.now, t, mine) && LockedSet(ps, toplevel - 1) <= mine
    ensures ReadyFrom(tr.now, t, key, ps, ss[..toplevel], 0)
  {
    forall i | 0 <= i < toplevel ensures ReadyAt(tr.now, t, key, ps[i], ss[..toplevel][i], i) {
      assert LevelFound(from, tr, key, found, i, ps[i], ss[i]) && Validated(tr.now.nodes, ps[i], ss[i], i);
      SawAtStays(from, tr, i, ps[i]);
      assert ps[i] in LockedSet(ps, toplevel - 1);
      assert Holds(tr.now, ps[i], t);
    }
  }

  lemma SearchedIsLockable(from: Run, tr: Run, key: int, found: int, ps: seq<Ref>, ss: seq<Ref>, base: set<Ref>)
    requires IsRun(tr) && Searched(from, tr, key, found, ps, ss)
    requires forall r :: r in base ==> In(tr.now.nodes, r) && tr.now.nodes[r].key == key
    ensures Lockable(tr.now.nodes, ps, base) && forall i :: 0 <= i < |ss| ==> In(tr.now.nodes, ss[i])
  {
    forall i | 0 <= i < |ps| ensures IsBelow(tr.now.nodes, ps[i], base) && In(tr.now.nodes, ss[i]) {
      assert LevelFound(from, tr, key, found, i, ps[i], ss[i]);
    }
  }

  /** Thread `t` has marked the node it removes and holds its lock; the node is still linked on
      its lowest `levels` levels. */
  ghost predicate Victim(q: Mem, t: nat, key: int, v: Ref, levels: nat) {
    && Holds(q, v, t) && v != HEAD && v != TAIL && q.nodes[v].marked && q.nodes[v].key == key && q.nodes[v].levels == levels
  }

  /** On level `i` the predecessor is locked and points to the victim. */
  predicate UnlinkAt(q: Mem, t: nat, p: Ref, v: Ref, i: int) {
    MayWrite(q, t, p, i) && Next(q.nodes, p, i) == v
  }

  ghost predicate UnlinkBelow(q: Mem, t: nat, ps: seq<Ref>, v: Ref, n: int) {
    n <= |ps| && forall i {:trigger UnlinkAt(q, t, ps[i], v, i)} :: 0 <= i < n ==> UnlinkAt(q, t, ps[i], v, i)
  }

  /** On every level of the victim, the validated predecessor points to the victim: whatever
      successor the search has met there is the victim itself. */
  lemma ValidatedPointsToVictim(from: Run, tr: Run, t: nat, key: int, found: int, ps: seq<Ref>, ss: seq<Ref>, v: Ref, levels: nat, mine: set<Ref>)
    requires IsRun(tr) && Searched(from, tr, key, found, ps, ss) && levels <= |ss| && Victim(tr.now, t, key, v, levels)
    requires ValidBelow(tr.now.nodes, ps, ss, levels) && Owns(tr.now, t, mine) && LockedSet(ps, levels - 1) <= mine
    ensures UnlinkBelow(tr.now, t, ps, v, levels)
  {
    StepBefore(tr);
    var h := tr.now.nodes;
    forall i | 0 <= i < levels ensures UnlinkAt(tr.now, t, ps[i], v, i) {
      assert LevelFound(from, tr, key, found, i, ps[i], ss[i]) && Validated(h, ps[i], ss[i], i);
      SawAtStays(from, tr, i, ps[i]);
      assert ps[i] in LockedSet(ps, levels - 1);
      assert Holds(tr.now, ps[i], t);
      assert NoneBetween(h, ps[i], i, v) && Linked(h, ps[i], i) && Distinct(h, ss[i], v);
    }
  }

  lemma UnlinkStays(q: Mem, q': Mem, t: nat, key: int, ps: seq<Ref>, v: Ref, n: nat)
    requires UnlinkBelow(q, t, ps, v, n) && Victim(q, t, key, v, n) && Kept(q, q', t) && Grown(q.nodes, q'.nodes)
    ensures UnlinkBelow(q', t, ps, v, n) && Victim(q', t, key, v, n) && q'.nodes[v].next == q.nodes[v].next
  {
    forall i | 0 <= i < n ensures UnlinkAt(q', t, ps[i], v, i) {
      assert UnlinkAt(q, t, ps[i], v, i);
    }
  }

  lemma UnlinkKeeps(q: Mem, q': Mem, t: nat, key: int, ps: seq<Ref>, v: Ref, i: nat, mine: set<Ref>)
    requires Inv(q) && Owns(q, t, mine) && UnlinkBelow(q, t, ps, v, i + 1) && Victim(q, t, key, v, i + 1)
    requires Enabled(q, t, Unlink(ps[i], v, i)) && q' == Do(q, t, Unlink(ps[i], v, i))
    ensures Owns(q', t, mine) && UnlinkBelow(q', t, ps, v, i) && Victim(q', t, key, v, i) && Settles(q, q', t)
  {
    assert NodeOk(q.nodes, ps[i]) && NodeOk(q.nodes, v) && v != ps[i];
    forall r ensures Holds(q', r, t) <==> r in mine { assert Holds(q, r, t) <==> r in mine; }
    forall j | 0 <= j < i ensures UnlinkAt(q', t, ps[j], v, j) {
      assert UnlinkAt(q, t, ps[j], v, j);
    }
  }

  lemma WorkedVictim(tr0: Run, tr: Run, t: nat, key: int, v: Ref, levels: nat, mine: set<Ref>)
    requires Victim(tr0.now, t, key, v, levels) && Worked(tr0, tr, t, {v}) && Owns(tr.now, t, mine) && v in mine
    ensures Victim(tr.now, t, key, v, levels) && tr.now.nodes[v].val == tr0.now.nodes[v].val
  {
    assert Frozen(tr0.now.nodes, tr.now.nodes, v) && Holds(tr.now, v, t);
  }

  lemma NotAmongPreds(h: Nodes, ps: seq<Ref>, highest: int, v: Ref)
    requires Lockable(h, ps, {v})
    ensures v !in LockedSet(ps, highest)
  {
    forall j | 0 <= j < |ps| ensures ps[j] != v { assert IsBelow(h, ps[j], {v}) && v in {v}; }
  }

  /** There is a fully linked node with the pair and with that many levels. */
  ghost predicate HasTower(h: Nodes, key: int, val: int, toplevel: nat) {
    exists n :: In(h, n) && h[n].key == key && h[n].val == val && h[n].fully && Height(h, n) == toplevel
  }

  lemma TowerStays(h: Nodes, h': Nodes, key: int, val: int, toplevel: nat)
    requires HasTower(h, key, val, toplevel) && Grown(h, h')
    ensures HasTower(h', key, val, toplevel)
  {
    var n :| In(h, n) && h[n].key == key && h[n].val == val && h[n].fully && Height(h, n) == toplevel;
    assert Height(h', n) == toplevel;
  }

  /** What one round of an insertion has done. */
  ghost predicate InsertOutcome(from: Run, tr: Run, t: nat, key: int, val: int, toplevel: nat, outcome: Outcome) {
    match outcome
    case Return(1) => MadeOnce(Elements, from, tr, t, Adds(key, val)) && HasTower(tr.now.nodes, key, val, toplevel)
    case Return(v) => v == 0 && Quiet(Elements, from, tr, t) && Saw(Elements, from, tr, IsPresent(key))
    case _ => Quiet(Elements, from, tr, t)
  }

  // ---------------------------------------------------------------- the end of a removal

  /** The last step of `m` is one by which `t` marked node `n`, which has the pair. */
  ghost predicate MarksNow(m: Run, t: nat, n: Ref, key: int, val: int) {
    m.Then? && m.who == t && m.act == Mark(n) && In(m.now.nodes, n) && m.now.nodes[n].key == key && m.now.nodes[n].val == val
  }

  /** Thread `t` has marked a node with the pair since, and that node is on no level by now. */
  ghost predicate MarkedAndOff(from: Run, m: Run, tr: Run, t: nat, key: int, val: int) {
    && Within(from, m) && Within(m, tr)
    && exists n :: MarksNow(m, t, n, key, val) && In(tr.now.nodes, n) && tr.now.nodes[n].levels == 0
  }

  /** From moment `from` on, thread `t` changed the set in exactly one step, by marking a node with
      the pair, and that node is on no level by now. */
  ghost predicate RemovedForGood(from: Run, tr: Run, t: nat, key: int, val: int) {
    MadeOnce(Elements, from, tr, t, Removes(key, val)) && exists m :: MarkedAndOff(from, m, tr, t, key, val)
  }

  /** A marked node stays locked by the thread that marked it until it is on no level. */
  lemma {:induction false} LeavesOrIsOff(m: Run, tr: Run)
    requires IsRun(tr) && Within(m, tr) && m.Then? && m.act.Mark?
    ensures var n := m.act.n;
      In(tr.now.nodes, n) && tr.now.nodes[n].marked && (0 < tr.now.nodes[n].levels ==> tr.now.nodes[n].lock == By(m.who))
    decreases tr
  {
    StepBefore(tr);
    LastStep(First(), CanStep(), tr);
    if m != tr {
      LeavesOrIsOff(m, tr.before);
      StepHoldsLeaving(tr.before.now, tr.who, tr.act, m.act.n);
    } else {
      MarkHolds(tr.before.now, tr.who, m.act.n);
    }
  }

  lemma MarkHolds(q: Mem, t: nat, n: Ref)
    requires Inv(q) && Enabled(q, t, Mark(n))
    ensures var q' := Do(q, t, Mark(n)); In(q'.nodes, n) && q'.nodes[n].marked && q'.nodes[n].lock == By(t)
  {
  }

  lemma StepHoldsLeaving(q: Mem, u: nat, a: Act, n: Ref)
    requires Inv(q) && Enabled(q, u, a) && In(q.nodes, n) && q.nodes[n].marked
    ensures var q' := Do(q, u, a); In(q'.nodes, n) && (0 < q'.nodes[n].levels ==> 0 < q.nodes[n].levels && q'.nodes[n].lock == q.nodes[n].lock)
  {
    StepGrows(q, u, a);
    assert NodeOk(q.nodes, n);
    if a.Enter? { assert NodeOk(q.nodes, a.p); }
    if a.LinkUp? { assert NodeOk(q.nodes, a.p) && NodeOk(q.nodes, a.n); }
    if a.Unlink? { assert NodeOk(q.nodes, a.p) && NodeOk(q.nodes, a.v); }
  }

  lemma RemovesOnlyByMark(q: Mem, t: nat, a: Act, key: int, val: int)
    requires Inv(q) && Enabled(q, t, a) && Removes(key, val)(Elements(q), Elements(Do(q, t, a)))
    ensures a.Mark? && q.nodes[a.n].key == key && q.nodes[a.n].val == val
  {
    StepEffect(q, t, a);
    if a.Mark? { assert (q.nodes[a.n].key, q.nodes[a.n].val) !in Elements(Do(q, t, a)); }
  }

  /** A removal by a thread that holds no lock any more has taken its node off every level. */
  lemma RemovedIsOff(from: Run, tr: Run, t: nat, key: int, val: int)
    requires IsRun(tr) && MadeOnce(Elements, from, tr, t, Removes(key, val)) && Owns(tr.now, t, {})
    ensures RemovedForGood(from, tr, t, key, val)
  {
    var m :| Makes(Elements, m, t, Removes(key, val)) && Quiet(Elements, from, m.before, t) && Quiet(Elements, m, tr, t);
    RunGrows(m, tr);
    StepBefore(m);
    LastStep(First(), CanStep(), m);
    RemovesOnlyByMark(m.before.now, t, m.act, key, val);
    LeavesOrIsOff(m, tr);
    var n := m.act.n;
    assert !Holds(tr.now, n, t);
    assert Within(from, m) && MarksNow(m, t, n, key, val);
    assert MarkedAndOff(from, m, tr, t, key, val);
  }

  lemma OwnsLeaving(q: Mem, t: nat, s: set<Ref>)
    requires Owns(q, t, s)
    ensures Leaving(q, t) <= s
  {
    forall r | r in Leaving(q, t) ensures r in s { assert Holds(q, r, t); }
  }

  /** There was a moment from `from` on at which the node was not marked. */
  ghost predicate SawUnmarked(from: Run, tr: Run, s: Ref) {
    exists m :: Within(from, m) && Within(m, tr) && In(m.now.nodes, s) && !m.now.nodes[s].marked
  }

  lemma UnmarkedEarlier(from: Run, m: Run, tr: Run, s: Ref)
    requires Within(from, m) && SawUnmarked(m, tr, s)
    ensures SawUnmarked(from, tr, s)
  {
    var i :| Within(m, i) && Within(i, tr) && In(i.now.nodes, s) && !i.now.nodes[s].marked;
    WithinTransitive(from, m, i);
  }

  /** The successors of all levels below `n` were seen unmarked. */
  ghost predicate UnmarkedBelow(from: Run, tr: Run, ss: seq<Ref>, n: int) {
    n <= |ss| && forall i {:trigger ss[i]} :: 0 <= i < n ==> SawUnmarked(from, tr, ss[i])
  }

  lemma UnmarkedMore(from: Run, tr: Run, tr': Run, t: nat, ss: seq<Ref>, n: nat)
    requires Within(from, tr) && UnmarkedBelow(from, tr, ss, n) && Calm(Elements, tr, tr', t) && n < |ss| && SawUnmarked(tr, tr', ss[n])
    ensures UnmarkedBelow(from, tr', ss, n + 1)
  {
    forall i | 0 <= i < n ensures SawUnmarked(from, tr', ss[i]) {
      assert SawUnmarked(from, tr, ss[i]);
      var m :| Within(from, m) && Within(m, tr) && In(m.now.nodes, ss[i]) && !m.now.nodes[ss[i]].marked;
      assert Within(m, tr');
    }
    UnmarkedEarlier(from, tr, tr', ss[n]);
  }

  // ---------------------------------------------------------------- what made a round fail

  /** A predecessor that a search has met on a level is marked. */
  ghost predicate MetMarked(from: Run, tr: Run) {
    exists i, p :: SawAt(from, tr, i, p) && In(tr.now.nodes, p) && tr.now.nodes[p].marked
  }

  /** On this level the validation fails. */
  predicate RefutedAt(h: Nodes, p: Ref, s: Ref, i: int, inserting: bool) {
    !Validated(h, p, s, i) || (inserting && In(h, s) && h[s].marked)
  }

  ghost predicate Refuted(h: Nodes, ps: seq<Ref>, ss: seq<Ref>, n: nat, inserting: bool) {
    n <= |ps| && n <= |ss| && exists i {:trigger RefutedAt(h, ps[i], ss[i], i, inserting)} :: 0 <= i < n && RefutedAt(h, ps[i], ss[i], i, inserting)
  }

  lemma SawNow(tr: Run, i: int, p: Ref)
    requires SawAt(tr, tr, i, p)
    ensures At(tr.now.nodes, p, i)
  {
    var m :| Within(tr, m) && Within(m, tr) && At(m.now.nodes, p, i);
    WithinAntisymmetric(m, tr);
  }

  lemma StoodNow(tr: Run, i: int, p: Ref, s: Ref)
    requires SawStand(tr, tr, i, p, s)
    ensures StandsAt(tr.now.nodes, i, p, s)
  {
    var m :| Within(tr, m) && Within(m, tr) && StandsAt(m.now.nodes, i, p, s);
    WithinAntisymmetric(m, tr);
  }

  lemma QuietMeetsNoMarked(tr: Run)
    requires Inv(tr.now) && Quiescent(tr.now)
    ensures !MetMarked(tr, tr)
  {
    if MetMarked(tr, tr) {
      var i, p :| SawAt(tr, tr, i, p) && In(tr.now.nodes, p) && tr.now.nodes[p].marked;
      SawNow(tr, i, p);
      QuiescentNode(tr.now, p, i);
    }
  }

  /** What a search finds while all is quiet stays valid as long as only locks, and the mark of
      a node with the key, change. */
  lemma QuietIsValid(tr: Run, h': Nodes, key: int, found: int, ps: seq<Ref>, ss: seq<Ref>, n: nat, v: Ref, inserting: bool)
    requires Inv(tr.now) && Quiescent(tr.now) && Searched(tr, tr, key, found, ps, ss) && n <= |ps| && OnlyLocks(tr.now.nodes, h', v)
    requires In(tr.now.nodes, v) ==> tr.now.nodes[v].key == key && !inserting
    ensures !Refuted(h', ps, ss, n, inserting)
  {
    forall i | 0 <= i < n ensures !RefutedAt(h', ps[i], ss[i], i, inserting) {
      assert LevelFound(tr, tr, key, found, i, ps[i], ss[i]);
      StoodNow(tr, i, ps[i], ss[i]);
      SawNow(tr, i, ss[i]);
      QuiescentNode(tr.now, ps[i], i);
      QuiescentNode(tr.now, ss[i], i);
    }
  }

  lemma QuietRound(tr0: Run, tr: Run, t: nat, key: int, found: int, ps: seq<Ref>, ss: seq<Ref>, n: nat, v: Ref, inserting: bool)
    requires IsRun(tr0) && Searched(tr0, tr0, key, found, ps, ss) && n <= |ps|
    requires Alone(tr0, tr, t) ==> OnlyLocks(tr0.now.nodes, tr.now.nodes, v)
    requires In(tr0.now.nodes, v) ==> tr0.now.nodes[v].key == key && !inserting
    ensures Refuted(tr.now.nodes, ps, ss, n, inserting) ==> !Alone(tr0, tr, t) || !Quiescent(tr0.now)
  {
    StepBefore(tr0);
    if Alone(tr0, tr, t) && Quiescent(tr0.now) {
      QuietIsValid(tr0, tr.now.nodes, key, found, ps, ss, n, v, inserting);
    }
  }

  /** A search that meets the key while all is quiet meets an element. */
  lemma QuietFinds(tr: Run, key: int, found: int, ps: seq<Ref>, ss: seq<Ref>)
    requires IsRun(tr) && Quiescent(tr.now) && Searched(tr, tr, key, found, ps, ss) && found != -1
    ensures In(tr.now.nodes, ss[found]) && !tr.now.nodes[ss[found]].marked && tr.now.nodes[ss[found]].fully
  {
    StepBefore(tr);
    assert LevelFound(tr, tr, key, found, found, ps[found], ss[found]);
    SawNow(tr, found, ss[found]);
    QuiescentNode(tr.now, ss[found], found);
  }

  lemma AloneIsNotBlocked(m: Run, tr: Run, t: nat)
    requires IsRun(tr) && Within(m, tr)
    ensures Blocked(tr.now, t) ==> !Alone(m, tr, t) || !Quiescent(m.now)
  {
    if Alone(m, tr, t) && Quiescent(m.now) { AloneKeepsOut(m, tr, t); }
  }

  lemma LockSettles(q: Mem, t: nat, n: Ref)
    requires Inv(q) && Enabled(q, t, Lock(n))
    ensures Settles(q, Do(q, t, Lock(n)), t) && OnlyLocks(q.nodes, Do(q, t, Lock(n)).nodes, NULL)
  {
    assert NodeOk(q.nodes, n);
  }

  /** Where a removal stands between two rounds: it has done nothing and holds no lock, or it has
      marked its victim, which is the removal, and holds the victim's lock. */
  ghost predicate Removing(tr: Run, t: nat, key: int, from: Run, v: Ref, marked: bool, toplevel: nat) {
    if !marked then
      Owns(tr.now, t, {}) && Quiet(Elements, from, tr, t)
    else
      && Owns(tr.now, t, {v}) && Victim(tr.now, t, key, v, toplevel) && toplevel <= Height(tr.now.nodes, HEAD)
      && MadeOnce(Elements, from, tr, t, Removes(key, tr.now.nodes[v].val))
  }

  ghost predicate RemoveAnswer(from: Run, tr: Run, t: nat, key: int, v: int) {
    || RemovedForGood(from, tr, t, key, v)
    || (v == 0 && Quiet(Elements, from, tr, t) && Saw(Elements, from, tr, IsAbsent(key)))
  }

  /** What one round of a removal has done. */
  ghost predicate RemoveOutcome(from: Run, tr: Run, t: nat, key: int, v: Ref, marked: bool, toplevel: nat, outcome: Outcome) {
    match outcome
    case Return(val) => Owns(tr.now, t, {}) && RemoveAnswer(from, tr, t, key, val)
    case Retry => Removing(tr, t, key, from, v, marked, toplevel)
    case Pending => Quiet(Elements, from, tr, t) || exists val :: MadeOnce(Elements, from, tr, t, Removes(key, val))
  }

  lemma RefutedBefore(h: Nodes, h': Nodes, ps: seq<Ref>, ss: seq<Ref>, n: nat)
    requires OnlyLocks(h, h', NULL) && Refuted(h', ps, ss, n, false)
    ensures Refuted(h, ps, ss, n, false)
  {
    var i :| 0 <= i < n && RefutedAt(h', ps[i], ss[i], i, false);
    assert RefutedAt(h, ps[i], ss[i], i, false);
  }

  lemma PassedRemoving(tr0: Run, tr: Run, t: nat, key: int, from: Run, v: Ref, marked: bool, toplevel: nat)
    requires IsRun(tr0) && Removing(tr0, t, key, from, v, marked, toplevel) && Passed(tr0, tr, t)
    ensures Removing(tr, t, key, from, v, marked, toplevel)
  {
    StepBefore(tr0);
    if marked {
      PassedWorked(tr0, tr, t, {v});
      WorkedVictim(tr0, tr, t, key, v, toplevel, {v});
    } else {
      PassedWorked(tr0, tr, t, {});
    }
  }
}
