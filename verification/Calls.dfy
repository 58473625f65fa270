/** What one call did to a shared object, told from the run: `view` says what the object shows
    to its clients, and a call may change that in at most one step. */
module Calls {
  import opened History

  /** The last step of `m` is not one by which thread `t` changed what `view` shows. */
  ghost predicate Harmless<S, A, V>(view: S -> V, m: Trace<S, A>, t: nat) {
    m.Then? && (m.who == t ==> view(m.now) == view(m.before.now))
  }

  /** From moment `from` on, no step of thread `t` changed what `view` shows. */
  ghost predicate Quiet<S(!new), A(!new), V>(view: S -> V, from: Trace<S, A>, tr: Trace<S, A>, t: nat) {
    && Within(from, tr)
    && (forall m {:trigger Harmless(view, m, t)} ::
          Within(from, m) && Within(m, tr) && m != from ==> Harmless(view, m, t))
  }

  /** The last step of `m` is one by which `t` made the change from one view to the next. */
  ghost predicate Makes<S, A, V>(view: S -> V, m: Trace<S, A>, t: nat, change: (V, V) -> bool) {
    m.Then? && m.who == t && change(view(m.before.now), view(m.now))
  }

  /** From moment `from` on, thread `t` changed what `view` shows in exactly one step, and that
      step made the change. */
  ghost predicate MadeOnce<S(!new), A(!new), V>(view: S -> V, from: Trace<S, A>, tr: Trace<S, A>, t: nat, change: (V, V) -> bool) {
    exists m {:trigger Makes(view, m, t, change)} ::
      Makes(view, m, t, change) && Quiet(view, from, m.before, t) && Quiet(view, m, tr, t)
  }

  /** There was a moment from `from` on at which the view was one of those wanted. */
  ghost predicate Saw<S(!new), A(!new), V>(view: S -> V, from: Trace<S, A>, tr: Trace<S, A>, wanted: V -> bool) {
    exists m :: Within(from, m) && Within(m, tr) && wanted(view(m.now))
  }

  /** How many steps of the run were steps of other threads than `t`. */
  ghost function Foreign<S, A>(tr: Trace<S, A>, t: nat): nat
    decreases tr
  {
    match tr
    case Start(_) => 0
    case Then(before, who, _, _) => Foreign(before, t) + (if who == t then 0 else 1)
  }

  lemma {:induction false} ForeignGrows<S, A>(m: Trace<S, A>, tr: Trace<S, A>, t: nat)
    requires Within(m, tr)
    ensures Foreign(m, t) <= Foreign(tr, t)
    decreases tr
  {
    if m != tr { ForeignGrows(m, tr.before, t); }
  }

  /** No other thread took a step between the two moments. */
  ghost predicate Alone<S, A>(m: Trace<S, A>, tr: Trace<S, A>, t: nat) {
    Foreign(tr, t) == Foreign(m, t)
  }

  /** How many steps of the run were steps of thread `t`. */
  ghost function Own<S, A>(tr: Trace<S, A>, t: nat): nat
    decreases tr
  {
    match tr
    case Start(_) => 0
    case Then(before, who, _, _) => Own(before, t) + (if who == t then 1 else 0)
  }

  lemma {:induction false} OwnGrows<S, A>(m: Trace<S, A>, tr: Trace<S, A>, t: nat)
    requires Within(m, tr)
    ensures Own(m, t) <= Own(tr, t)
    decreases tr
  {
    if m != tr { OwnGrows(m, tr.before, t); }
  }

  /** A thread that has taken a step since has taken more steps. */
  lemma OwnStepCounts<S, A>(from: Trace<S, A>, m: Trace<S, A>, tr: Trace<S, A>, t: nat)
    requires Within(from, m) && from != m && Within(m, tr) && m.Then? && m.who == t
    ensures Own(from, t) < Own(tr, t)
  {
    OwnGrows(from, m.before, t);
    OwnGrows(m, tr, t);
  }

  /** The run went on from `tr0` to `tr` without thread `t` changing what `view` shows: whatever
      `t` could say about its call before, it can still say. */
  ghost predicate Calm<S(!new), A(!new), V(!new)>(view: S -> V, tr0: Trace<S, A>, tr: Trace<S, A>, t: nat) {
    && (forall m :: Within(m, tr0) ==> Within(m, tr)) && Foreign(tr0, t) <= Foreign(tr, t)
    && (forall from :: Quiet(view, from, tr0, t) ==> Quiet(view, from, tr, t))
    && (forall from, change :: MadeOnce(view, from, tr0, t, change) ==> MadeOnce(view, from, tr, t, change))
    && (forall from, wanted :: Saw(view, from, tr0, wanted) ==> Saw(view, from, tr, wanted))
  }

  lemma CalmTransitive<S(!new), A(!new), V(!new)>(view: S -> V, a: Trace<S, A>, b: Trace<S, A>, c: Trace<S, A>, t: nat)
    requires Calm(view, a, b, t) && Calm(view, b, c, t)
    ensures Calm(view, a, c, t)
  {
  }

  /** A step by another thread, or one that does not change the view, is calm. */
  lemma CalmStep<S(!new), A(!new), V(!new)>(view: S -> V, tr: Trace<S, A>, u: nat, a: A, s: S, t: nat)
    requires u != t || view(s) == view(tr.now)
    ensures Calm(view, tr, Then(tr, u, a, s), t)
  {
    var tr' := Then(tr, u, a, s);
    forall from | Quiet(view, from, tr, t) ensures Quiet(view, from, tr', t) {
      forall m | Within(from, m) && Within(m, tr') && m != from ensures Harmless(view, m, t) {
        if m != tr' { assert Within(m, tr); }
      }
    }
    forall from, change | MadeOnce(view, from, tr, t, change) ensures MadeOnce(view, from, tr', t, change) {
      var m :| Makes(view, m, t, change) && Quiet(view, from, m.before, t) && Quiet(view, m, tr, t);
      assert Quiet(view, m, tr', t);
    }
    forall from, wanted | Saw(view, from, tr, wanted) ensures Saw(view, from, tr', wanted) {
      var m :| Within(from, m) && Within(m, tr) && wanted(view(m.now));
      assert Within(m, tr');
    }
  }

  lemma NothingYet<S(!new), A(!new), V(!new)>(view: S -> V, tr: Trace<S, A>, t: nat)
    ensures Quiet(view, tr, tr, t)
  {
    forall m | Within(tr, m) && Within(m, tr) ensures m == tr {
      WithinAntisymmetric(m, tr);
    }
  }

  lemma MakeStep<S(!new), A(!new), V(!new)>(view: S -> V, from: Trace<S, A>, m: Trace<S, A>, t: nat, change: (V, V) -> bool)
    requires Makes(view, m, t, change) && Quiet(view, from, m.before, t)
    ensures MadeOnce(view, from, m, t, change)
  {
    NothingYet(view, m, t);
  }

  lemma MadeOnceSince<S(!new), A(!new), V(!new)>(view: S -> V, from: Trace<S, A>, tr: Trace<S, A>, t: nat, change: (V, V) -> bool)
    ensures MadeOnce(view, from, tr, t, change) ==> Within(from, tr)
  {
    if m :| Makes(view, m, t, change) && Quiet(view, from, m.before, t) && Quiet(view, m, tr, t) {
      assert Within(from, m);
      WithinTransitive(from, m, tr);
    }
  }
}
