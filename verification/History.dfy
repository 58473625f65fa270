/** Runs of a concurrent program as values: the state after each atomic step, who took the
    step and which one it was, latest step outermost. A moment of a run is the part of the
    run up to that moment. */
module History {

  datatype Trace<+S, +A> =
    | Start(now: S)
    | Then(before: Trace<S, A>, who: nat, act: A, now: S)

  /** Moment `m` is not later than the end of `tr`. */
  ghost predicate Within<S, A>(m: Trace<S, A>, tr: Trace<S, A>)
    decreases tr
  {
    m == tr || (tr.Then? && Within(m, tr.before))
  }

  lemma {:induction false} WithinTransitive<S, A>(a: Trace<S, A>, b: Trace<S, A>, c: Trace<S, A>)
    requires Within(a, b) && Within(b, c)
    ensures Within(a, c)
    decreases c
  {
    if b != c { WithinTransitive(a, b, c.before); }
  }

  lemma {:induction false} NotAfter<S, A>(m: Trace<S, A>, tr: Trace<S, A>)
    requires Within(m, tr)
    ensures m == tr || m < tr
    decreases tr
  {
    if m != tr { NotAfter(m, tr.before); }
  }

  lemma WithinAntisymmetric<S, A>(a: Trace<S, A>, b: Trace<S, A>)
    requires Within(a, b) && Within(b, a)
    ensures a == b
  {
    NotAfter(a, b);
    NotAfter(b, a);
  }

  lemma NotInOwnPast<S, A>(from: Trace<S, A>, tr: Trace<S, A>)
    requires tr.Then? && Within(from, tr.before)
    ensures from != tr
  {
    NotAfter(from, tr.before);
  }

  // ---------------------------------------------------------------- runs of a state machine

  /** Either nothing has happened and the state is one to begin with, or the last step is one that
      the machine can take. */
  ghost predicate Follows<S, A>(first: S -> bool, step: (S, nat, A, S) -> bool, m: Trace<S, A>) {
    match m
    case Start(s) => first(s)
    case Then(before, t, a, s) => step(before.now, t, a, s)
  }

  /** Every state of the run is one to begin with or follows from the one before by a step of some
      thread. */
  ghost predicate IsRunOf<S(!new), A(!new)>(first: S -> bool, step: (S, nat, A, S) -> bool, tr: Trace<S, A>) {
    forall m {:trigger Follows(first, step, m)} :: Within(m, tr) ==> Follows(first, step, m)
  }

  lemma RunBegins<S(!new), A(!new)>(first: S -> bool, step: (S, nat, A, S) -> bool, s: S)
    requires first(s)
    ensures IsRunOf<S, A>(first, step, Start(s))
  {
    forall m: Trace<S, A> | Within(m, Start(s)) ensures Follows(first, step, m) {}
  }

  lemma RunGoesOn<S(!new), A(!new)>(first: S -> bool, step: (S, nat, A, S) -> bool, tr: Trace<S, A>, t: nat, a: A, s: S)
    requires IsRunOf(first, step, tr) && step(tr.now, t, a, s)
    ensures IsRunOf(first, step, Then(tr, t, a, s))
  {
    forall m | Within(m, Then(tr, t, a, s)) ensures Follows(first, step, m) {
      if Within(m, tr) { assert Follows(first, step, m); }
    }
  }

  lemma RunPrefix<S(!new), A(!new)>(first: S -> bool, step: (S, nat, A, S) -> bool, m: Trace<S, A>, tr: Trace<S, A>)
    requires IsRunOf(first, step, tr) && Within(m, tr)
    ensures IsRunOf(first, step, m)
  {
    forall i | Within(i, m) ensures Follows(first, step, i) {
      WithinTransitive(i, m, tr);
    }
  }

  lemma LastStep<S(!new), A(!new)>(first: S -> bool, step: (S, nat, A, S) -> bool, tr: Trace<S, A>)
    requires IsRunOf(first, step, tr)
    ensures tr.Start? ==> first(tr.now)
    ensures tr.Then? ==> IsRunOf(first, step, tr.before) && step(tr.before.now, tr.who, tr.act, tr.now)
  {
    assert Within(tr, tr) && Follows(first, step, tr);
    if tr.Then? {
      assert Within(tr.before, tr);
      RunPrefix(first, step, tr.before, tr);
    }
  }

  /** What holds at the beginning and is kept by every step holds in every state of every run. */
  lemma {:induction false} RunKeeps<S(!new), A(!new)>(first: S -> bool, step: (S, nat, A, S) -> bool, inv: S -> bool, tr: Trace<S, A>)
    requires IsRunOf(first, step, tr)
    requires forall s :: first(s) ==> inv(s)
    requires forall s, t, a, s' :: inv(s) && step(s, t, a, s') ==> inv(s')
    ensures inv(tr.now)
    decreases tr
  {
    LastStep(first, step, tr);
    if tr.Then? { RunKeeps(first, step, inv, tr.before); }
  }
}
