/** The optimised variant of Harris's list: the same nodes and the same atomic steps, but a search
    that unlinks one marked node at a time and ignores whether that worked, and a find that
    writes nothing. */
module HarrisOpt {
  import opened History
  import opened ListModel
  import opened H = HarrisList
  import Calls

  /** Where the traversal stands: `right` was on the chain at moment `m`, right behind a node
      whose key was below the wanted one; or the key was absent at some moment already. */
  ghost predicate Reached(from: Run, m: Run, tr: Run, p: Ref, right: Ref, key: int) {
    && Within(from, m) && Within(m, tr) && OnChain(m.now, right) && right != HEAD && In(tr.now, right)
    && ((Stands(m.now, p, right) && m.now[p].key < key) || SawAbsent(from, tr, key))
  }

  lemma ReachedStays(from: Run, m: Run, tr: Run, tr': Run, p: Ref, right: Ref, key: int)
    requires IsRun(tr') && Reached(from, m, tr, p, right, key) && Within(tr, tr')
    ensures Reached(from, m, tr', p, right, key)
  {
    WithinTransitive(m, tr, tr');
    RunIsTame(tr, tr');
    TameKeeps(tr, tr', right);
    if SawAbsent(from, tr, key) { AbsentGrows(from, tr, tr', key); }
  }

  /** What the node reached says about the key: if it is a larger one, or has the key and is
      marked, the key was absent at a moment of the call. */
  lemma ReachedAnswers(from: Run, m: Run, tr: Run, p: Ref, right: Ref, key: int)
    requires IsRun(tr) && Reached(from, m, tr, p, right, key) && In(tr.now, TAIL) && key < tr.now[TAIL].key
    requires key <= tr.now[right].key && (tr.now[right].key == key ==> tr.now[right].marked)
    ensures SawAbsent(from, tr, key)
  {
    RunIsTame(m, tr);
    TameKeeps(m, tr, right);
    TameKeeps(m, tr, TAIL);
    if Stands(m.now, p, right) && m.now[p].key < key { TraversalVerdict(from, m, tr, p, right, key); }
  }

  /** An unmarked node with the key is in the set right now. */
  lemma UnmarkedIsBound(from: Run, tr: Run, n: Ref, key: int)
    requires IsRun(tr) && Within(from, tr) && In(tr.now, n) && !tr.now[n].marked && tr.now[n].key == key
    requires 2 <= |tr.now| && tr.now[HEAD].key < key < tr.now[TAIL].key
    ensures SawBinding(from, tr, key, tr.now[n].val)
  {
    RunIsTame(tr, tr);
    assert Counts(tr.now, n);
    assert Within(tr, tr);
  }

  /** An unmarked node that is not below the key decides it. */
  lemma UnmarkedAnswers(from: Run, m: Run, tr: Run, p: Ref, right: Ref, key: int)
    requires IsRun(tr) && Reached(from, m, tr, p, right, key) && 2 <= |tr.now| && tr.now[HEAD].key < key < tr.now[TAIL].key
    requires key <= tr.now[right].key && !tr.now[right].marked
    ensures if tr.now[right].key == key then SawBinding(from, tr, key, tr.now[right].val) else SawAbsent(from, tr, key)
  {
    WithinTransitive(from, m, tr);
    if tr.now[right].key == key {
      UnmarkedIsBound(from, tr, right, key);
    } else {
      ReachedAnswers(from, m, tr, p, right, key);
    }
  }

  /** One step of the traversal, from a node that is below the key or has been shown to be no
      answer. */
  lemma ReachedNext(from: Run, m: Run, tr: Run, p: Ref, right: Ref, key: int) returns (m': Run)
    requires IsRun(tr) && Reached(from, m, tr, p, right, key) && right != TAIL
    requires tr.now[right].key < key || SawAbsent(from, tr, key)
    ensures Reached(from, m', tr, right, tr.now[right].next, key) && PointsUp(tr.now, right)
  {
    RunIsTame(m, tr);
    m' := TraversalStep(m, tr, right);
    WithinTransitive(from, m, m');
    TameKeeps(m, tr, right);
  }

  lemma FirstReached(from: Run, tr: Run, key: int)
    requires IsRun(tr) && Within(from, tr) && 2 <= |tr.now| && tr.now[HEAD].key < key && Stands(tr.now, HEAD, tr.now[HEAD].next)
    ensures Reached(from, tr, tr, HEAD, tr.now[HEAD].next, key)
  {
    assert Within(tr, tr);
  }

  // ---------------------------------------------------------------- one attempt to unlink

  ghost predicate UnlinksNow(m: Run, t: nat, left: Ref, right: Ref) {
    m.Then? && m.who == t && m.act.Snip? && m.act.left == left && m.act.cut == [right]
  }

  /** One step since was thread `t`'s CAS that unlinked `right`, and only it, from behind `left`. */
  ghost predicate Unlinked(from: Run, tr: Run, t: nat, left: Ref, right: Ref) {
    exists m :: Within(from, m) && from != m && Within(m, tr) && UnlinksNow(m, t, left, right)
  }

  /** There was a moment at which the CAS behind `left` had to fail. */
  ghost predicate SawApart(from: Run, tr: Run, left: Ref, right: Ref) {
    exists m :: Within(from, m) && Within(m, tr) && !Clean(m.now, left, right)
  }

  lemma UnlinkedNow(from: Run, m: Run, tr: Run, t: nat, left: Ref, right: Ref)
    requires Within(from, m) && Calls.Own(from, t) < Calls.Own(m, t) && UnlinksNow(m, t, left, right) && Within(m, tr)
    ensures Unlinked(from, tr, t, left, right)
  {
  }

  /** A thread that has taken no step has unlinked nothing. */
  lemma PausedUnlinksNothing(from: Run, tr: Run, t: nat, left: Ref, right: Ref)
    requires Calls.Own(tr, t) == Calls.Own(from, t)
    ensures !Unlinked(from, tr, t, left, right)
  {
    if Unlinked(from, tr, t, left, right) {
      var m :| Within(from, m) && from != m && Within(m, tr) && UnlinksNow(m, t, left, right);
      Calls.OwnStepCounts(from, m, tr, t);
    }
  }

  class HarrisOpt {
    const list: H.HarrisList

    constructor (min: int, max: int)
      requires min < max
      ensures fresh(list) && list.Valid() && Bindings(list.heap) == {} && list.min == min && list.max == max
    {
      list := new H.HarrisList(min, max);
    }

    /** One attempt to unlink the marked node behind `left`; whoever unlinks it frees it. The answer
        tells exactly whether this thread did: if so the node is retired by now, and if not there
        was a moment at which it did not stand behind an unmarked `left`. */
    method PhysicalDeleteRight(t: nat, left: Ref, right: Ref) returns (removed: bool)
      requires list.Valid() && Pending(list.heap, t) == {}
      requires In(list.heap, left) && left != TAIL && In(list.heap, right) && right != TAIL && list.heap[right].marked
      modifies list
      ensures list.Valid() && Pending(list.heap, t) == {} && Calm(old(list.tr), list.tr, t) && Carried(old(list.heap), list.heap)
      ensures removed <==> Unlinked(old(list.tr), list.tr, t, left, right)
      ensures if removed then list.heap[right].lock == Retired else SawApart(old(list.tr), list.tr, left, right)
      ensures Calls.Alone(old(list.tr), list.tr, t) ==>
        && (removed <==> Clean(old(list.heap), left, right))
        && (removed ==> Clean(list.heap, left, list.heap[right].next))
    {
      ghost var h0, tr0 := list.heap, list.tr;
      var next, mark := list.ReadNext(t, right);
      ghost var h1, tr1 := list.heap, list.tr;
      assert MarkedPath(list.heap, [right], next);
      removed := list.CasSnip(t, left, next, [right], right);
      ghost var h2, tr2 := list.heap, list.tr;
      CarriedTransitive(h0, h1, h2);
      CalmTransitive(tr0, tr1, tr2, t);
      if removed {
        assert Elements([right]) == {right} && MarkedLink(h2, [right], next, 0);
        list.Free(t, right);
        CarriedTransitive(h0, h2, list.heap);
        CalmTransitive(tr0, tr2, list.tr, t);
        UnlinkedNow(tr0, tr2, list.tr, t, left, right);
      } else {
        PausedUnlinksNothing(tr0, tr2, t, left, right);
        assert Within(tr2, tr2);
      }
    }

    /** list_search: the first node not below the key that it finds unmarked, and the last
        unmarked node before it that it has passed. The two need not be neighbours, but if nobody
        disturbs the search, they are, and both unmarked: it has unlinked what it met in between. */
    method ListSearch(t: nat, key: int, ghost from: Run) returns (left: Ref, right: Ref)
      requires list.Valid() && list.min < key < list.max && Pending(list.heap, t) == {} && Within(from, list.tr)
      modifies list
      ensures list.Valid() && Pending(list.heap, t) == {} && Calm(old(list.tr), list.tr, t) && Carried(old(list.heap), list.heap)
      ensures In(list.heap, left) && left != TAIL && In(list.heap, right) && list.heap[left].key < key <= list.heap[right].key
      ensures if list.heap[right].key == key then SawBinding(from, list.tr, key, list.heap[right].val) else SawAbsent(from, list.tr, key)
      ensures Calls.Alone(old(list.tr), list.tr, t) ==> Tidy(list.heap, left, right)
    {
      ghost var h0, tr0 := list.heap, list.tr;
      left := HEAD;
      var mark;
      right, mark := list.ReadNext(t, HEAD);
      WithinTransitive(from, tr0, list.tr);
      FirstReached(from, list.tr, key);
      ghost var m, p := list.tr, HEAD;
      while true
        invariant list.Valid() && Pending(list.heap, t) == {} && Calm(tr0, list.tr, t) && Carried(h0, list.heap)
        invariant In(list.heap, left) && left != TAIL && list.heap[left].key < key
        invariant Calls.Alone(tr0, list.tr, t) ==> Clean(list.heap, left, right)
        invariant Reached(from, m, list.tr, p, right, key)
        decreases list.max - list.heap[right].key
      {
        ghost var h1, tr1 := list.heap, list.tr;
        var found;
        found, left := LookAt(t, key, left, right, m, p, from);
        CalmTransitive(tr0, tr1, list.tr, t);
        CarriedTransitive(h0, h1, list.heap);
        if found { break; }
        ghost var h2, tr2 := list.heap, list.tr;
        var next;
        next, mark := list.ReadNext(t, right);
        CalmTransitive(tr0, tr2, list.tr, t);
        CarriedTransitive(h0, h2, list.heap);
        ReachedStays(from, m, tr2, list.tr, p, right, key);
        StillAbsent(from, tr2, list.tr, key);
        m := ReachedNext(from, m, list.tr, p, right, key);
        p, right := right, next;
      }
    }

    /** The body of the loop: whether the node is the one looked for; if it is marked, tries to
        unlink it, and otherwise it becomes the left node. */
    method LookAt(t: nat, key: int, left0: Ref, right: Ref, ghost m: Run, ghost p: Ref, ghost from: Run)
      returns (found: bool, left: Ref)
      requires list.Valid() && list.min < key < list.max && Pending(list.heap, t) == {}
      requires In(list.heap, left0) && left0 != TAIL && list.heap[left0].key < key && Reached(from, m, list.tr, p, right, key)
      modifies list
      ensures list.Valid() && Pending(list.heap, t) == {} && Calm(old(list.tr), list.tr, t) && Carried(old(list.heap), list.heap)
      ensures In(list.heap, left) && left != TAIL && list.heap[left].key < key && Reached(from, m, list.tr, p, right, key)
      ensures found ==> key <= list.heap[right].key
      ensures found ==> if list.heap[right].key == key then SawBinding(from, list.tr, key, list.heap[right].val) else SawAbsent(from, list.tr, key)
      ensures !found ==> right != TAIL && (list.heap[right].key < key || SawAbsent(from, list.tr, key))
      ensures Calls.Alone(old(list.tr), list.tr, t) && Clean(old(list.heap), left0, right) ==>
        if found then Tidy(list.heap, left, right) else Clean(list.heap, left, list.heap[right].next)
    {
      ghost var tr0, h0 := list.tr, list.heap;
      var next, mark := list.ReadNext(t, right);
      ReachedStays(from, m, tr0, list.tr, p, right, key);
      WithinTransitive(from, m, list.tr);
      found, left := false, left0;
      if !mark {
        if list.heap[right].key >= key {
          found := true;
          UnmarkedAnswers(from, m, list.tr, p, right, key);
        } else {
          left := right;
        }
      } else {
        if key <= list.heap[right].key { ReachedAnswers(from, m, list.tr, p, right, key); }
        ghost var tr1, h1 := list.tr, list.heap;
        var removed := PhysicalDeleteRight(t, left, right);
        ReachedStays(from, m, tr1, list.tr, p, right, key);
        StillAbsent(from, tr1, list.tr, key);
        CalmTransitive(tr0, tr1, list.tr, t);
        CarriedTransitive(h0, h1, list.heap);
      }
    }

    /** harris_find: goes on reading until the key is reached; writes nothing and never waits. */
    method HarrisFind(t: nat, key: int) returns (val: int)
      requires list.Valid() && list.min < key < list.max && Pending(list.heap, t) == {}
      modifies list
      ensures list.Valid() && Pending(list.heap, t) == {} && Calm(old(list.tr), list.tr, t)
      ensures SawBinding(old(list.tr), list.tr, key, val) || (val == 0 && SawAbsent(old(list.tr), list.tr, key))
    {
      ghost var from := list.tr;
      var node, mark := list.ReadNext(t, HEAD);
      FirstReached(from, list.tr, key);
      ghost var m, p := list.tr, HEAD;
      while list.heap[node].key < key
        invariant list.Valid() && Pending(list.heap, t) == {} && Calm(from, list.tr, t) && Reached(from, m, list.tr, p, node, key)
        decreases list.max - list.heap[node].key
      {
        ghost var tr1 := list.tr;
        var next;
        next, mark := list.ReadNext(t, node);
        CalmTransitive(from, tr1, list.tr, t);
        ReachedStays(from, m, tr1, list.tr, p, node, key);
        m := ReachedNext(from, m, list.tr, p, node, key);
        p, node := node, next;
      }
      ghost var tr2 := list.tr;
      val := 0;
      if list.heap[node].key == key {
        var next;
        next, mark := list.ReadNext(t, node);
        CalmTransitive(from, tr2, list.tr, t);
        ReachedStays(from, m, tr2, list.tr, p, node, key);
        if !mark {
          val := list.heap[node].val;
          UnmarkedIsBound(from, list.tr, node, key);
          return;
        }
      }
      ReachedAnswers(from, m, list.tr, p, node, key);
    }

    /** Inserts the pair: 1 when it was added, 0 when the key was there; None when the call has
        not returned within `rounds` rounds, each of which another thread has disturbed. */
    method HarrisInsert(t: nat, key: int, val: int, rounds: nat) returns (r: Option<int>)
      requires list.Valid() && list.min < key < list.max && Pending(list.heap, t) == {}
      modifies list
      ensures list.Valid() && Pending(list.heap, t) == {}
      ensures match r
        case Some(1) => Added(old(list.tr), list.tr, t, key, val)
        case Some(n) => n == 0 && Quiet(old(list.tr), list.tr, t) && SawPresent(old(list.tr), list.tr, key)
        case None => Quiet(old(list.tr), list.tr, t) && Disturbed(old(list.tr), list.tr, t, rounds)
    {
      ghost var from := list.tr;
      var n := rounds;
      NothingYet(list.tr, t);
      while n > 0
        invariant list.Valid() && Pending(list.heap, t) == {} && Quiet(from, list.tr, t)
        invariant n <= rounds && Disturbed(from, list.tr, t, rounds - n)
      {
        var left, right := ListSearch(t, key, from);
        if list.heap[right].key == key { return Some(0); }
        var ok := list.CasLink(t, left, right, key, val, Allocated, from);
        if ok { return Some(1); }
        n := n - 1;
      }
      r := None;
    }

    /** Removes the key: its value, or 0 when it was absent; None when the call has not returned
        within `rounds` rounds, each of which another thread has disturbed. Unlinking the marked
        node is tried once: it is off the list in the end unless somebody else has taken a step. */
    method HarrisRemove(t: nat, key: int, rounds: nat) returns (r: Option<int>)
      requires list.Valid() && list.min < key < list.max && Pending(list.heap, t) == {}
      modifies list
      ensures list.Valid() && Pending(list.heap, t) == {}
      ensures match r
        case Some(v) => Removed(old(list.tr), list.tr, t, key, v) || (v == 0 && Quiet(old(list.tr), list.tr, t) && SawAbsent(old(list.tr), list.tr, key))
        case None => Quiet(old(list.tr), list.tr, t) && Disturbed(old(list.tr), list.tr, t, rounds)
      ensures Calls.Alone(old(list.tr), list.tr, t) && r.Some? ==>
        RemovedForGood(old(list.tr), list.tr, t, key, r.value) || (r.value == 0 && Quiet(old(list.tr), list.tr, t) && SawAbsent(old(list.tr), list.tr, key))
    {
      ghost var from := list.tr;
      var n := rounds;
      NothingYet(list.tr, t);
      while n > 0
        invariant list.Valid() && Pending(list.heap, t) == {} && Quiet(from, list.tr, t)
        invariant n <= rounds && Disturbed(from, list.tr, t, rounds - n)
      {
        var left, right := ListSearch(t, key, from);
        if list.heap[right].key != key { return Some(0); }
        var next, mark := list.ReadNext(t, right);
        var ok := list.CasMark(t, right, next, key, from);
        if ok {
          var ret := list.heap[right].val;
          ghost var tr1 := list.tr;
          var removed := PhysicalDeleteRight(t, left, right);
          MarkedSinceStays(from, tr1, list.tr, t, right, key, ret);
          RunIsTame(list.tr, list.tr);
          return Some(ret);
        }
        n := n - 1;
      }
      r := None;
    }
  }

  lemma StillAbsent(from: Run, tr: Run, tr': Run, key: int)
    requires Within(tr, tr')
    ensures SawAbsent(from, tr, key) ==> SawAbsent(from, tr', key)
  {
    if SawAbsent(from, tr, key) { AbsentGrows(from, tr, tr', key); }
  }
}
