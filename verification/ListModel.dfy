/** The sorted linked list that the list-based sets share: a heap of nodes between two
    sentinels, what a reader can reach from the head, the set of bindings the reachable nodes
    stand for, and what one atomic step may do to a heap if searches without locks are to
    stay correct (the hindsight argument). */
module ListModel {
  import opened History
  import C = Calls
  import S = SetCalls

  /** Addresses are positions in the heap; allocation appends, so an address is never reused. */
  type Ref = int

  const NULL: Ref := -1
  const HEAD: Ref := 0
  const TAIL: Ref := 1

  /** One list node. `L` is whatever the algorithm keeps in the node's lock word. */
  datatype Cell<+L> = Cell(key: int, val: int, next: Ref, marked: bool, lock: L)

  type Heap<+L> = seq<Cell<L>>

  datatype Option<+T> = None | Some(value: T)

  predicate In<L>(h: Heap<L>, r: Ref) {
    0 <= r < |h|
  }

  /** Node `r` points to a node with a larger key. */
  predicate PointsUp<L>(h: Heap<L>, r: Ref) {
    In(h, r) && In(h, h[r].next) && h[r].key < h[h[r].next].key
  }

  function Distance<L>(h: Heap<L>, a: Ref): nat {
    if In(h, a) && In(h, TAIL) && h[a].key < h[TAIL].key then h[TAIL].key - h[a].key else 0
  }

  /** Following next from `a`, one meets `r` before the keys stop growing. */
  predicate Reaches<L>(h: Heap<L>, a: Ref, r: Ref)
    decreases Distance(h, a)
  {
    && In(h, a) && In(h, TAIL)
    && (a == r || (PointsUp(h, a) && h[a].key < h[TAIL].key && Reaches(h, h[a].next, r)))
  }

  /** `r` is reachable from the head. */
  predicate OnChain<L>(h: Heap<L>, r: Ref) {
    In(h, r) && Reaches(h, HEAD, r)
  }

  /** A well-formed list: following next from the head one gets to the tail, the sentinels are
      never marked and every other key lies strictly between theirs. */
  ghost predicate Good<L>(h: Heap<L>) {
    && 2 <= |h|
    && OnChain(h, TAIL) && h[TAIL].next == NULL
    && !h[HEAD].marked && !h[TAIL].marked
    && (forall r :: 0 <= r < |h| && r != HEAD && r != TAIL ==> h[HEAD].key < h[r].key < h[TAIL].key)
  }

  /** Every next pointer, also that of an unlinked node, goes to a strictly larger key. */
  ghost predicate Ascending<L>(h: Heap<L>) {
    2 <= |h| && forall r :: 0 <= r < |h| && r != TAIL ==> PointsUp(h, r)
  }

  predicate Alive<L>(h: Heap<L>, r: Ref) {
    OnChain(h, r) && !h[r].marked
  }

  predicate Counts<L>(h: Heap<L>, r: Ref) {
    OnChain(h, r) && r != HEAD && r != TAIL && !h[r].marked
  }

  /** The key-value pairs the list stands for. */
  function Bindings<L>(h: Heap<L>): set<(int, int)> {
    set r | 0 <= r < |h| && Counts(h, r) :: (h[r].key, h[r].val)
  }

  ghost predicate Absent<L>(h: Heap<L>, key: int) {
    forall v :: (key, v) !in Bindings(h)
  }

  ghost predicate Present<L>(h: Heap<L>, key: int) {
    exists v :: (key, v) in Bindings(h)
  }

  // ---------------------------------------------------------------- walks

  lemma {:induction false} ReachesUp<L>(h: Heap<L>, a: Ref, r: Ref)
    requires Reaches(h, a, r)
    ensures In(h, r) && (a == r || h[a].key < h[r].key)
    decreases Distance(h, a)
  {
    if a != r { ReachesUp(h, h[a].next, r); }
  }

  /** The nodes a walk meets are ordered: of two of them, one is met after the other. */
  lemma {:induction false} ReachesLinear<L>(h: Heap<L>, a: Ref, r: Ref, s: Ref)
    requires Reaches(h, a, r) && Reaches(h, a, s)
    ensures Reaches(h, r, s) || Reaches(h, s, r)
    decreases Distance(h, a)
  {
    if a != r && a != s { ReachesLinear(h, h[a].next, r, s); }
  }

  lemma {:induction false} ReachesTransitive<L>(h: Heap<L>, a: Ref, r: Ref, s: Ref)
    requires Reaches(h, a, r) && Reaches(h, r, s)
    ensures Reaches(h, a, s)
    decreases Distance(h, a)
  {
    if a != r { ReachesTransitive(h, h[a].next, r, s); }
  }

  lemma ChainHasEnds<L>(h: Heap<L>)
    requires Good(h)
    ensures OnChain(h, HEAD) && OnChain(h, TAIL) && h[HEAD].key < h[TAIL].key
  {
    ReachesUp(h, HEAD, TAIL);
  }

  /** A node before the tail has a next node on the chain, with nothing in between. */
  lemma NextInChain<L>(h: Heap<L>, p: Ref)
    requires Good(h) && OnChain(h, p) && p != TAIL
    ensures PointsUp(h, p) && h[p].key < h[TAIL].key && OnChain(h, h[p].next) && h[p].next != HEAD
    ensures Reaches(h, p, h[p].next) && Reaches(h, h[p].next, TAIL)
  {
    ReachesLinear(h, HEAD, p, TAIL);
    if Reaches(h, TAIL, p) { ReachesUp(h, TAIL, p); }
    ReachesUp(h, p, TAIL);
    assert Reaches(h, h[p].next, h[p].next);
    ReachesTransitive(h, HEAD, p, h[p].next);
    ReachesUp(h, HEAD, p);
  }

  lemma SameKeySameNode<L>(h: Heap<L>, a: Ref, b: Ref)
    requires OnChain(h, a) && OnChain(h, b) && h[a].key == h[b].key
    ensures a == b
  {
    ReachesLinear(h, HEAD, a, b);
    if Reaches(h, a, b) { ReachesUp(h, a, b); } else { ReachesUp(h, b, a); }
  }

  /** Between two neighbours of the chain there is no key. */
  lemma GapAbsent<L>(h: Heap<L>, p: Ref, key: int)
    requires Good(h) && OnChain(h, p) && p != TAIL
    requires PointsUp(h, p) ==> h[p].key < key < h[h[p].next].key
    ensures Absent(h, key)
  {
    NextInChain(h, p);
    forall r | Counts(h, r) ensures h[r].key != key {
      ReachesLinear(h, HEAD, p, r);
      if Reaches(h, r, p) {
        ReachesUp(h, r, p);
      } else if r != p {
        ReachesUp(h, h[p].next, r);
      }
    }
  }

  /** The bindings form a map: a key has at most one value. */
  lemma BindingsFunctional<L>(h: Heap<L>, k: int, v: int, w: int)
    requires Good(h)
    requires (k, v) in Bindings(h) && (k, w) in Bindings(h)
    ensures v == w
  {
    var a: Ref :| Counts(h, a) && (h[a].key, h[a].val) == (k, v);
    assert Counts(h, a);
    var b: Ref :| Counts(h, b) && (h[b].key, h[b].val) == (k, w);
    assert Counts(h, b);
    SameKeySameNode(h, a, b);
  }

  /** A node of the chain that is marked hides its key. */
  lemma DeadAbsent<L>(h: Heap<L>, p: Ref)
    requires OnChain(h, p) && h[p].marked
    ensures Absent(h, h[p].key)
  {
    forall r | Counts(h, r) ensures h[r].key != h[p].key {
      if h[r].key == h[p].key { SameKeySameNode(h, r, p); }
    }
  }

  // ---------------------------------------------------------------- edits of the chain

  lemma AscendingFrame<L>(h: Heap<L>, h': Heap<L>)
    requires Ascending(h) && |h| <= |h'|
    requires forall r :: 0 <= r < |h| ==> h'[r].key == h[r].key
    requires forall r :: 0 <= r < |h'| && r != TAIL ==> (r < |h| && h'[r].next == h[r].next) || PointsUp(h', r)
    ensures Ascending(h')
  {
    forall r | 0 <= r < |h'| && r != TAIL ensures PointsUp(h', r) {
      if r < |h| { assert PointsUp(h, r); }
    }
  }

  lemma {:induction false} ReachesFrame<L>(h: Heap<L>, h': Heap<L>, a: Ref, r: Ref)
    requires 2 <= |h| <= |h'| && Reaches(h, a, TAIL)
    requires forall q :: 0 <= q < |h| ==> h'[q].key == h[q].key
    requires forall q :: Reaches(h, a, q) && In(h, q) && q != TAIL ==> h'[q].next == h[q].next
    requires h'[TAIL].next == h[TAIL].next == NULL
    ensures Reaches(h', a, r) <==> Reaches(h, a, r)
    decreases Distance(h, a)
  {
    if a != TAIL {
      ReachesFrame(h, h', h[a].next, r);
    }
  }

  /** A step that leaves key and next of every chain node alone leaves the chain alone. */
  lemma ChainFrame<L>(h: Heap<L>, h': Heap<L>)
    requires Good(h) && |h| <= |h'|
    requires forall q :: 0 <= q < |h| ==> h'[q].key == h[q].key
    requires forall q :: OnChain(h, q) ==> h'[q].next == h[q].next
    ensures forall r :: OnChain(h', r) <==> OnChain(h, r)
  {
    forall r ensures OnChain(h', r) <==> OnChain(h, r) {
      ReachesFrame(h, h', HEAD, r);
      if Reaches(h, HEAD, r) { ReachesUp(h, HEAD, r); }
    }
  }

  lemma {:induction false} ReachesLink<L>(h: Heap<L>, h': Heap<L>, a: Ref, p: Ref, cell: Cell<L>, r: Ref)
    requires 2 <= |h| && h[TAIL].next == NULL
    requires Reaches(h, a, p) && Reaches(h, a, TAIL) && p != TAIL && PointsUp(h, p) && cell.next == h[p].next
    requires h[p].key < cell.key < h[cell.next].key && Reaches(h, cell.next, TAIL)
    requires h' == h[p := h[p].(next := |h|)] + [cell]
    ensures Reaches(h', a, r) <==> Reaches(h, a, r) || r == |h|
    decreases Distance(h, a)
  {
    if a == p {
      ReachesUp(h, cell.next, TAIL);
      forall q | Reaches(h, cell.next, q) && In(h, q) ensures q != p {
        ReachesUp(h, cell.next, q);
      }
      ReachesFrame(h, h', cell.next, r);
      assert Reaches(h', |h|, r) <==> r == |h| || Reaches(h', cell.next, r);
      if Reaches(h, a, r) { ReachesUp(h, a, r); }
    } else {
      ReachesUp(h, a, p);
      ReachesLinear(h, a, p, TAIL); if !Reaches(h, p, TAIL) { ReachesUp(h, TAIL, p); }
      ReachesUp(h, p, TAIL);
      ReachesLink(h, h', h[a].next, p, cell, r);
    }
  }

  /** Linking a new node in behind a chain node. */
  lemma ChainLink<L>(h: Heap<L>, h': Heap<L>, p: Ref, cell: Cell<L>)
    requires Good(h) && OnChain(h, p) && p != TAIL && cell.next == h[p].next && In(h, cell.next)
    requires h[p].key < cell.key < h[cell.next].key
    requires h' == h[p := h[p].(next := |h|)] + [cell]
    ensures Good(h')
    ensures forall r :: OnChain(h', r) <==> OnChain(h, r) || r == |h|
    ensures Absent(h, cell.key)
  {
    NextInChain(h, p);
    GapAbsent(h, p, cell.key);
    forall r ensures OnChain(h', r) <==> OnChain(h, r) || r == |h| {
      ReachesLink(h, h', HEAD, p, cell, r);
    }
    ReachesUp(h, HEAD, p);
    ReachesUp(h, cell.next, TAIL);
  }

  /** `cut` is the run of nodes that lies between `p` and `last`. */
  predicate Segment<L>(h: Heap<L>, p: Ref, cut: seq<Ref>, last: Ref) {
    && In(h, p) && In(h, last) && 0 < |cut| && h[p].next == cut[0]
    && (forall k :: 0 <= k < |cut| ==> SegmentLink(h, cut, last, k))
  }

  predicate SegmentLink<L>(h: Heap<L>, cut: seq<Ref>, last: Ref, k: int) {
    0 <= k < |cut| && In(h, cut[k]) && cut[k] != TAIL && h[cut[k]].next == (if k + 1 < |cut| then cut[k + 1] else last)
  }

  /** A walk over the segment meets its nodes, each once, and then goes on from `last`. */
  lemma {:induction false} SegmentWalk<L>(h: Heap<L>, p: Ref, cut: seq<Ref>, last: Ref)
    requires 2 <= |h| && h[TAIL].next == NULL && p != TAIL && Segment(h, p, cut, last) && Reaches(h, p, TAIL)
    ensures forall r :: r in cut ==> In(h, r) && h[p].key < h[r].key < h[last].key && r != TAIL
    ensures forall r :: Reaches(h, p, r) <==> r == p || r in cut || Reaches(h, last, r)
    ensures Reaches(h, last, TAIL) && h[p].key < h[last].key
    ensures forall i, j :: 0 <= i < j < |cut| ==> cut[i] != cut[j]
    decreases |cut|
  {
    assert SegmentLink(h, cut, last, 0);
    var q := cut[0];
    if |cut| == 1 {
      ReachesUp(h, last, TAIL);
    } else {
      var rest := cut[1..];
      forall k | 0 <= k < |rest| ensures SegmentLink(h, rest, last, k) {
        assert SegmentLink(h, cut, last, k + 1);
      }
      SegmentWalk(h, q, rest, last);
      assert cut == [q] + rest;
    }
  }

  lemma {:induction false} ReachesSnip<L>(h: Heap<L>, h': Heap<L>, a: Ref, p: Ref, cut: seq<Ref>, last: Ref, r: Ref)
    requires 2 <= |h| && h[TAIL].next == NULL && p != TAIL
    requires Reaches(h, a, p) && Reaches(h, a, TAIL) && Segment(h, p, cut, last)
    requires h' == h[p := h[p].(next := last)]
    ensures Reaches(h', a, r) <==> Reaches(h, a, r) && r !in cut
    decreases Distance(h, a)
  {
    if a == p {
      SegmentWalk(h, p, cut, last);
      forall q | Reaches(h, last, q) && In(h, q) ensures q != p && q !in cut {
        ReachesUp(h, last, q);
      }
      ReachesUp(h, p, TAIL);
      ReachesFrame(h, h', last, r);
    } else {
      ReachesUp(h, a, p);
      ReachesLinear(h, a, p, TAIL);
      if !Reaches(h, p, TAIL) { ReachesUp(h, TAIL, p); }
      SegmentWalk(h, p, cut, last);
      ReachesUp(h, p, TAIL);
      ReachesSnip(h, h', h[a].next, p, cut, last, r);
    }
  }

  /** Swinging `p.next` over a whole segment removes exactly the segment from the chain. */
  lemma ChainSnip<L>(h: Heap<L>, h': Heap<L>, p: Ref, cut: seq<Ref>, last: Ref)
    requires Good(h) && OnChain(h, p) && p != TAIL && Segment(h, p, cut, last)
    requires h' == h[p := h[p].(next := last)]
    ensures Good(h') && PointsUp(h', p)
    ensures forall r :: OnChain(h', r) <==> OnChain(h, r) && r !in cut
    ensures forall r :: r in cut ==> OnChain(h, r)
    ensures HEAD !in cut && TAIL !in cut && p !in cut
    ensures forall i, j :: 0 <= i < j < |cut| ==> cut[i] != cut[j]
  {
    NextInChain(h, p);
    SegmentWalk(h, p, cut, last);
    forall r | r in cut ensures OnChain(h, r) {
      ReachesTransitive(h, HEAD, p, r);
    }
    forall r ensures OnChain(h', r) <==> OnChain(h, r) && r !in cut {
      ReachesSnip(h, h', HEAD, p, cut, last, r);
    }
    ReachesUp(h, HEAD, p);
  }

  // ---------------------------------------------------------------- what an edit does to the set

  /** The bindings gain exactly the new node's pair. */
  lemma BindingsGain<L>(h: Heap<L>, h': Heap<L>)
    requires |h'| == |h| + 1 && Counts(h', |h|)
    requires forall r :: OnChain(h', r) <==> OnChain(h, r) || r == |h|
    requires forall r :: 0 <= r < |h| ==> h'[r].key == h[r].key && h'[r].val == h[r].val && h'[r].marked == h[r].marked
    ensures Bindings(h') == Bindings(h) + {(h'[|h|].key, h'[|h|].val)}
  {
    forall r | Counts(h, r) ensures (h[r].key, h[r].val) in Bindings(h') {
      assert Counts(h', r);
    }
    forall r | Counts(h', r) && r != |h| ensures (h'[r].key, h'[r].val) in Bindings(h) {
      assert Counts(h, r);
    }
  }

  /** The bindings stay as they are when the same nodes count. */
  lemma BindingsSame<L>(h: Heap<L>, h': Heap<L>)
    requires forall r :: Counts(h, r) <==> Counts(h', r)
    requires forall r :: Counts(h, r) && In(h', r) ==> h'[r].key == h[r].key && h'[r].val == h[r].val
    ensures Bindings(h') == Bindings(h)
  {
    forall r | Counts(h, r) ensures (h[r].key, h[r].val) in Bindings(h') {
      assert Counts(h', r);
    }
    forall r | Counts(h', r) ensures (h'[r].key, h'[r].val) in Bindings(h) {
      assert Counts(h, r);
    }
  }

  /** The bindings lose exactly the pair of the one node that stops counting. */
  lemma BindingsLose<L>(h: Heap<L>, h': Heap<L>, p: Ref)
    requires Counts(h, p)
    requires forall r :: Counts(h', r) <==> Counts(h, r) && r != p
    requires forall r :: Counts(h, r) && In(h', r) ==> h'[r].key == h[r].key && h'[r].val == h[r].val
    ensures (h[p].key, h[p].val) in Bindings(h)
    ensures Bindings(h') == Bindings(h) - {(h[p].key, h[p].val)}
    ensures Absent(h', h[p].key)
  {
    forall r | Counts(h, r) && r != p ensures (h[r].key, h[r].val) in Bindings(h') && h[r].key != h[p].key {
      assert Counts(h', r);
      if h[r].key == h[p].key { SameKeySameNode(h, r, p); }
    }
    forall r | Counts(h', r) ensures (h'[r].key, h'[r].val) in Bindings(h) && h'[r].key != h[p].key {
      assert Counts(h, r) && r != p;
    }
  }

  // ---------------------------------------------------------------- runs and hindsight

  /** What every atomic step of the algorithms keeps: nodes are never lost, keys and values
      never change, only a node that is alive afterwards may have its next changed, and the
      step that ends a node's life leaves its key absent. */
  ghost predicate Evolves<L>(h: Heap<L>, h': Heap<L>) {
    && 2 <= |h| <= |h'|
    && (forall r :: 0 <= r < |h| ==> h'[r].key == h[r].key && h'[r].val == h[r].val)
    && (forall r :: 0 <= r < |h| && !Alive(h', r) ==> h'[r].next == h[r].next)
    && (forall r :: 0 <= r < |h| && Alive(h, r) && !Alive(h', r) ==> Absent(h', h[r].key))
  }

  /** The heaps differ at most in their lock words. */
  ghost predicate SameShape<L>(h: Heap<L>, h': Heap<L>) {
    && |h| == |h'|
    && (forall r :: 0 <= r < |h| ==> h'[r] == h[r].(lock := h'[r].lock))
  }

  lemma ShapeFrame<L>(h: Heap<L>, h': Heap<L>)
    requires Good(h) && Ascending(h) && SameShape(h, h')
    ensures Good(h') && Ascending(h') && Evolves(h, h') && Bindings(h') == Bindings(h)
    ensures forall r :: OnChain(h', r) <==> OnChain(h, r)
  {
    ChainFrame(h, h');
    BindingsSame(h, h');
    AscendingFrame(h, h');
  }

  /** A step followed by a change of lock words is one step as far as the list is concerned. */
  lemma EvolvesThenShape<L>(h: Heap<L>, h1: Heap<L>, h': Heap<L>)
    requires Evolves(h, h1) && Good(h1) && Ascending(h1) && SameShape(h1, h')
    ensures Evolves(h, h')
  {
    ShapeFrame(h1, h');
  }

  /** Linking a new node in: the set gains its pair. */
  lemma LinkEffect<L>(h: Heap<L>, h': Heap<L>, p: Ref, cell: Cell<L>)
    requires Good(h) && Ascending(h) && OnChain(h, p) && p != TAIL && cell.next == h[p].next && In(h, cell.next)
    requires !h[p].marked && !cell.marked && h[p].key < cell.key < h[cell.next].key
    requires h' == h[p := h[p].(next := |h|)] + [cell]
    ensures Good(h') && Ascending(h') && Evolves(h, h')
    ensures Absent(h, cell.key) && Bindings(h') == Bindings(h) + {(cell.key, cell.val)}
    ensures forall r :: OnChain(h', r) <==> OnChain(h, r) || r == |h|
  {
    ChainLink(h, h', p, cell);
    BindingsGain(h, h');
    AscendingFrame(h, h');
  }

  /** Marking a node of the chain: the set loses its pair, the chain stays. */
  lemma MarkEffect<L>(h: Heap<L>, h': Heap<L>, n: Ref)
    requires Good(h) && Ascending(h) && Counts(h, n) && h' == h[n := h[n].(marked := true)]
    ensures Good(h') && Ascending(h') && Evolves(h, h')
    ensures (h[n].key, h[n].val) in Bindings(h) && Bindings(h') == Bindings(h) - {(h[n].key, h[n].val)}
    ensures forall r :: OnChain(h', r) <==> OnChain(h, r)
  {
    ChainFrame(h, h');
    BindingsLose(h, h', n);
    AscendingFrame(h, h');
  }

  /** Cutting out marked nodes, however many: the set stays. */
  lemma SnipMarkedEffect<L>(h: Heap<L>, h': Heap<L>, p: Ref, cut: seq<Ref>, last: Ref)
    requires Good(h) && Ascending(h) && OnChain(h, p) && p != TAIL && !h[p].marked && Segment(h, p, cut, last)
    requires forall k :: 0 <= k < |cut| ==> SegmentLink(h, cut, last, k) && h[cut[k]].marked
    requires h' == h[p := h[p].(next := last)]
    ensures Good(h') && Ascending(h') && Evolves(h, h') && Bindings(h') == Bindings(h)
    ensures forall r :: OnChain(h', r) <==> OnChain(h, r) && r !in cut
    ensures HEAD !in cut && TAIL !in cut && p !in cut
  {
    ChainSnip(h, h', p, cut, last);
    forall r | r in cut ensures 0 <= r < |h| && h[r].marked {
      var k :| 0 <= k < |cut| && cut[k] == r;
      assert SegmentLink(h, cut, last, k);
    }
    BindingsSame(h, h');
    AscendingFrame(h, h');
  }

  /** Cutting out one unmarked node: the set loses its pair. */
  lemma UnlinkEffect<L>(h: Heap<L>, h': Heap<L>, p: Ref, c: Ref)
    requires Good(h) && Ascending(h) && OnChain(h, p) && p != TAIL && !h[p].marked
    requires h[p].next == c && c != TAIL && In(h, c) && !h[c].marked
    requires h' == h[p := h[p].(next := h[c].next)]
    ensures Good(h') && Ascending(h') && Evolves(h, h') && OnChain(h, c)
    ensures (h[c].key, h[c].val) in Bindings(h) && Bindings(h') == Bindings(h) - {(h[c].key, h[c].val)}
    ensures forall r :: OnChain(h', r) <==> OnChain(h, r) && r != c
  {
    NextInChain(h, p);
    assert PointsUp(h, c);
    ChainSnip(h, h', p, [c], h[c].next);
    BindingsLose(h, h', c);
    AscendingFrame(h, h');
  }

  /** From moment `from` on, the states are well formed and evolve step by step. */
  ghost predicate Tame<L(!new), A(!new)>(from: Trace<Heap<L>, A>, tr: Trace<Heap<L>, A>)
    decreases tr
  {
    Good(tr.now) && (from == tr || (tr.Then? && Evolves(tr.before.now, tr.now) && Tame(from, tr.before)))
  }

  lemma {:induction false} TameFrom<L(!new), A(!new)>(from: Trace<Heap<L>, A>, m: Trace<Heap<L>, A>, tr: Trace<Heap<L>, A>)
    requires Tame(from, tr) && Within(from, m) && Within(m, tr)
    ensures Tame(from, m) && Tame(m, tr)
    decreases tr
  {
    if m != tr {
      if from == tr { WithinAntisymmetric(from, m); } else { TameFrom(from, m, tr.before); }
    }
  }

  lemma {:induction false} TameKeeps<L(!new), A(!new)>(from: Trace<Heap<L>, A>, tr: Trace<Heap<L>, A>, p: Ref)
    requires Tame(from, tr) && In(from.now, p)
    ensures In(tr.now, p) && tr.now[p].key == from.now[p].key && tr.now[p].val == from.now[p].val
    decreases tr
  {
    if from != tr { TameKeeps(from, tr.before, p); }
  }

  lemma {:induction false} TameGood<L(!new), A(!new)>(from: Trace<Heap<L>, A>, tr: Trace<Heap<L>, A>)
    requires Tame(from, tr)
    ensures Good(from.now) && Good(tr.now)
    decreases tr
  {
    if from != tr { TameGood(from, tr.before); }
  }

  /** An invariant whose steps evolve the heap makes every run tame. */
  lemma {:induction false} RunTames<L(!new), A(!new)>(inv: Heap<L> -> bool, step: (Heap<L>, nat, A, Heap<L>) -> bool,
                                                      m: Trace<Heap<L>, A>, tr: Trace<Heap<L>, A>)
    requires IsRunOf(inv, step, tr) && Within(m, tr)
    requires forall h :: inv(h) ==> Good(h)
    requires forall h, t, a, h' :: inv(h) && step(h, t, a, h') ==> inv(h') && Evolves(h, h')
    ensures inv(tr.now) && inv(m.now) && Tame(m, tr)
    decreases tr
  {
    LastStep(inv, step, tr);
    if tr.Then? {
      RunTames(inv, step, if m == tr then tr.before else m, tr.before);
      if m != tr { NotInOwnPast(m, tr); }
    }
  }

  /** The node `p` is reachable and its next is `s`. */
  ghost predicate LinkedAt<L>(h: Heap<L>, p: Ref, s: Ref) {
    OnChain(h, p) && p != TAIL && h[p].next == s
  }

  /** Hindsight: whatever next pointer is read from a node that was reachable, there was a
      moment since then at which the node was reachable with that same next. */
  lemma {:induction false} Hindsight<L(!new), A(!new)>(from: Trace<Heap<L>, A>, tr: Trace<Heap<L>, A>, p: Ref)
    returns (m: Trace<Heap<L>, A>)
    requires Tame(from, tr) && OnChain(from.now, p) && p != TAIL
    ensures Within(from, m) && Within(m, tr) && Tame(m, tr)
    ensures In(tr.now, p) && LinkedAt(m.now, p, tr.now[p].next)
    decreases tr
  {
    TameKeeps(from, tr, p);
    if from == tr || Alive(tr.now, p) {
      m := tr;
      WithinEnd(from, tr);
    } else {
      m := Hindsight(from, tr.before, p);
    }
  }

  lemma {:induction false} WithinEnd<L(!new), A(!new)>(from: Trace<Heap<L>, A>, tr: Trace<Heap<L>, A>)
    requires Tame(from, tr)
    ensures Within(from, tr) && Tame(tr, tr)
    decreases tr
  {
    if from != tr { WithinEnd(from, tr.before); }
  }

  /** If a node was reachable and is not alive any more, its key was absent in between. */
  lemma {:induction false} DeathLeavesAbsent<L(!new), A(!new)>(from: Trace<Heap<L>, A>, tr: Trace<Heap<L>, A>, p: Ref)
    returns (m: Trace<Heap<L>, A>)
    requires Tame(from, tr) && OnChain(from.now, p) && !Alive(tr.now, p)
    ensures Within(from, m) && Within(m, tr) && Absent(m.now, from.now[p].key)
    decreases tr
  {
    TameKeeps(from, tr, p);
    if from == tr {
      m := tr;
      DeadAbsent(tr.now, p);
    } else {
      TameKeeps(from, tr.before, p);
      if Alive(tr.before.now, p) {
        m := tr;
        WithinEnd(from, tr);
      } else {
        m := DeathLeavesAbsent(from, tr.before, p);
      }
    }
  }

  /** Where a traversal stands: `s` was the next of `p`, on the chain. */
  ghost predicate Stands<L>(h: Heap<L>, p: Ref, s: Ref) {
    LinkedAt(h, p, s) && PointsUp(h, p) && OnChain(h, s) && s != HEAD
  }

  /** One step of a traversal that takes no lock, whatever happens to the list meanwhile. */
  lemma TraversalStep<L(!new), A(!new)>(from: Trace<Heap<L>, A>, tr: Trace<Heap<L>, A>, p: Ref) returns (m: Trace<Heap<L>, A>)
    requires Tame(from, tr) && OnChain(from.now, p) && p != TAIL
    ensures Within(from, m) && Within(m, tr) && Tame(m, tr)
    ensures In(tr.now, p) && Stands(m.now, p, tr.now[p].next) && PointsUp(tr.now, p)
    ensures tr.now[p].key == m.now[p].key == from.now[p].key
    ensures tr.now[tr.now[p].next].key == m.now[tr.now[p].next].key
  {
    m := Hindsight(from, tr, p);
    TameGood(m, tr);
    NextInChain(m.now, p);
    TameKeeps(from, tr, p);
    TameKeeps(m, tr, p);
    TameKeeps(m, tr, tr.now[p].next);
  }

  /** The answer of a traversal that ended between `p` and `s` is right: a node that is still
      alive when it is looked at holds the key at that moment, and otherwise there was a
      moment during the traversal at which the key was absent. */
  lemma TraversalAnswers<L(!new), A(!new)>(m: Trace<Heap<L>, A>, tr: Trace<Heap<L>, A>, p: Ref, s: Ref, key: int)
    requires Tame(m, tr) && Stands(m.now, p, s) && m.now[p].key < key <= m.now[s].key && key < m.now[TAIL].key
    ensures In(tr.now, s) && tr.now[s].key == m.now[s].key && tr.now[s].val == m.now[s].val
    ensures m.now[s].key == key && Alive(tr.now, s) ==> (key, tr.now[s].val) in Bindings(tr.now)
    ensures m.now[s].key == key && Alive(m.now, s) ==> (key, m.now[s].val) in Bindings(m.now)
    ensures m.now[s].key == key && !Alive(tr.now, s) ==> SawAbsent(m, tr, key)
    ensures m.now[s].key != key ==> Absent(m.now, key)
  {
    TameGood(m, tr);
    TameKeeps(m, tr, s);
    TameKeeps(m, tr, p);
    TameKeeps(m, tr, TAIL);
    if m.now[s].key == key {
      ReachesUp(m.now, HEAD, p);
      TameKeeps(m, tr, HEAD);
      if Alive(tr.now, s) {
        assert Counts(tr.now, s);
      } else {
        var i := DeathLeavesAbsent(m, tr, s);
      }
      if Alive(m.now, s) {
        assert Counts(m.now, s);
      }
    } else {
      GapAbsent(m.now, p, key);
    }
  }

  /** What a traversal since `from` may answer about the key, if it looked at `s` last. */
  lemma TraversalVerdict<L(!new), A(!new)>(from: Trace<Heap<L>, A>, m: Trace<Heap<L>, A>, tr: Trace<Heap<L>, A>,
                                           p: Ref, s: Ref, key: int)
    requires Within(from, m) && Within(m, tr) && Tame(m, tr)
    requires Stands(m.now, p, s) && m.now[p].key < key <= m.now[s].key && key < m.now[TAIL].key
    ensures In(tr.now, s)
    ensures m.now[s].key == key && Alive(tr.now, s) ==> SawBinding(from, tr, key, tr.now[s].val)
    ensures m.now[s].key == key && !Alive(tr.now, s) ==> SawAbsent(from, tr, key)
    ensures m.now[s].key != key ==> SawAbsent(from, tr, key)
  {
    TraversalAnswers(m, tr, p, s, key);
    WithinTransitive(from, m, tr);
    assert Within(tr, tr);
    if m.now[s].key == key && !Alive(tr.now, s) {
      var i :| Within(m, i) && Within(i, tr) && Absent(i.now, key);
      WithinTransitive(from, m, i);
    }
  }

  // ---------------------------------------------------------------- what a call did

  /** There was a moment from `from` on at which the key was absent. */
  ghost predicate SawAbsent<L(!new), A(!new)>(from: Trace<Heap<L>, A>, tr: Trace<Heap<L>, A>, key: int) {
    exists m :: Within(from, m) && Within(m, tr) && Absent(m.now, key)
  }

  /** There was a moment from `from` on at which the key was bound to the value. */
  ghost predicate SawBinding<L(!new), A(!new)>(from: Trace<Heap<L>, A>, tr: Trace<Heap<L>, A>, key: int, val: int) {
    exists m :: Within(from, m) && Within(m, tr) && (key, val) in Bindings(m.now)
  }

  /** There was a moment from `from` on at which the key was bound. */
  ghost predicate SawPresent<L(!new), A(!new)>(from: Trace<Heap<L>, A>, tr: Trace<Heap<L>, A>, key: int) {
    exists v :: SawBinding(from, tr, key, v)
  }

  /** From moment `from` on, no step of thread `t` changed the bindings. */
  ghost predicate Quiet<L(!new), A(!new)>(from: Trace<Heap<L>, A>, tr: Trace<Heap<L>, A>, t: nat) {
    C.Quiet(Bindings<L>, from, tr, t)
  }

  /** From moment `from` on, thread `t` changed the bindings by exactly one step, which added
      the pair, the key being absent before. */
  ghost predicate Added<L(!new), A(!new)>(from: Trace<Heap<L>, A>, tr: Trace<Heap<L>, A>, t: nat, key: int, val: int) {
    C.MadeOnce(Bindings<L>, from, tr, t, S.Adds(key, val))
  }

  /** From moment `from` on, thread `t` changed the bindings by exactly one step, which removed
      the pair. */
  ghost predicate Removed<L(!new), A(!new)>(from: Trace<Heap<L>, A>, tr: Trace<Heap<L>, A>, t: nat, key: int, val: int) {
    C.MadeOnce(Bindings<L>, from, tr, t, S.Removes(key, val))
  }

  /** The run went on from `tr0` to `tr` without thread `t` changing the set. */
  ghost predicate Calm<L(!new), A(!new)>(tr0: Trace<Heap<L>, A>, tr: Trace<Heap<L>, A>, t: nat) {
    C.Calm(Bindings<L>, tr0, tr, t)
  }

  lemma CalmTransitive<L(!new), A(!new)>(a: Trace<Heap<L>, A>, b: Trace<Heap<L>, A>, c: Trace<Heap<L>, A>, t: nat)
    requires Calm(a, b, t) && Calm(b, c, t)
    ensures Calm(a, c, t)
  {
    C.CalmTransitive(Bindings<L>, a, b, c, t);
  }

  /** A step by another thread, or one that changes no binding, is calm. */
  lemma CalmStep<L(!new), A(!new)>(tr: Trace<Heap<L>, A>, u: nat, a: A, h: Heap<L>, t: nat)
    requires u != t || Bindings(h) == Bindings(tr.now)
    ensures Calm(tr, Then(tr, u, a, h), t)
  {
    C.CalmStep(Bindings<L>, tr, u, a, h, t);
  }

  /** A step that adds a pair makes the call one that added it. */
  lemma AddStep<L(!new), A(!new)>(from: Trace<Heap<L>, A>, m: Trace<Heap<L>, A>, t: nat, key: int, val: int)
    requires m.Then? && m.who == t && Absent(m.before.now, key) && Bindings(m.now) == Bindings(m.before.now) + {(key, val)}
    requires Quiet(from, m.before, t)
    ensures Added(from, m, t, key, val)
  {
    var before := Bindings(m.before.now);
    forall x | x in before ensures x.0 != key { assert x == (x.0, x.1); }
    C.MakeStep(Bindings<L>, from, m, t, S.Adds(key, val));
  }

  lemma RemoveStep<L(!new), A(!new)>(from: Trace<Heap<L>, A>, m: Trace<Heap<L>, A>, t: nat, key: int, val: int)
    requires m.Then? && m.who == t && (key, val) in Bindings(m.before.now) && Bindings(m.now) == Bindings(m.before.now) - {(key, val)}
    requires Good(m.before.now) && Quiet(from, m.before, t)
    ensures Removed(from, m, t, key, val)
  {
    forall x | x in Bindings(m.now) ensures x.0 != key {
      if x.0 == key { BindingsFunctional(m.before.now, key, x.1, val); }
    }
    C.MakeStep(Bindings<L>, from, m, t, S.Removes(key, val));
  }

  lemma NothingYet<L(!new), A(!new)>(tr: Trace<Heap<L>, A>, t: nat)
    ensures Quiet(tr, tr, t)
  {
    C.NothingYet(Bindings<L>, tr, t);
  }

  lemma AddedSince<L(!new), A(!new)>(from: Trace<Heap<L>, A>, tr: Trace<Heap<L>, A>, t: nat, key: int, val: int)
    ensures Added(from, tr, t, key, val) ==> Within(from, tr)
  {
    C.MadeOnceSince(Bindings<L>, from, tr, t, S.Adds(key, val));
  }

  lemma RemovedSince<L(!new), A(!new)>(from: Trace<Heap<L>, A>, tr: Trace<Heap<L>, A>, t: nat, key: int, val: int)
    ensures Removed(from, tr, t, key, val) ==> Within(from, tr)
  {
    C.MadeOnceSince(Bindings<L>, from, tr, t, S.Removes(key, val));
  }

  /** What a call has seen, it has seen for good. */
  lemma PresentGrows<L(!new), A(!new)>(from: Trace<Heap<L>, A>, tr: Trace<Heap<L>, A>, tr': Trace<Heap<L>, A>, key: int)
    requires SawPresent(from, tr, key) && Within(tr, tr')
    ensures SawPresent(from, tr', key)
  {
    var v :| SawBinding(from, tr, key, v);
    var m :| Within(from, m) && Within(m, tr) && (key, v) in Bindings(m.now);
    WithinTransitive(m, tr, tr');
    assert SawBinding(from, tr', key, v);
  }

  lemma AbsentGrows<L(!new), A(!new)>(from: Trace<Heap<L>, A>, tr: Trace<Heap<L>, A>, tr': Trace<Heap<L>, A>, key: int)
    requires SawAbsent(from, tr, key) && Within(tr, tr')
    ensures SawAbsent(from, tr', key)
  {
    var m :| Within(from, m) && Within(m, tr) && Absent(m.now, key);
    WithinTransitive(m, tr, tr');
  }
}
