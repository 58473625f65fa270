/** The nodes of a skip list and their levels: which nodes are on which level, that every level
    is a sorted list between the sentinels contained in the level below, and what linking and
    unlinking a node at one level does to that. */
module SkipModel {
  import opened SetCalls
  import ListModel

  type Ref = int

  const NULL: Ref := -1
  const HEAD: Ref := 0
  const TAIL: Ref := 1

  datatype Owner = Free | By(who: nat)

  /** `levels` counts the levels on which the node is linked, from the bottom; `maker` is the
      thread that inserts it. Both are bookkeeping: the code never reads them. */
  datatype Node = Node(key: int, val: int, next: seq<Ref>, marked: bool, fully: bool, lock: Owner, levels: nat, maker: nat)

  type Nodes = seq<Node>

  predicate In(h: Nodes, r: Ref) {
    0 <= r < |h|
  }

  /** The node's number of levels. */
  function Height(h: Nodes, r: Ref): nat {
    if In(h, r) then |h[r].next| else 0
  }

  function Next(h: Nodes, r: Ref, i: int): Ref {
    if In(h, r) && 0 <= i < |h[r].next| then h[r].next[i] else NULL
  }

  /** Node `r` is linked on level `i`. */
  predicate At(h: Nodes, r: Ref, i: int) {
    In(h, r) && 0 <= i < h[r].levels
  }

  // ---------------------------------------------------------------- the invariant

  /** Next goes to a node of the same level with a larger key. */
  predicate Linked(h: Nodes, r: Ref, i: int) {
    At(h, r, i) && r != TAIL ==> At(h, Next(h, r, i), i) && h[r].key < h[Next(h, r, i)].key
  }

  /** No key of the level lies between a node and its next. */
  predicate NoneBetween(h: Nodes, r: Ref, i: int, q: Ref) {
    At(h, r, i) && At(h, q, i) && r != TAIL && h[r].key < h[q].key && In(h, Next(h, r, i)) ==> h[Next(h, r, i)].key <= h[q].key
  }

  predicate Distinct(h: Nodes, r: Ref, q: Ref) {
    At(h, r, 0) && At(h, q, 0) && h[r].key == h[q].key ==> r == q
  }

  /** Only a fully linked node is ever marked; a node that is neither being linked nor being
      removed is on all its levels, and a marked node that is still on some level is locked. */
  predicate NodeOk(h: Nodes, r: Ref) {
    && In(h, r) && h[r].levels <= |h[r].next| && 1 <= |h[r].next| <= Height(h, HEAD)
    && (h[r].marked ==> h[r].fully)
    && (!h[r].marked ==> 1 <= h[r].levels)
    && (h[r].fully && !h[r].marked ==> h[r].levels == |h[r].next|)
    && (h[r].marked && 0 < h[r].levels ==> h[r].lock != Free)
  }

  predicate SentinelsOk(h: Nodes) {
    && 2 <= |h| && 1 <= Height(h, HEAD) == Height(h, TAIL)
    && !h[HEAD].marked && !h[TAIL].marked && h[HEAD].fully && h[TAIL].fully
    && h[HEAD].key < h[TAIL].key
  }

  ghost predicate Shaped(h: Nodes) {
    && SentinelsOk(h)
    && (forall r :: 0 <= r < |h| ==> NodeOk(h, r))
    && (forall r :: 0 <= r < |h| && r != HEAD && r != TAIL ==> h[HEAD].key < h[r].key < h[TAIL].key)
    && (forall r, i {:trigger Linked(h, r, i)} :: Linked(h, r, i))
    && (forall r, i, q {:trigger NoneBetween(h, r, i, q)} :: NoneBetween(h, r, i, q))
    && (forall r, q {:trigger Distinct(h, r, q)} :: Distinct(h, r, q))
  }

  // ---------------------------------------------------------------- what the list stands for

  /** The node counts as an element: fully linked and not marked. */
  predicate Live(h: Nodes, r: Ref) {
    In(h, r) && r != HEAD && r != TAIL && h[r].fully && !h[r].marked
  }

  function Contents(h: Nodes): Pairs {
    set r | 0 <= r < |h| && Live(h, r) :: (h[r].key, h[r].val)
  }

  /** A linked node that is not an element keeps its key out of the set. */
  lemma NotLiveLacks(h: Nodes, n: Ref)
    requires Shaped(h) && At(h, n, 0) && !Live(h, n) && n != HEAD && n != TAIL
    ensures Lacks(Contents(h), h[n].key)
  {
    forall r | Live(h, r) ensures h[r].key != h[n].key {
      assert NodeOk(h, r) && Distinct(h, r, n);
    }
  }

  /** Two neighbours on a level leave no room for a key between theirs on that level, and on
      the lowest level none in the set. */
  lemma GapLacks(h: Nodes, p: Ref, i: int, key: int)
    requires Shaped(h) && At(h, p, i) && p != TAIL && In(h, Next(h, p, i))
    requires h[p].key < key < h[Next(h, p, i)].key
    ensures forall q {:trigger At(h, q, i)} :: At(h, q, i) ==> h[q].key != key
    ensures i == 0 ==> Lacks(Contents(h), key)
  {
    forall q | At(h, q, i) ensures h[q].key != key {
      assert NoneBetween(h, p, i, q);
    }
    if i == 0 {
      forall r | Live(h, r) ensures h[r].key != key {
        assert NodeOk(h, r) && At(h, r, 0);
      }
    }
  }

  /** At most one pair per key. */
  lemma ContentsFunctional(h: Nodes, k: int, v: int, w: int)
    requires Shaped(h) && (k, v) in Contents(h) && (k, w) in Contents(h)
    ensures v == w
  {
    var a: Ref :| Live(h, a) && (h[a].key, h[a].val) == (k, v);
    var b: Ref :| Live(h, b) && (h[b].key, h[b].val) == (k, w);
    assert Live(h, a) && Live(h, b);
    assert NodeOk(h, a) && NodeOk(h, b) && Distinct(h, a, b);
  }

  /** The set gains exactly the pair of the node that comes alive. */
  lemma ContentsGain(h: Nodes, h': Nodes, n: Ref)
    requires Shaped(h) && At(h, n, 0) && !Live(h, n) && Live(h', n) && |h'| == |h|
    requires forall r :: 0 <= r < |h| ==> h'[r].key == h[r].key && h'[r].val == h[r].val
    requires forall r :: 0 <= r < |h| && r != n ==> (Live(h', r) <==> Live(h, r))
    ensures Adds(h[n].key, h[n].val)(Contents(h), Contents(h'))
  {
    NotLiveLacks(h, n);
    forall x | x in Contents(h) ensures x in Contents(h') {
      var r :| 0 <= r < |h| && Live(h, r) && (h[r].key, h[r].val) == x;
      assert Live(h', r);
    }
    forall x | x in Contents(h') ensures x in Contents(h) + {(h[n].key, h[n].val)} {
      var r :| 0 <= r < |h'| && Live(h', r) && (h'[r].key, h'[r].val) == x;
      assert r != n ==> Live(h, r);
    }
    assert Contents(h') == Contents(h) + {(h[n].key, h[n].val)};
  }

  lemma ContentsLose(h: Nodes, h': Nodes, n: Ref)
    requires Shaped(h) && Live(h, n) && !Live(h', n) && |h'| == |h|
    requires forall r :: 0 <= r < |h| ==> h'[r].key == h[r].key && h'[r].val == h[r].val
    requires forall r :: 0 <= r < |h| && r != n ==> (Live(h', r) <==> Live(h, r))
    ensures Removes(h[n].key, h[n].val)(Contents(h), Contents(h'))
  {
    assert NodeOk(h, n);
    forall x | x in Contents(h') ensures x in Contents(h) && x.0 != h[n].key {
      var r :| 0 <= r < |h'| && Live(h', r) && (h'[r].key, h'[r].val) == x;
      assert r != n && Live(h, r);
      assert NodeOk(h, r) && Distinct(h, r, n);
    }
    forall x | x in Contents(h) && x != (h[n].key, h[n].val) ensures x in Contents(h') {
      var r :| 0 <= r < |h| && Live(h, r) && (h[r].key, h[r].val) == x;
      assert Live(h', r);
    }
    assert Contents(h') == Contents(h) - {(h[n].key, h[n].val)};
  }

  lemma ContentsSame(h: Nodes, h': Nodes)
    requires |h| <= |h'|
    requires forall r :: 0 <= r < |h| ==> h'[r].key == h[r].key && h'[r].val == h[r].val
    requires forall r :: Live(h', r) <==> Live(h, r)
    ensures Contents(h') == Contents(h)
  {
    forall x | x in Contents(h) ensures x in Contents(h') {
      var r :| 0 <= r < |h| && Live(h, r) && (h[r].key, h[r].val) == x;
      assert Live(h', r);
    }
    forall x | x in Contents(h') ensures x in Contents(h) {
      var r :| 0 <= r < |h'| && Live(h', r) && (h'[r].key, h'[r].val) == x;
      assert Live(h, r);
    }
  }

  // ---------------------------------------------------------------- linking and unlinking

  /** p.next[i] = n */
  function SetNext(h: Nodes, p: Ref, i: nat, n: Ref): Nodes
    requires In(h, p) && i < Height(h, p)
  {
    h[p := h[p].(next := h[p].next[i := n])]
  }

  /** What a step that links or unlinks nodes on no level keeps. */
  lemma ShapeFrame(h: Nodes, h': Nodes)
    requires Shaped(h) && |h'| == |h| && SentinelsOk(h')
    requires forall r :: 0 <= r < |h| ==> h'[r].key == h[r].key && h'[r].next == h[r].next && h'[r].levels == h[r].levels && NodeOk(h', r)
    ensures Shaped(h')
  {
    forall r, i ensures Linked(h', r, i) { assert Linked(h, r, i); }
    forall r, i, q ensures NoneBetween(h', r, i, q) { assert NoneBetween(h, r, i, q); }
    forall r, q ensures Distinct(h', r, q) { assert Distinct(h, r, q); }
  }

  /** The node `n`, new on level `i`, is linked in behind `p`. The heap `h` has `n` already, on
      the levels below. */
  ghost predicate Links(h: Nodes, h': Nodes, p: Ref, i: nat, n: Ref) {
    && At(h, p, i) && p != TAIL && In(h, n) && 0 < i && h[n].levels == i < Height(h, n) && !h[n].fully && i < Height(h, p)
    && h[n].next[i] == Next(h, p, i) && In(h, Next(h, p, i)) && h[p].key < h[n].key < h[Next(h, p, i)].key && n != TAIL
    && h' == (var s := SetNext(h, p, i, n); s[n := s[n].(levels := i + 1)])
  }

  lemma LinkGap(h: Nodes, h': Nodes, p: Ref, i: nat, n: Ref, r: Ref, k: int, q: Ref)
    requires Shaped(h) && Links(h, h', p, i, n)
    ensures NoneBetween(h', r, k, q)
  {
    assert NoneBetween(h, r, k, q) && Linked(h, r, k);
    if k == i {
      assert NoneBetween(h, p, k, q) && NoneBetween(h, r, k, p) && NoneBetween(h, p, k, r) && Distinct(h, r, p);
    }
  }

  lemma LinkShape(h: Nodes, h': Nodes, p: Ref, i: nat, n: Ref)
    requires Shaped(h) && Links(h, h', p, i, n)
    ensures Shaped(h')
  {
    assert NodeOk(h, p) && NodeOk(h, n) && n != p && Linked(h, p, i);
    forall r | 0 <= r < |h'| ensures NodeOk(h', r) { assert NodeOk(h, r); }
    forall r, k ensures Linked(h', r, k) { assert Linked(h, r, k); }
    forall r, q ensures Distinct(h', r, q) { assert Distinct(h, r, q); }
    forall r, k, q ensures NoneBetween(h', r, k, q) { LinkGap(h, h', p, i, n, r, k, q); }
  }

  /** A new node enters the heap, linked in behind `p` on the lowest level only. */
  ghost predicate Enters(h: Nodes, h': Nodes, p: Ref, node: Node) {
    && At(h, p, 0) && p != TAIL && In(h, Next(h, p, 0)) && 0 < Height(h, p)
    && h[p].key < node.key < h[Next(h, p, 0)].key
    && 1 <= |node.next| <= Height(h, HEAD) && node.next[0] == Next(h, p, 0)
    && node.levels == 1 && !node.marked && !node.fully
    && h' == SetNext(h, p, 0, |h|) + [node]
  }

  lemma EnterGap(h: Nodes, h': Nodes, p: Ref, node: Node, r: Ref, k: int, q: Ref)
    requires Shaped(h) && Enters(h, h', p, node)
    ensures NoneBetween(h', r, k, q)
  {
    if r == |h| {
      assert NoneBetween(h, p, k, q);
    } else if q == |h| && r != p {
      assert Linked(h, r, k) && NoneBetween(h, r, k, p) && NoneBetween(h, p, k, r) && Distinct(h, r, p);
    } else {
      assert NoneBetween(h, r, k, q) && NoneBetween(h, p, k, q);
    }
  }

  lemma EnterShape(h: Nodes, h': Nodes, p: Ref, node: Node)
    requires Shaped(h) && Enters(h, h', p, node)
    ensures Shaped(h')
  {
    assert NodeOk(h, p) && Linked(h, p, 0);
    forall r | 0 <= r < |h'| ensures NodeOk(h', r) { if r < |h| { assert NodeOk(h, r); } }
    forall r, k ensures Linked(h', r, k) { assert Linked(h, r, k); }
    forall r, q ensures Distinct(h', r, q) {
      if r == |h| { assert NoneBetween(h, p, 0, q); } else if q == |h| { assert NoneBetween(h, p, 0, r); } else { assert Distinct(h, r, q); }
    }
    forall r, k, q ensures NoneBetween(h', r, k, q) { EnterGap(h, h', p, node, r, k, q); }
  }

  /** The marked node `v` is taken off its highest level. */
  ghost predicate Unlinks(h: Nodes, h': Nodes, p: Ref, i: nat, v: Ref) {
    && At(h, p, i) && p != TAIL && i < Height(h, p) && Next(h, p, i) == v && In(h, v) && h[v].marked && h[v].levels == i + 1
    && h' == (var s := SetNext(h, p, i, Next(h, v, i)); s[v := s[v].(levels := i)])
  }

  lemma UnlinkGap(h: Nodes, h': Nodes, p: Ref, i: nat, v: Ref, r: Ref, k: int, q: Ref)
    requires Shaped(h) && Unlinks(h, h', p, i, v)
    ensures NoneBetween(h', r, k, q)
  {
    assert NoneBetween(h, r, k, q) && Linked(h, p, i);
    if k == i { assert NoneBetween(h, v, k, q) && Distinct(h, q, v); }
  }

  lemma UnlinkShape(h: Nodes, h': Nodes, p: Ref, i: nat, v: Ref)
    requires Shaped(h) && Unlinks(h, h', p, i, v)
    ensures Shaped(h')
  {
    assert NodeOk(h, p) && NodeOk(h, v) && Linked(h, p, i) && Linked(h, v, i);
    forall r | 0 <= r < |h'| ensures NodeOk(h', r) { assert NodeOk(h, r); }
    forall r, q ensures Distinct(h', r, q) { assert Distinct(h, r, q); }
    forall r, k ensures Linked(h', r, k) {
      assert Linked(h, r, k);
      if k == i { assert NoneBetween(h, r, k, p) && NoneBetween(h, p, k, r) && Distinct(h, r, p); }
    }
    forall r, k, q ensures NoneBetween(h', r, k, q) { UnlinkGap(h, h', p, i, v, r, k, q); }
  }

  // ---------------------------------------------------------------- levels are chains

  /** Level `i` on its own, as a linked list. */
  function Level(h: Nodes, i: nat): (l: ListModel.Heap<()>)
    ensures |l| == |h|
  {
    seq(|h|, r requires 0 <= r < |h| => ListModel.Cell(h[r].key, h[r].val, Next(h, r, i), h[r].marked, ()))
  }

  lemma {:induction false} LevelReaches(h: Nodes, i: nat, a: Ref, r: Ref)
    requires Shaped(h) && At(h, a, i) && In(h, r) && i < Height(h, HEAD)
    ensures ListModel.Reaches(Level(h, i), a, r) <==> At(h, r, i) && (r == a || h[a].key < h[r].key)
    decreases ListModel.Distance(Level(h, i), a)
  {
    var l := Level(h, i);
    assert NodeOk(h, HEAD) && NodeOk(h, TAIL) && Linked(h, a, i) && NoneBetween(h, a, i, r);
    assert At(h, TAIL, i);
    if a == TAIL {
      assert ListModel.PointsUp(l, a) ==> false by { assert Linked(h, a, i); }
    } else if a != r {
      var n := Next(h, a, i);
      assert ListModel.PointsUp(l, a);
      LevelReaches(h, i, n, r);
      if At(h, r, i) && h[r].key == h[n].key {
        assert Distinct(h, r, n);
      }
    }
  }

  /** What the counter says is what a reader finds: following next on level `i` from the head
      one meets exactly the nodes that are linked on that level. */
  lemma LevelIsChain(h: Nodes, i: nat, r: Ref)
    requires Shaped(h) && i < Height(h, HEAD) && In(h, r)
    ensures ListModel.OnChain(Level(h, i), r) <==> At(h, r, i)
  {
    assert NodeOk(h, HEAD);
    LevelReaches(h, i, HEAD, r);
    if At(h, r, i) && r != HEAD { assert Distinct(h, r, HEAD); }
  }

  /** Every node a reader can meet on a level, it can also meet on the level below. */
  lemma LevelsNest(h: Nodes, i: nat, r: Ref)
    requires Shaped(h) && 0 < i < Height(h, HEAD) && ListModel.OnChain(Level(h, i), r)
    ensures ListModel.OnChain(Level(h, i - 1), r)
  {
    LevelIsChain(h, i, r);
    LevelIsChain(h, i - 1, r);
  }
}
