/** The sequential skip list: one linked list per level, each a sorted part of the one below,
    whatever heights the nodes are given. */
module SkiplistSeq {
  import opened SetCalls
  import ListModel

  type Ref = int

  const NULL: Ref := -1
  const HEAD: Ref := 0
  const TAIL: Ref := 1

  datatype Node = Node(key: int, val: int, next: seq<Ref>)

  type Nodes = seq<Node>

  predicate In(h: Nodes, r: Ref) {
    0 <= r < |h|
  }

  function Next(h: Nodes, r: Ref, i: nat): Ref {
    if In(h, r) && i < |h[r].next| then h[r].next[i] else NULL
  }

  /** h[r].next[i] = n */
  function SetNext(h: Nodes, r: Ref, i: nat, n: Ref): Nodes
    requires In(h, r) && i < |h[r].next|
  {
    h[r := h[r].(next := h[r].next[i := n])]
  }

  // ---------------------------------------------------------------- one level

  /** On level `i`, next goes to a node of the level with a larger key. */
  predicate NodeAt(h: Nodes, s: set<Ref>, i: nat, r: Ref) {
    && In(h, r) && In(h, TAIL) && i < |h[r].next| && (r == TAIL || h[r].key < h[TAIL].key) && (r == HEAD || h[HEAD].key < h[r].key)
    && (r != TAIL ==> Next(h, r, i) in s && In(h, Next(h, r, i)) && h[r].key < h[Next(h, r, i)].key)
  }

  predicate NoneBetween(h: Nodes, i: nat, r: Ref, q: Ref) {
    In(h, r) && In(h, q) && r != TAIL && h[r].key < h[q].key && In(h, Next(h, r, i)) ==> h[Next(h, r, i)].key <= h[q].key
  }

  predicate Distinct(h: Nodes, r: Ref, q: Ref) {
    In(h, r) && In(h, q) && h[r].key == h[q].key ==> r == q
  }

  /** Level `i` is a list from the head to the tail, sorted by key, with just the nodes in `s`. */
  ghost predicate LevelOk(h: Nodes, s: set<Ref>, i: nat) {
    && HEAD in s && TAIL in s
    && (forall r {:trigger NodeAt(h, s, i, r)} :: r in s ==> NodeAt(h, s, i, r))
    && (forall r, q {:trigger NoneBetween(h, i, r, q)} :: r in s && q in s ==> NoneBetween(h, i, r, q))
    && (forall r, q {:trigger Distinct(h, r, q)} :: r in s && q in s ==> Distinct(h, r, q))
  }

  /** A change of another level's links, or of nodes that are not on the level. */
  lemma LevelFrame(h: Nodes, h': Nodes, s: set<Ref>, i: nat)
    requires LevelOk(h, s, i) && |h| <= |h'|
    requires forall r :: r in s && In(h, r) ==> h'[r].key == h[r].key && |h'[r].next| == |h[r].next| && Next(h', r, i) == Next(h, r, i)
    ensures LevelOk(h', s, i)
  {
    forall r | r in s ensures NodeAt(h', s, i, r) {
      assert NodeAt(h, s, i, r);
      if r != TAIL { assert NodeAt(h, s, i, Next(h, r, i)); }
    }
    forall r, q | r in s && q in s ensures NoneBetween(h', i, r, q) && Distinct(h', r, q) {
      assert NodeAt(h, s, i, r) && NodeAt(h, s, i, q) && NoneBetween(h, i, r, q) && Distinct(h, r, q);
      if r != TAIL { assert NodeAt(h, s, i, Next(h, r, i)); }
    }
  }

  lemma LinkLevel(h: Nodes, s: set<Ref>, i: nat, p: Ref, n: Ref)
    requires LevelOk(h, s, i) && p in s && p != TAIL && n !in s && In(h, n) && i < |h[n].next| && n != TAIL
    requires In(h, p) && i < |h[p].next| && h[n].next[i] == h[p].next[i] && In(h, h[n].next[i])
    requires h[p].key < h[n].key < h[h[n].next[i]].key && n != HEAD
    ensures LevelOk(SetNext(h, p, i, n), s + {n}, i)
  {
    var h', s' := SetNext(h, p, i, n), s + {n};
    assert NodeAt(h, s, i, p) && NodeAt(h, s, i, h[n].next[i]) && NodeAt(h, s, i, HEAD);
    forall r | r in s' ensures NodeAt(h', s', i, r) {
      if r != n {
        assert NodeAt(h, s, i, r);
        if r != TAIL { assert NodeAt(h, s, i, Next(h, r, i)); }
      }
    }
    forall r, q | r in s' && q in s' ensures NoneBetween(h', i, r, q) && Distinct(h', r, q) {
      LinkGap(h, s, i, p, n, r, q);
    }
  }

  lemma LinkGap(h: Nodes, s: set<Ref>, i: nat, p: Ref, n: Ref, r: Ref, q: Ref)
    requires LevelOk(h, s, i) && p in s && p != TAIL && n !in s && In(h, n) && i < |h[n].next| && n != TAIL
    requires In(h, p) && i < |h[p].next| && h[n].next[i] == h[p].next[i] && In(h, h[n].next[i])
    requires h[p].key < h[n].key < h[h[n].next[i]].key && r in s + {n} && q in s + {n}
    ensures NoneBetween(SetNext(h, p, i, n), i, r, q) && Distinct(SetNext(h, p, i, n), r, q)
  {
    if r != n { assert NodeAt(h, s, i, r) && NoneBetween(h, i, p, r) && Distinct(h, r, p) && NoneBetween(h, i, r, p); }
    if q != n { assert NodeAt(h, s, i, q) && NoneBetween(h, i, p, q); }
    if r != n && q != n { assert NoneBetween(h, i, r, q) && Distinct(h, r, q); }
  }

  lemma UnlinkLevel(h: Nodes, s: set<Ref>, i: nat, p: Ref, v: Ref)
    requires LevelOk(h, s, i) && p in s && p != TAIL && v in s && v != TAIL && v != HEAD && In(h, p) && Next(h, p, i) == v && i < |h[p].next|
    ensures LevelOk(SetNext(h, p, i, Next(h, v, i)), s - {v}, i)
  {
    var h', s' := SetNext(h, p, i, Next(h, v, i)), s - {v};
    assert NodeAt(h, s, i, p) && NodeAt(h, s, i, v);
    forall r | r in s' ensures NodeAt(h', s', i, r) {
      assert NodeAt(h, s, i, r) && NoneBetween(h, i, r, p) && NoneBetween(h, i, p, r) && Distinct(h, r, p);
      if r != TAIL { assert NodeAt(h, s, i, Next(h, r, i)); }
    }
    forall r, q | r in s' && q in s' ensures NoneBetween(h', i, r, q) && Distinct(h', r, q) {
      assert NodeAt(h, s, i, r) && NodeAt(h, s, i, q) && NoneBetween(h, i, r, q) && Distinct(h, r, q);
      assert NoneBetween(h, i, v, q) && Distinct(h, q, v);
    }
  }

  // ---------------------------------------------------------------- levels are chains

  /** Level `i` on its own, as a linked list. */
  function Level(h: Nodes, i: nat): (l: ListModel.Heap<()>)
    ensures |l| == |h|
  {
    seq(|h|, r requires 0 <= r < |h| => ListModel.Cell(h[r].key, h[r].val, Next(h, r, i), false, ()))
  }

  lemma {:induction false} LevelReaches(h: Nodes, s: set<Ref>, i: nat, a: Ref, r: Ref)
    requires LevelOk(h, s, i) && a in s && In(h, r)
    ensures In(h, a) && (ListModel.Reaches(Level(h, i), a, r) <==> r in s && (r == a || h[a].key < h[r].key))
    decreases ListModel.Distance(Level(h, i), a)
  {
    var l := Level(h, i);
    assert NodeAt(h, s, i, a) && NodeAt(h, s, i, TAIL);
    if r in s { assert NodeAt(h, s, i, r) && NoneBetween(h, i, a, r); }
    if a != TAIL && a != r {
      var n := Next(h, a, i);
      assert NodeAt(h, s, i, n) && ListModel.PointsUp(l, a);
      LevelReaches(h, s, i, n, r);
      if r in s { assert Distinct(h, r, n); }
    }
  }

  /** Following next on level `i` from the head one meets exactly the nodes in `s`. */
  lemma LevelIsChain(h: Nodes, s: set<Ref>, i: nat, r: Ref)
    requires LevelOk(h, s, i) && In(h, r)
    ensures ListModel.OnChain(Level(h, i), r) <==> r in s
  {
    LevelReaches(h, s, i, HEAD, r);
    if r in s { assert NodeAt(h, s, i, r) && Distinct(h, r, HEAD); }
  }

  // ---------------------------------------------------------------- the whole list

  /** `lv` gives the nodes of every level. Each level is a list and contains the one above; a node
      is on as many levels as it has next pointers. */
  ghost predicate Shaped(h: Nodes, lv: seq<set<Ref>>) {
    && 2 <= |h| && 1 <= |lv| == |h[HEAD].next| == |h[TAIL].next|
    && (forall i {:trigger LevelOk(h, lv[i], i)} :: 0 <= i < |lv| ==> LevelOk(h, lv[i], i))
    && (forall r {:trigger Full(h, lv, r)} :: r in lv[0] ==> Full(h, lv, r))
    && (forall i, r {:trigger r in lv[i]} :: 0 <= i < |lv| && r in lv[i] ==> r in lv[0])
  }

  ghost predicate Full(h: Nodes, lv: seq<set<Ref>>, r: Ref) {
    In(h, r) && 1 <= |h[r].next| <= |lv| && forall i :: 0 <= i < |lv| ==> (r in lv[i] <==> i < |h[r].next|)
  }

  /** Each level is a part of the one below. */
  lemma LevelsNest(h: Nodes, lv: seq<set<Ref>>, i: nat)
    requires Shaped(h, lv) && i + 1 < |lv|
    ensures lv[i + 1] <= lv[i]
  {
    forall r | r in lv[i + 1] ensures r in lv[i] { assert Full(h, lv, r); }
  }

  /** What the list stands for. */
  ghost function Contents(h: Nodes, s: set<Ref>): Pairs {
    set r | r in s && In(h, r) && r != HEAD && r != TAIL :: (h[r].key, h[r].val)
  }

  lemma ContentsFunctional(h: Nodes, s: set<Ref>, k: int, v: int, w: int)
    requires LevelOk(h, s, 0) && (k, v) in Contents(h, s) && (k, w) in Contents(h, s)
    ensures v == w
  {
    var a: Ref :| a in s && In(h, a) && a != HEAD && a != TAIL && (h[a].key, h[a].val) == (k, v);
    var b: Ref :| b in s && In(h, b) && b != HEAD && b != TAIL && (h[b].key, h[b].val) == (k, w);
    assert Distinct(h, a, b);
  }

  /** Between a node and its next on the lowest level no key is in the list. */
  lemma GapLacks(h: Nodes, s: set<Ref>, p: Ref, key: int)
    requires LevelOk(h, s, 0) && p in s && p != TAIL && In(h, p) && In(h, Next(h, p, 0)) && h[p].key < key < h[Next(h, p, 0)].key
    ensures Lacks(Contents(h, s), key)
  {
    forall r | r in s && In(h, r) ensures h[r].key != key {
      assert NoneBetween(h, 0, p, r);
    }
  }

  // ---------------------------------------------------------------- the descent

  /** `p` is the last node of level `i` below the key, `c` its next. */
  ghost predicate LastBelow(h: Nodes, s: set<Ref>, i: nat, key: int, p: Ref, c: Ref) {
    && p in s && p != TAIL && In(h, p) && In(h, c) && c == Next(h, p, i)
    && h[p].key < key <= h[c].key
  }

  // ---------------------------------------------------------------- insertion, level by level

  ghost predicate SameNodes(h0: Nodes, h: Nodes) {
    |h0| <= |h| && forall r :: 0 <= r < |h0| ==> h[r].key == h0[r].key && h[r].val == h0[r].val && |h[r].next| == |h0[r].next|
  }

  /** On level `j` the descent's result still stands and the key is not there. */
  ghost predicate GapAt(h: Nodes, s: set<Ref>, j: nat, key: int, p: Ref, c: Ref) {
    LastBelow(h, s, j, key, p, c) && key < h[c].key
  }

  /** The new node `n` is linked on the levels below `i`. */
  ghost predicate Linking(h0: Nodes, lv0: seq<set<Ref>>, h: Nodes, lv: seq<set<Ref>>, key: int, val: int, height: nat, n: Ref,
                          ps: seq<Ref>, ss: seq<Ref>, i: nat) {
    && Shaped(h0, lv0) && n == |h0| && |h| == n + 1 && |lv| == |lv0| == |ps| == |ss| && i <= height <= |lv| && 1 <= height
    && h0[HEAD].key < key < h0[TAIL].key && SameNodes(h0, h)
    && h[n].key == key && h[n].val == val && |h[n].next| == height
    && (forall j {:trigger lv[j]} :: 0 <= j < |lv| ==> LevelOk(h, lv[j], j) && lv[j] == if j < i then lv0[j] + {n} else lv0[j])
    && (forall j {:trigger ps[j]} {:trigger ss[j]} :: i <= j < |lv| ==> GapAt(h, lv0[j], j, key, ps[j], ss[j]))
    && Lacks(Contents(h0, lv0[0]), key)
  }

  lemma NotOnLevel(h: Nodes, lv: seq<set<Ref>>, i: nat, n: Ref)
    requires Shaped(h, lv) && i < |lv| && !In(h, n)
    ensures n !in lv[i]
  {
    assert LevelOk(h, lv[i], i);
    forall r | r in lv[i] ensures In(h, r) { assert NodeAt(h, lv[i], i, r); }
  }

  /** The key is on no level if it is not on the lowest. */
  lemma GapEverywhere(h: Nodes, lv: seq<set<Ref>>, key: int, ps: seq<Ref>, ss: seq<Ref>, j: nat)
    requires Shaped(h, lv) && |lv| == |ps| == |ss| && j < |lv|
    requires LastBelow(h, lv[0], 0, key, ps[0], ss[0]) && h[ss[0]].key != key && LastBelow(h, lv[j], j, key, ps[j], ss[j])
    ensures GapAt(h, lv[j], j, key, ps[j], ss[j]) && Lacks(Contents(h, lv[0]), key)
  {
    assert LevelOk(h, lv[j], j) && NodeAt(h, lv[j], j, ps[j]) && ss[j] in lv[j];
    assert LevelOk(h, lv[0], 0) && ss[j] in lv[0];
    assert NoneBetween(h, 0, ps[0], ss[j]);
    GapLacks(h, lv[0], ps[0], key);
  }

  lemma LinkingBegins(h0: Nodes, lv0: seq<set<Ref>>, h: Nodes, key: int, height: nat, ps: seq<Ref>, ss: seq<Ref>)
    requires Shaped(h0, lv0) && |lv0| == |ps| == |ss| && 1 <= height <= |lv0| && h0[HEAD].key < key < h0[TAIL].key
    requires forall i {:trigger ps[i]} {:trigger ss[i]} :: 0 <= i < |lv0| ==> LastBelow(h0, lv0[i], i, key, ps[i], ss[i])
    requires In(h0, ss[0]) && h0[ss[0]].key != key && |h| == |h0| + 1 && h[..|h0|] == h0 && h[|h0|].key == key && |h[|h0|].next| == height
    ensures Linking(h0, lv0, h, lv0, key, h[|h0|].val, height, |h0|, ps, ss, 0)
  {
    assert forall r :: 0 <= r < |h0| ==> h[r] == h0[r];
    assert LastBelow(h0, lv0[0], 0, key, ps[0], ss[0]);
    GapEverywhere(h0, lv0, key, ps, ss, 0);
    forall j | 0 <= j < |lv0| ensures LevelOk(h, lv0[j], j) && GapAt(h, lv0[j], j, key, ps[j], ss[j]) {
      assert LevelOk(h0, lv0[j], j) && LastBelow(h0, lv0[j], j, key, ps[j], ss[j]) && LastBelow(h0, lv0[0], 0, key, ps[0], ss[0]);
      LevelFrame(h0, h, lv0[j], j);
      GapEverywhere(h0, lv0, key, ps, ss, j);
    }
  }

  lemma LinkingStep(h0: Nodes, lv0: seq<set<Ref>>, h: Nodes, lv: seq<set<Ref>>, key: int, val: int, height: nat, n: Ref,
                    ps: seq<Ref>, ss: seq<Ref>, i: nat)
    requires Linking(h0, lv0, h, lv, key, val, height, n, ps, ss, i) && i < height
    ensures In(h, n) && i < |h[n].next| && In(h, ps[i]) && i < |SetNext(h, n, i, ss[i])[ps[i]].next|
    ensures Linking(h0, lv0, SetNext(SetNext(h, n, i, ss[i]), ps[i], i, n), lv[i := lv[i] + {n}], key, val, height, n, ps, ss, i + 1)
  {
    assert LevelOk(h, lv[i], i) && GapAt(h, lv0[i], i, key, ps[i], ss[i]) && NodeAt(h, lv0[i], i, ps[i]);
    NotOnLevel(h0, lv0, i, n);
    var h1 := SetNext(h, n, i, ss[i]);
    var h2 := SetNext(h1, ps[i], i, n);
    var lv' := lv[i := lv[i] + {n}];
    LevelFrame(h, h1, lv[i], i);
    LinkLevel(h1, lv[i], i, ps[i], n);
    forall j | 0 <= j < |lv| ensures LevelOk(h2, lv'[j], j) && lv'[j] == if j < i + 1 then lv0[j] + {n} else lv0[j] {
      assert LevelOk(h, lv[j], j);
      if j != i { LevelFrame(h, h2, lv[j], j); }
    }
    forall j | i + 1 <= j < |lv| ensures GapAt(h2, lv0[j], j, key, ps[j], ss[j]) {
      assert GapAt(h, lv0[j], j, key, ps[j], ss[j]);
      NotOnLevel(h0, lv0, j, n);
    }
  }

  lemma LinkingEnds(h0: Nodes, lv0: seq<set<Ref>>, h: Nodes, lv: seq<set<Ref>>, key: int, val: int, height: nat, n: Ref, ps: seq<Ref>, ss: seq<Ref>)
    requires Linking(h0, lv0, h, lv, key, val, height, n, ps, ss, height)
    ensures Shaped(h, lv) && Adds(key, val)(Contents(h0, lv0[0]), Contents(h, lv[0]))
  {
    assert LevelOk(h0, lv0[0], 0) && lv[0] == lv0[0] + {n};
    assert NodeAt(h0, lv0[0], 0, HEAD) && NodeAt(h0, lv0[0], 0, TAIL);
    forall r | r in lv[0] ensures Full(h, lv, r) {
      if r != n { assert Full(h0, lv0, r); }
      forall i | 0 <= i < |lv| ensures r in lv[i] <==> i < |h[r].next| { NotOnLevel(h0, lv0, i, n); }
    }
    forall i, r | 0 <= i < |lv| && r in lv[i] ensures r in lv[0] { assert lv[i] == if i < height then lv0[i] + {n} else lv0[i]; }
    forall r | r in lv0[0] ensures 0 <= r < |h0| { assert NodeAt(h0, lv0[0], 0, r); }
    assert Contents(h, lv[0]) == Contents(h0, lv0[0]) + {(key, val)};
  }

  // ---------------------------------------------------------------- removal, level by level

  /** The node `v` is off the levels below `i`. */
  ghost predicate Unlinking(h0: Nodes, lv0: seq<set<Ref>>, h: Nodes, lv: seq<set<Ref>>, key: int, v: Ref, ps: seq<Ref>, ss: seq<Ref>, i: nat) {
    && Shaped(h0, lv0) && |h| == |h0| && |lv| == |lv0| == |ps| == |ss| && SameNodes(h0, h)
    && h0[HEAD].key < key < h0[TAIL].key && v in lv0[0] && In(h0, v) && h0[v].key == key
    && (forall j {:trigger lv[j]} :: 0 <= j < |lv| ==> LevelOk(h, lv[j], j) && lv[j] == if j < i then lv0[j] - {v} else lv0[j])
    && (forall j {:trigger ps[j]} {:trigger ss[j]} :: i <= j < |lv| ==> LastBelow(h, lv0[j], j, key, ps[j], ss[j]))
  }

  lemma UnlinkingBegins(h: Nodes, lv: seq<set<Ref>>, key: int, v: Ref, ps: seq<Ref>, ss: seq<Ref>)
    requires Shaped(h, lv) && |lv| == |ps| == |ss| && h[HEAD].key < key < h[TAIL].key && In(h, v) && h[v].key == key && v == ss[0]
    requires forall i {:trigger ps[i]} {:trigger ss[i]} :: 0 <= i < |lv| ==> LastBelow(h, lv[i], i, key, ps[i], ss[i])
    ensures Unlinking(h, lv, h, lv, key, v, ps, ss, 0)
  {
    assert LastBelow(h, lv[0], 0, key, ps[0], ss[0]) && LevelOk(h, lv[0], 0) && NodeAt(h, lv[0], 0, ps[0]);
    forall j | 0 <= j < |lv| ensures LevelOk(h, lv[j], j) {}
  }

  lemma UnlinkingStep(h0: Nodes, lv0: seq<set<Ref>>, h: Nodes, lv: seq<set<Ref>>, key: int, v: Ref, ps: seq<Ref>, ss: seq<Ref>, i: nat)
    requires Unlinking(h0, lv0, h, lv, key, v, ps, ss, i) && i < |lv|
    ensures In(h, ss[i]) && In(h, ps[i]) && i < |h[ps[i]].next|
    ensures h[ss[i]].key == key <==> v in lv0[i]
    ensures var h' := if h[ss[i]].key == key then SetNext(h, ps[i], i, Next(h, ss[i], i)) else h;
      Unlinking(h0, lv0, h', lv[i := lv[i] - {v}], key, v, ps, ss, i + 1)
  {
    MetIffThere(h0, lv0, h, lv, key, v, ps, ss, i);
    var h' := if h[ss[i]].key == key then SetNext(h, ps[i], i, Next(h, ss[i], i)) else h;
    var lv' := lv[i := lv[i] - {v}];
    forall j | 0 <= j < |lv| ensures LevelOk(h', lv'[j], j) && lv'[j] == if j < i + 1 then lv0[j] - {v} else lv0[j] {
      assert LevelOk(h, lv[j], j);
      if j == i {
        if v in lv0[i] { UnlinkLevel(h, lv[i], i, ps[i], v); } else { assert lv[i] - {v} == lv[i]; }
      } else {
        LevelFrame(h, h', lv[j], j);
      }
    }
    forall j | i + 1 <= j < |lv| ensures LastBelow(h', lv0[j], j, key, ps[j], ss[j]) {
      assert LastBelow(h, lv0[j], j, key, ps[j], ss[j]);
    }
  }

  /** The descent has met the key on exactly the levels of the node that has it. */
  lemma MetIffThere(h0: Nodes, lv0: seq<set<Ref>>, h: Nodes, lv: seq<set<Ref>>, key: int, v: Ref, ps: seq<Ref>, ss: seq<Ref>, i: nat)
    requires Unlinking(h0, lv0, h, lv, key, v, ps, ss, i) && i < |lv|
    ensures In(h, ss[i]) && In(h, ps[i]) && i < |h[ps[i]].next| && ps[i] in lv[i] && ps[i] != TAIL && v != HEAD && v != TAIL
    ensures if v in lv0[i] then ss[i] == v && Next(h, ps[i], i) == v else h[ss[i]].key != key
  {
    assert LevelOk(h, lv[i], i) && lv[i] == lv0[i] && LastBelow(h, lv0[i], i, key, ps[i], ss[i]);
    assert NodeAt(h, lv[i], i, ps[i]) && LevelOk(h0, lv0[0], 0) && ss[i] in lv0[0];
    assert Distinct(h0, ss[i], v);
    if v in lv0[i] { assert NoneBetween(h, i, ps[i], v); }
  }

  lemma UnlinkingEnds(h0: Nodes, lv0: seq<set<Ref>>, h: Nodes, lv: seq<set<Ref>>, key: int, v: Ref, ps: seq<Ref>, ss: seq<Ref>)
    requires Unlinking(h0, lv0, h, lv, key, v, ps, ss, |lv|)
    ensures Shaped(h, lv) && Removes(key, h0[v].val)(Contents(h0, lv0[0]), Contents(h, lv[0]))
  {
    assert LevelOk(h0, lv0[0], 0) && lv[0] == lv0[0] - {v};
    assert NodeAt(h0, lv0[0], 0, HEAD) && NodeAt(h0, lv0[0], 0, TAIL) && NodeAt(h0, lv0[0], 0, v);
    forall r | r in lv[0] ensures Full(h, lv, r) {
      assert Full(h0, lv0, r);
      forall i | 0 <= i < |lv| ensures r in lv[i] <==> i < |h[r].next| { assert lv[i] == lv0[i] - {v}; }
    }
    forall i, r | 0 <= i < |lv| && r in lv[i] ensures r in lv[0] { assert lv[i] == lv0[i] - {v}; }
    assert (key, h0[v].val) in Contents(h0, lv0[0]);
    forall r | r in lv0[0] && r != v ensures 0 <= r < |h0| && h0[r].key != key { assert NodeAt(h0, lv0[0], 0, r) && Distinct(h0, r, v); }
    assert Contents(h, lv[0]) == Contents(h0, lv0[0]) - {(key, h0[v].val)};
  }

  /** The node is new on the levels below `height`, and every other level and node is as it was. */
  ghost predicate PutOn(h0: Nodes, lv0: seq<set<Ref>>, h: Nodes, lv: seq<set<Ref>>, n: Ref, height: nat) {
    && |lv| == |lv0| && |h| == n + 1 == |h0| + 1 && |h[n].next| == height && SameNodes(h0, h)
    && forall i {:trigger lv[i]} :: 0 <= i < |lv| ==> lv[i] == if i < height then lv0[i] + {n} else lv0[i]
  }

  /** The node is on no level any more, and every level is otherwise as it was. */
  ghost predicate TakenOff(h0: Nodes, lv0: seq<set<Ref>>, h: Nodes, lv: seq<set<Ref>>, v: Ref) {
    && |lv| == |lv0| && |h| == |h0| && SameNodes(h0, h)
    && forall i {:trigger lv[i]} :: 0 <= i < |lv| ==> lv[i] == lv0[i] - {v}
  }

  // ---------------------------------------------------------------- the code

  class SkipList {
    var nodes: Nodes
    ghost var lv: seq<set<Ref>>

    ghost predicate Valid()
      reads this
    {
      Shaped(nodes, lv)
    }

    ghost function Elements(): Pairs
      reads this
      requires Valid()
    {
      Contents(nodes, lv[0])
    }

    constructor (min: int, max: int, levelmax: nat)
      requires min < max && 1 <= levelmax
      ensures Valid() && Elements() == {} && |lv| == levelmax && nodes[HEAD].key == min && nodes[TAIL].key == max
    {
      nodes := [Node(min, 0, seq(levelmax, _ => TAIL)), Node(max, 0, seq(levelmax, _ => NULL))];
      lv := seq(levelmax, _ => {HEAD, TAIL});
      new;
      forall i | 0 <= i < |lv| ensures LevelOk(nodes, lv[i], i) {
        assert NodeAt(nodes, lv[i], i, HEAD) && NodeAt(nodes, lv[i], i, TAIL);
      }
      assert Full(nodes, lv, HEAD) && Full(nodes, lv, TAIL);
    }

    /** The inner loop: along level `i` from `start` to the last node below the key. */
    method Walk(key: int, i: nat, start: Ref) returns (node: Ref, next: Ref)
      requires Valid() && i < |lv| && start in lv[i] && In(nodes, start) && nodes[start].key < key < nodes[TAIL].key
      ensures LastBelow(nodes, lv[i], i, key, node, next) && next in lv[i]
    {
      assert LevelOk(nodes, lv[i], i) && NodeAt(nodes, lv[i], i, start);
      node, next := start, Next(nodes, start, i);
      while nodes[next].key < key
        invariant node in lv[i] && NodeAt(nodes, lv[i], i, node) && node != TAIL && nodes[node].key < key && next == Next(nodes, node, i)
        decreases key - nodes[node].key
      {
        node := next;
        assert NodeAt(nodes, lv[i], i, node);
        next := Next(nodes, node, i);
      }
    }

    /** The value of the key, 0 when it is absent. */
    method Search(key: int) returns (result: int)
      requires Valid() && nodes[HEAD].key < key < nodes[TAIL].key
      ensures (key, result) in Elements() || (result == 0 && Lacks(Elements(), key))
      ensures forall v :: (key, v) in Elements() ==> v == result
    {
      var node, next, i := HEAD, NULL, |nodes[HEAD].next| - 1;
      assert LevelOk(nodes, lv[i], i);
      while i >= 0
        invariant -1 <= i < |lv| && In(nodes, node) && nodes[node].key < key
        invariant i >= 0 ==> node in lv[i]
        invariant i == -1 ==> LastBelow(nodes, lv[0], 0, key, node, next) && next in lv[0]
      {
        node, next := Walk(key, i, node);
        if i > 0 { LevelsNest(nodes, lv, i - 1); }
        i := i - 1;
      }
      next := Next(nodes, node, 0);
      result := 0;
      if nodes[next].key == key {
        result := nodes[next].val;
      } else {
        assert LevelOk(nodes, lv[0], 0);
        GapLacks(nodes, lv[0], node, key);
      }
      forall v | (key, v) in Elements() ensures v == result { ContentsFunctional(nodes, lv[0], key, v, result); }
    }

    /** The descent of the updates: on every level the last node below the key and its next. */
    method Descend(key: int, preds: array<Ref>, succs: array<Ref>)
      requires Valid() && nodes[HEAD].key < key < nodes[TAIL].key
      requires preds.Length == succs.Length == |lv| && preds != succs
      modifies preds, succs
      ensures forall i {:trigger preds[i]} {:trigger succs[i]} :: 0 <= i < |lv| ==> LastBelow(nodes, lv[i], i, key, preds[i], succs[i]) && succs[i] in lv[i]
    {
      var node, next, i := HEAD, NULL, |nodes[HEAD].next| - 1;
      assert LevelOk(nodes, lv[i], i);
      while i >= 0
        invariant -1 <= i < |lv| && In(nodes, node) && nodes[node].key < key
        invariant i >= 0 ==> node in lv[i]
        invariant forall j {:trigger preds[j]} {:trigger succs[j]} :: i < j < |lv| ==> LastBelow(nodes, lv[j], j, key, preds[j], succs[j]) && succs[j] in lv[j]
      {
        node, next := Walk(key, i, node);
        preds[i], succs[i] := node, Next(nodes, node, i);
        if i > 0 { LevelsNest(nodes, lv, i - 1); }
        i := i - 1;
      }
    }

    /** Inserts the pair with a node of `height` levels, which the code draws at random: 1 when it
        was added, 0 when the key was there. */
    method Insert(key: int, val: int, height: nat) returns (result: int)
      requires Valid() && nodes[HEAD].key < key < nodes[TAIL].key && 1 <= height <= |lv|
      modifies this
      ensures Valid() && |lv| == |old(lv)| && nodes[HEAD].key == old(nodes[HEAD].key) && nodes[TAIL].key == old(nodes[TAIL].key)
      ensures result == 1 ==> Adds(key, val)(old(Elements()), Elements()) && PutOn(old(nodes), old(lv), nodes, lv, |old(nodes)|, height)
      ensures result != 1 ==> result == 0 && nodes == old(nodes) && lv == old(lv) && !Lacks(Elements(), key)
    {
      var preds, succs := new Ref[|nodes[HEAD].next|], new Ref[|nodes[HEAD].next|];
      Descend(key, preds, succs);
      assert LastBelow(nodes, lv[0], 0, key, preds[0], succs[0]) && LevelOk(nodes, lv[0], 0);
      var node := Next(nodes, preds[0], 0);
      if nodes[node].key == key {
        assert (key, nodes[node].val) in Elements();
        return 0;
      }
      LinkAll(key, val, height, preds[..], succs[..]);
      result := 1;
    }

    /** Allocates the node and links it in on its levels, from the lowest up. */
    method LinkAll(key: int, val: int, height: nat, preds: seq<Ref>, succs: seq<Ref>)
      requires Valid() && nodes[HEAD].key < key < nodes[TAIL].key && 1 <= height <= |lv| == |preds| == |succs|
      requires forall i {:trigger preds[i]} {:trigger succs[i]} :: 0 <= i < |lv| ==> LastBelow(nodes, lv[i], i, key, preds[i], succs[i])
      requires In(nodes, succs[0]) && nodes[succs[0]].key != key
      modifies this
      ensures Valid() && |lv| == |old(lv)| && Adds(key, val)(old(Elements()), Elements())
      ensures PutOn(old(nodes), old(lv), nodes, lv, |old(nodes)|, height)
      ensures nodes[HEAD].key == old(nodes[HEAD].key) && nodes[TAIL].key == old(nodes[TAIL].key)
    {
      ghost var h0, lv0 := nodes, lv;
      var n := |nodes|;
      nodes := nodes + [Node(key, val, seq(height, _ => NULL))];
      LinkingBegins(h0, lv0, nodes, key, height, preds, succs);
      var i := 0;
      while i < height
        invariant 0 <= i <= height && Linking(h0, lv0, nodes, lv, key, val, height, n, preds, succs, i)
      {
        LinkingStep(h0, lv0, nodes, lv, key, val, height, n, preds, succs, i);
        nodes := SetNext(nodes, n, i, succs[i]);
        nodes := SetNext(nodes, preds[i], i, n);
        lv := lv[i := lv[i] + {n}];
        i := i + 1;
      }
      LinkingEnds(h0, lv0, nodes, lv, key, val, height, n, preds, succs);
    }

    /** Removes the key: its value, or 0 when it is absent. */
    method Remove(key: int) returns (result: int)
      requires Valid() && nodes[HEAD].key < key < nodes[TAIL].key
      modifies this
      ensures Valid() && |lv| == |old(lv)| && nodes[HEAD].key == old(nodes[HEAD].key) && nodes[TAIL].key == old(nodes[TAIL].key)
      ensures
        || (Removes(key, result)(old(Elements()), Elements()) && exists v :: In(old(nodes), v) && old(nodes)[v].key == key && TakenOff(old(nodes), old(lv), nodes, lv, v))
        || (result == 0 && nodes == old(nodes) && lv == old(lv) && Lacks(Elements(), key))
    {
      var preds, succs := new Ref[|nodes[HEAD].next|], new Ref[|nodes[HEAD].next|];
      Descend(key, preds, succs);
      assert LastBelow(nodes, lv[0], 0, key, preds[0], succs[0]) && LevelOk(nodes, lv[0], 0);
      result := 0;
      if nodes[succs[0]].key == key {
        result := nodes[succs[0]].val;
        UnlinkAll(key, preds[..], succs[..]);
      } else {
        GapLacks(nodes, lv[0], preds[0], key);
      }
    }

    /** Takes the node with the key off every level on which the descent has met it. */
    method UnlinkAll(key: int, preds: seq<Ref>, succs: seq<Ref>)
      requires Valid() && nodes[HEAD].key < key < nodes[TAIL].key && |lv| == |preds| == |succs|
      requires forall i {:trigger preds[i]} {:trigger succs[i]} :: 0 <= i < |lv| ==> LastBelow(nodes, lv[i], i, key, preds[i], succs[i])
      requires In(nodes, succs[0]) && nodes[succs[0]].key == key
      modifies this
      ensures Valid() && |lv| == |old(lv)| && Removes(key, old(nodes[succs[0]].val))(old(Elements()), Elements())
      ensures TakenOff(old(nodes), old(lv), nodes, lv, succs[0])
      ensures nodes[HEAD].key == old(nodes[HEAD].key) && nodes[TAIL].key == old(nodes[TAIL].key)
    {
      ghost var h0, lv0, v := nodes, lv, succs[0];
      var i := 0;
      UnlinkingBegins(h0, lv0, key, v, preds, succs);
      while i < |nodes[HEAD].next|
        invariant 2 <= |nodes| && 0 <= i <= |lv0| == |nodes[HEAD].next| && Unlinking(h0, lv0, nodes, lv, key, v, preds, succs, i)
      {
        UnlinkingStep(h0, lv0, nodes, lv, key, v, preds, succs, i);
        if nodes[succs[i]].key == key {
          nodes := SetNext(nodes, preds[i], i, Next(nodes, succs[i], i));
        }
        lv := lv[i := lv[i] - {v}];
        i := i + 1;
      }
      UnlinkingEnds(h0, lv0, nodes, lv, key, v, preds, succs);
    }
  }
}
