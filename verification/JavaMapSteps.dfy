/** The atomic steps on one segment of the Java hash map and on the segments that replace it when
    it grows, and what every step keeps. Segments of different numbers share nothing. */
module JavaMapSteps {
  import opened History
  import opened Calls
  import opened SetCalls
  import opened JavaMapModel
  import opened JavaRehash
  import opened JavaRehashMeaning

  /** `Owing` is held with the list changed and `due` still to be stored in size; `Retired` is
      the lock of a segment that has been replaced, which nobody releases. */
  datatype Lock = Free | Held(who: nat) | Owing(who: nat, due: int) | Retired

  /** `chains` lists the nodes of every bucket; the code never reads it. */
  datatype Segment = Segment(table: seq<Ref>, chains: seq<seq<Ref>>, lock: Lock, size: int, limit: int)

  /** `segs` are all segments this number has had; the last one is published. */
  datatype Mem = Map(nodes: Nodes, segs: seq<Segment>, seed: nat, load: nat)

  datatype Act =
    | TryLock(s: nat)
    | Append(b: nat, pred: Ref, key: int, val: int)     // pred->next = n, or *bucket = n
    | Unlink(b: nat, i: nat, pred: Ref, curr: Ref)      // pred->next = curr->next, or *bucket = curr->next
    | SetSize(n: int)                                   // seg->size = n
    | Unlock
    | Publish(nodes: Nodes, table: seq<Ref>, chains: seq<seq<Ref>>, key: int, val: int)  // segments[i] = seg_new

  /** The published segment. */
  function Cur(h: Mem): Segment
    requires 0 < |h.segs|
  {
    h.segs[|h.segs| - 1]
  }

  function SizeLimit(load: nat, capacity: nat): nat {
    if load * capacity == 0 then 1 else load * capacity
  }

  function Elements(h: Mem): Pairs {
    if 0 < |h.segs| then Contents(h.nodes, Cur(h).chains) else {}
  }

  predicate Mine(h: Mem, t: nat) {
    0 < |h.segs| && (Cur(h).lock == Held(t) || (Cur(h).lock.Owing? && Cur(h).lock.who == t))
  }

  function SetCur(h: Mem, seg: Segment): Mem
    requires 0 < |h.segs|
  {
    h.(segs := h.segs[|h.segs| - 1 := seg])
  }

  /** When a thread may take the step. All steps but the first need the lock of the published
      segment; a thread inserts a key it has not found, and grows the table only at the limit. */
  predicate Enabled(h: Mem, t: nat, a: Act) {
    && 0 < |h.segs|
    && match a
       case TryLock(s) => s < |h.segs| && h.segs[s].lock == Free
       case Append(b, pred, key, val) =>
         && Cur(h).lock == Held(t) && 0 < |Cur(h).table| && b == Bucket(key, h.seed, |Cur(h).table|) && b < |Cur(h).chains|
         && pred == Last(Cur(h).chains[b]) && Lacks(Elements(h), key) && Cur(h).size + 1 < Cur(h).limit
       case Unlink(b, i, pred, curr) =>
         && Cur(h).lock == Held(t) && b < |Cur(h).chains| && i < |Cur(h).chains[b]|
         && curr == Cur(h).chains[b][i] && pred == (if i == 0 then NULL else Cur(h).chains[b][i - 1])
       case SetSize(n) => Cur(h).lock == Owing(t, n)
       case Unlock => Cur(h).lock == Held(t)
       case Publish(nodes, table, chains, key, val) =>
         && Cur(h).lock == Held(t) && Cur(h).limit <= Cur(h).size + 1
         && Rehashed(Job(h.nodes, Cur(h).chains, h.seed), nodes, table, chains, key, val)
  }

  function Last(c: seq<Ref>): Ref {
    if c == [] then NULL else c[|c| - 1]
  }

  function SetNext(nodes: Nodes, p: Ref, n: Ref): Nodes {
    if In(nodes, p) then nodes[p := nodes[p].(next := n)] else nodes
  }

  function SetHead(table: seq<Ref>, b: nat, pred: Ref, n: Ref): seq<Ref> {
    if pred == NULL && b < |table| then table[b := n] else table
  }

  function Do(h: Mem, t: nat, a: Act): Mem
    requires Enabled(h, t, a)
  {
    var cur := Cur(h);
    match a
    case TryLock(s) => h.(segs := h.segs[s := h.segs[s].(lock := Held(t))])
    case Append(b, pred, key, val) =>
      var n := |h.nodes|;
      SetCur(h.(nodes := SetNext(h.nodes, pred, n) + [Node(key, val, NULL)]),
             cur.(table := SetHead(cur.table, b, pred, n), chains := cur.chains[b := cur.chains[b] + [n]], lock := Owing(t, cur.size + 1)))
    case Unlink(b, i, pred, curr) =>
      var c := cur.chains[b];
      var next := Head(c, i + 1);
      SetCur(h.(nodes := SetNext(h.nodes, pred, next)),
             cur.(table := SetHead(cur.table, b, pred, next), chains := cur.chains[b := Without(c, i)], lock := Owing(t, cur.size - 1)))
    case SetSize(n) => SetCur(h, cur.(size := n, lock := Held(t)))
    case Unlock => SetCur(h, cur.(lock := Free))
    case Publish(nodes, table, chains, key, val) =>
      h.(nodes := nodes,
         segs := h.segs[|h.segs| - 1 := cur.(lock := Retired)] + [Segment(table, chains, Free, cur.size + 1, SizeLimit(h.load, |table|))])
  }

  /** In every reachable state: only the published segment can be unlocked, its table is well
      formed, and its size is the number of its nodes and below the limit, unless its holder
      is about to store the size. */
  ghost predicate Inv(h: Mem) {
    && 0 < |h.segs| && 0 < h.load
    && (forall s :: 0 <= s < |h.segs| - 1 ==> h.segs[s].lock == Retired)
    && SegmentOk(h, Cur(h))
  }

  ghost predicate SegmentOk(h: Mem, cur: Segment) {
    && TableOk(h.nodes, cur.table, cur.chains, h.seed) && IsPow2(|cur.table|)
    && cur.lock != Retired && cur.limit == SizeLimit(h.load, |cur.table|)
    && cur.size < cur.limit
    && (if cur.lock.Owing? then cur.lock.due else cur.size) == |Contents(h.nodes, cur.chains)|
    && (cur.lock.Owing? ==> cur.lock.due < cur.limit)
  }

  function Init(capacity: nat, seed: nat, load: nat): Mem {
    Map([], [Segment(seq(capacity, _ => NULL), seq(capacity, _ => []), Free, 0, SizeLimit(load, capacity))], seed, load)
  }

  lemma InitInv(capacity: nat, seed: nat, load: nat)
    requires IsPow2(capacity) && 0 < load
    ensures Inv(Init(capacity, seed, load)) && Elements(Init(capacity, seed, load)) == {}
  {
    var h := Init(capacity, seed, load);
    var n: nat :| capacity == Pow2(n);
    BucketSplits(0, seed, n);
    assert forall b :: 0 <= b < capacity ==> BucketOk(h.nodes, Cur(h).table, Cur(h).chains, seed, b);
    assert Contents(h.nodes, Cur(h).chains) == {};
  }

  // ---------------------------------------------------------------- the three kinds of writes

  lemma {:induction false} LimitGrows(load: nat, capacity: nat)
    requires 0 < load && 0 < capacity
    ensures 0 < SizeLimit(load, capacity) == load * capacity
    ensures SizeLimit(load, capacity) < SizeLimit(load, 2 * capacity)
  {
    MulGrows(load, capacity);
    assert load * (2 * capacity) == load * capacity + load * capacity;
  }

  lemma AddsCount(s: Pairs, s': Pairs, key: int, val: int)
    requires Adds(key, val)(s, s')
    ensures |s'| == |s| + 1
  {
    assert (key, val) !in s;
  }

  lemma RemovesCount(s: Pairs, s': Pairs, key: int, val: int)
    requires Removes(key, val)(s, s')
    ensures |s'| == |s| - 1
  {
  }

  /** Appending to a chain. */
  lemma AppendEffect(nodes: Nodes, table: seq<Ref>, chains: seq<seq<Ref>>, seed: nat, b: nat, key: int, val: int)
    requires TableOk(nodes, table, chains, seed) && b < |chains| && b == Bucket(key, seed, |table|) && Lacks(Contents(nodes, chains), key)
    ensures var c := chains[b];
      var nodes', chains' := SetNext(nodes, Last(c), |nodes|) + [Node(key, val, NULL)], chains[b := c + [|nodes|]];
      && TableOk(nodes', SetHead(table, b, Last(c), |nodes|), chains', seed)
      && Adds(key, val)(Contents(nodes, chains), Contents(nodes', chains'))
  {
    var c := chains[b];
    var nodes', table', chains' := SetNext(nodes, Last(c), |nodes|) + [Node(key, val, NULL)], SetHead(table, b, Last(c), |nodes|), chains[b := c + [|nodes|]];
    LacksIff(nodes, table, chains, seed, key);
    assert BucketOk(nodes, table, chains, seed, b);
    if c != [] { assert LinkOk(nodes, c, |c| - 1); }
    forall k | 0 <= k < |table| ensures BucketOk(nodes', table', chains', seed, k) {
      assert BucketOk(nodes, table, chains, seed, k);
      if k == b { AppendChain(nodes, table, chains, seed, b, key, val); } else { OtherChain(nodes, nodes', table, chains, seed, b, k, Last(c)); }
    }
    AppendContents(nodes, nodes', table, chains, seed, b, (key, val));
  }

  lemma AppendChain(nodes: Nodes, table: seq<Ref>, chains: seq<seq<Ref>>, seed: nat, b: nat, key: int, val: int)
    requires TableOk(nodes, table, chains, seed) && b < |chains| && b == Bucket(key, seed, |table|)
    requires forall r :: r in chains[b] ==> Pair(nodes, r).0 != key
    ensures var c := chains[b]; var nodes' := SetNext(nodes, Last(c), |nodes|) + [Node(key, val, NULL)];
      && ChainOk(nodes', c + [|nodes|], if c == [] then |nodes| else table[b]) && KeysOk(nodes', c + [|nodes|], b, seed, |table|)
  {
    var c := chains[b];
    var nodes', d := SetNext(nodes, Last(c), |nodes|) + [Node(key, val, NULL)], c + [|nodes|];
    assert BucketOk(nodes, table, chains, seed, b);
    forall i | 0 <= i < |d| ensures LinkOk(nodes', d, i) && (i < |c| ==> Pair(nodes', d[i]) == Pair(nodes, c[i])) {
      if i < |c| {
        assert LinkOk(nodes, c, i) && LinkOk(nodes, c, |c| - 1);
        if i < |c| - 1 { assert c[i] != c[|c| - 1]; }
      }
    }
  }

  /** A write to the next of a node in bucket `b` does not concern bucket `k`. */
  lemma OtherChain(nodes: Nodes, nodes': Nodes, table: seq<Ref>, chains: seq<seq<Ref>>, seed: nat, b: nat, k: nat, p: Ref)
    requires TableOk(nodes, table, chains, seed) && b < |chains| && k < |chains| && b != k && (p in chains[b] || p == NULL)
    requires |nodes| <= |nodes'| && forall r :: 0 <= r < |nodes| ==> nodes'[r].key == nodes[r].key && nodes'[r].val == nodes[r].val && (r != p ==> nodes'[r].next == nodes[r].next)
    ensures ChainOk(nodes', chains[k], table[k]) && KeysOk(nodes', chains[k], k, seed, |table|)
  {
    assert BucketOk(nodes, table, chains, seed, k) && BucketOk(nodes, table, chains, seed, b);
    forall i | 0 <= i < |chains[k]| ensures LinkOk(nodes', chains[k], i) && Pair(nodes', chains[k][i]) == Pair(nodes, chains[k][i]) {
      assert LinkOk(nodes, chains[k], i);
      assert chains[k][i] != p;
    }
  }

  lemma AppendContents(nodes: Nodes, nodes': Nodes, table: seq<Ref>, chains: seq<seq<Ref>>, seed: nat, b: nat, x: (int, int))
    requires TableOk(nodes, table, chains, seed) && b < |chains| && |nodes'| == |nodes| + 1 && Pair(nodes', |nodes|) == x
    requires forall r :: 0 <= r < |nodes| ==> nodes'[r].key == nodes[r].key && nodes'[r].val == nodes[r].val
    ensures Contents(nodes', chains[b := chains[b] + [|nodes|]]) == Contents(nodes, chains) + {x}
  {
    var chains' := chains[b := chains[b] + [|nodes|]];
    assert chains'[b][|chains[b]|] == |nodes|;
    forall y | y in Contents(nodes, chains) ensures y in Contents(nodes', chains') {
      var k, i :| 0 <= k < |chains| && 0 <= i < |chains[k]| && Pair(nodes, chains[k][i]) == y;
      assert BucketOk(nodes, table, chains, seed, k) && LinkOk(nodes, chains[k], i);
      assert chains'[k][i] == chains[k][i];
    }
    forall y | y in Contents(nodes', chains') && y != x ensures y in Contents(nodes, chains) {
      var k, i :| 0 <= k < |chains'| && 0 <= i < |chains'[k]| && Pair(nodes', chains'[k][i]) == y;
      assert BucketOk(nodes, table, chains, seed, k);
      assert chains'[k][i] == chains[k][i] && LinkOk(nodes, chains[k], i);
    }
  }

  /** Unlinking the `i`-th node of a chain. */
  lemma UnlinkEffect(nodes: Nodes, table: seq<Ref>, chains: seq<seq<Ref>>, seed: nat, b: nat, i: nat)
    requires TableOk(nodes, table, chains, seed) && b < |chains| && i < |chains[b]|
    ensures var c := chains[b]; var pred := if i == 0 then NULL else c[i - 1];
      var nodes', chains' := SetNext(nodes, pred, Head(c, i + 1)), chains[b := Without(c, i)];
      && TableOk(nodes', SetHead(table, b, pred, Head(c, i + 1)), chains', seed)
      && Removes(Pair(nodes, c[i]).0, Pair(nodes, c[i]).1)(Contents(nodes, chains), Contents(nodes', chains'))
  {
    var c := chains[b];
    var pred := if i == 0 then NULL else c[i - 1];
    var nodes', table', chains' := SetNext(nodes, pred, Head(c, i + 1)), SetHead(table, b, pred, Head(c, i + 1)), chains[b := Without(c, i)];
    assert BucketOk(nodes, table, chains, seed, b) && LinkOk(nodes, c, i);
    if i > 0 { assert LinkOk(nodes, c, i - 1); }
    forall k | 0 <= k < |table| ensures BucketOk(nodes', table', chains', seed, k) {
      assert BucketOk(nodes, table, chains, seed, k);
      if k == b { UnlinkChain(nodes, table, chains, seed, b, i); } else { OtherChain(nodes, nodes', table, chains, seed, b, k, pred); }
    }
    UnlinkContents(nodes, nodes', table, chains, seed, b, i);
  }

  function Without(c: seq<Ref>, i: nat): (d: seq<Ref>)
    requires i < |c|
    ensures |d| == |c| - 1 && forall j :: 0 <= j < |d| ==> d[j] == c[Skipping(j, i)]
  {
    c[..i] + c[i + 1..]
  }

  function Skipping(j: int, i: int): int {
    if j < i then j else j + 1
  }

  lemma UnlinkLink(nodes: Nodes, table: seq<Ref>, chains: seq<seq<Ref>>, seed: nat, b: nat, i: nat, j: nat)
    requires TableOk(nodes, table, chains, seed) && b < |chains| && i < |chains[b]| && j + 1 < |chains[b]|
    ensures var c := chains[b]; var pred := if i == 0 then NULL else c[i - 1];
      var nodes' := SetNext(nodes, pred, Head(c, i + 1));
      LinkOk(nodes', Without(c, i), j) && Pair(nodes', Without(c, i)[j]) == Pair(nodes, c[Skipping(j, i)])
  {
    var c := chains[b];
    assert BucketOk(nodes, table, chains, seed, b) && LinkOk(nodes, c, Skipping(j, i));
    if i > 0 && j != i - 1 { assert c[Skipping(j, i)] != c[i - 1]; }
  }

  lemma UnlinkChain(nodes: Nodes, table: seq<Ref>, chains: seq<seq<Ref>>, seed: nat, b: nat, i: nat)
    requires TableOk(nodes, table, chains, seed) && b < |chains| && i < |chains[b]|
    ensures var c := chains[b]; var pred := if i == 0 then NULL else c[i - 1];
      var nodes' := SetNext(nodes, pred, Head(c, i + 1));
      ChainOk(nodes', Without(c, i), if i == 0 then Head(c, 1) else table[b]) && KeysOk(nodes', Without(c, i), b, seed, |table|)
  {
    var c := chains[b];
    var pred := if i == 0 then NULL else c[i - 1];
    var nodes', d := SetNext(nodes, pred, Head(c, i + 1)), Without(c, i);
    assert BucketOk(nodes, table, chains, seed, b);
    forall j | 0 <= j < |d| ensures LinkOk(nodes', d, j) && Pair(nodes', d[j]) == Pair(nodes, c[Skipping(j, i)]) {
      UnlinkLink(nodes, table, chains, seed, b, i, j);
    }
  }

  lemma UnlinkContents(nodes: Nodes, nodes': Nodes, table: seq<Ref>, chains: seq<seq<Ref>>, seed: nat, b: nat, i: nat)
    requires TableOk(nodes, table, chains, seed) && b < |chains| && i < |chains[b]| && |nodes'| == |nodes|
    requires forall r :: 0 <= r < |nodes| ==> nodes'[r].key == nodes[r].key && nodes'[r].val == nodes[r].val
    ensures var x := Pair(nodes, chains[b][i]);
      Removes(x.0, x.1)(Contents(nodes, chains), Contents(nodes', chains[b := Without(chains[b], i)]))
  {
    var c, x := chains[b], Pair(nodes, chains[b][i]);
    var chains' := chains[b := Without(c, i)];
    assert x in Contents(nodes, chains) by { assert chains[b][i] == c[i]; }
    forall y | y in Contents(nodes, chains) && y != x ensures y in Contents(nodes', chains') {
      var k, j :| 0 <= k < |chains| && 0 <= j < |chains[k]| && Pair(nodes, chains[k][j]) == y;
      var l := if k == b && j > i then j - 1 else j;
      assert BucketOk(nodes, table, chains, seed, k) && LinkOk(nodes, chains[k], j);
      assert chains'[k][l] == chains[k][j];
    }
    forall y | y in Contents(nodes', chains') ensures y in Contents(nodes, chains) && y.0 != x.0 {
      UnlinkedStays(nodes, nodes', table, chains, seed, b, i, y);
    }
    assert Contents(nodes', chains') == Contents(nodes, chains) - {x};
  }

  lemma UnlinkedStays(nodes: Nodes, nodes': Nodes, table: seq<Ref>, chains: seq<seq<Ref>>, seed: nat, b: nat, i: nat, y: (int, int))
    requires TableOk(nodes, table, chains, seed) && b < |chains| && i < |chains[b]| && |nodes'| == |nodes|
    requires forall r :: 0 <= r < |nodes| ==> nodes'[r].key == nodes[r].key && nodes'[r].val == nodes[r].val
    requires y in Contents(nodes', chains[b := Without(chains[b], i)])
    ensures y in Contents(nodes, chains) && y.0 != Pair(nodes, chains[b][i]).0
  {
    var chains' := chains[b := Without(chains[b], i)];
    var k, j :| 0 <= k < |chains'| && 0 <= j < |chains'[k]| && Pair(nodes', chains'[k][j]) == y;
    var l := if k == b then Skipping(j, i) else j;
    assert BucketOk(nodes, table, chains, seed, k) && BucketOk(nodes, table, chains, seed, b);
    assert chains'[k][j] == chains[k][l] && LinkOk(nodes, chains[k], l) && LinkOk(nodes, chains[b], i);
    if k != b { assert Index(nodes, chains[k][l], seed, |table|) != Index(nodes, chains[b][i], seed, |table|); }
  }

  // ---------------------------------------------------------------- what one step does

  /** The invariant survives every step of every thread. */
  lemma StepInv(h: Mem, t: nat, a: Act)
    requires Inv(h) && Enabled(h, t, a)
    ensures Inv(Do(h, t, a))
  {
    match a
    case Append(b, pred, key, val) => AppendInv(h, t, b, pred, key, val);
    case Unlink(b, i, pred, curr) => UnlinkInv(h, t, b, i, pred, curr);
    case Publish(nodes, table, chains, key, val) => PublishInv(h, t, nodes, table, chains, key, val);
    case _ =>
  }

  lemma AppendInv(h: Mem, t: nat, b: nat, pred: Ref, key: int, val: int)
    requires Inv(h) && Enabled(h, t, Append(b, pred, key, val))
    ensures Inv(Do(h, t, Append(b, pred, key, val)))
  {
    var h' := Do(h, t, Append(b, pred, key, val));
    AppendedTable(h, t, b, pred, key, val);
    AddsCount(Elements(h), Elements(h'), key, val);
    assert |Cur(h').table| == |Cur(h).table| && Cur(h').limit == Cur(h).limit && Cur(h').size == Cur(h).size;
  }

  lemma AppendedTable(h: Mem, t: nat, b: nat, pred: Ref, key: int, val: int)
    requires Inv(h) && Enabled(h, t, Append(b, pred, key, val))
    ensures var h' := Do(h, t, Append(b, pred, key, val));
      TableOk(h'.nodes, Cur(h').table, Cur(h').chains, h'.seed) && Adds(key, val)(Elements(h), Elements(h'))
  {
    AppendEffect(h.nodes, Cur(h).table, Cur(h).chains, h.seed, b, key, val);
  }

  lemma UnlinkInv(h: Mem, t: nat, b: nat, i: nat, pred: Ref, curr: Ref)
    requires Inv(h) && Enabled(h, t, Unlink(b, i, pred, curr))
    ensures Inv(Do(h, t, Unlink(b, i, pred, curr)))
  {
    var h' := Do(h, t, Unlink(b, i, pred, curr));
    var x := Pair(h.nodes, curr);
    UnlinkedTable(h, t, b, i, pred, curr);
    RemovesCount(Elements(h), Elements(h'), x.0, x.1);
    assert |Cur(h').table| == |Cur(h).table| && Cur(h').limit == Cur(h).limit && Cur(h').size == Cur(h).size;
  }

  lemma UnlinkedTable(h: Mem, t: nat, b: nat, i: nat, pred: Ref, curr: Ref)
    requires Inv(h) && Enabled(h, t, Unlink(b, i, pred, curr))
    ensures var h' := Do(h, t, Unlink(b, i, pred, curr)); var x := Pair(h.nodes, curr);
      TableOk(h'.nodes, Cur(h').table, Cur(h').chains, h'.seed) && Removes(x.0, x.1)(Elements(h), Elements(h'))
  {
    UnlinkEffect(h.nodes, Cur(h).table, Cur(h).chains, h.seed, b, i);
  }

  lemma PublishInv(h: Mem, t: nat, nodes: Nodes, table: seq<Ref>, chains: seq<seq<Ref>>, key: int, val: int)
    requires Inv(h) && Enabled(h, t, Publish(nodes, table, chains, key, val))
    ensures Inv(Do(h, t, Publish(nodes, table, chains, key, val)))
  {
    AddsCount(Elements(h), Contents(nodes, chains), key, val);
    DoublePow2(|Cur(h).table|);
    LimitGrows(h.load, |Cur(h).table|);
  }

  /** The set changes in the steps that append to a chain, unlink from one, and publish a grown
      segment, by exactly one pair, and in no other. */
  lemma StepEffect(h: Mem, t: nat, a: Act)
    requires Inv(h) && Enabled(h, t, a)
    ensures match a
      case Append(b, pred, key, val) => Adds(key, val)(Elements(h), Elements(Do(h, t, a)))
      case Publish(nodes, table, chains, key, val) => Adds(key, val)(Elements(h), Elements(Do(h, t, a)))
      case Unlink(b, i, pred, curr) =>
        var x := Pair(h.nodes, curr); Removes(x.0, x.1)(Elements(h), Elements(Do(h, t, a)))
      case _ => Elements(Do(h, t, a)) == Elements(h)
  {
    match a
    case Append(b, pred, key, val) => AppendedTable(h, t, b, pred, key, val);
    case Unlink(b, i, pred, curr) => UnlinkedTable(h, t, b, i, pred, curr);
    case _ =>
  }

  /** Steps that clients cannot see. */
  predicate Silent(a: Act) {
    !a.Append? && !a.Unlink? && !a.Publish?
  }

  /** While a thread holds the lock of the published segment, nobody else can do anything. */
  lemma LockExcludes(h: Mem, t: nat, u: nat, a: Act)
    requires Inv(h) && Enabled(h, u, a) && u != t
    ensures !Mine(h, t)
    ensures !Mine(Do(h, u, a), t)
  {
  }

  // ---------------------------------------------------------------- what readers rely on

  ghost predicate Listed(h: Mem, b: nat, r: Ref) {
    0 < |h.segs| && b < |Cur(h).chains| && r in Cur(h).chains[b]
  }

  /** The node is in a chain of the published table. */
  ghost predicate Live(h: Mem, r: Ref) {
    exists b {:trigger Listed(h, b, r)} :: Listed(h, b, r)
  }

  /** What every step leaves to those who read without the lock: nodes keep key and value, only a
      node of the published table may have its next changed, a replaced table stays as it is. */
  ghost predicate Steps(h: Mem, h': Mem) {
    && |h.nodes| <= |h'.nodes| && |h.segs| <= |h'.segs| && h'.seed == h.seed
    && (forall r :: 0 <= r < |h.nodes| ==> h'.nodes[r].key == h.nodes[r].key && h'.nodes[r].val == h.nodes[r].val)
    && (forall r {:trigger h'.nodes[r]} :: 0 <= r < |h.nodes| && h'.nodes[r].next != h.nodes[r].next ==> Live(h', r))
    && (forall s :: 0 <= s < |h.segs| ==> |h'.segs[s].table| == |h.segs[s].table|)
    && (forall s :: 0 <= s < |h.segs| && s != |h'.segs| - 1 ==> h'.segs[s].table == h.segs[s].table)
  }

  lemma StepSteps(h: Mem, t: nat, a: Act)
    requires Inv(h) && Enabled(h, t, a)
    ensures Steps(h, Do(h, t, a))
  {
    match a
    case Append(b, pred, key, val) => AppendSteps(h, t, b, pred, key, val);
    case Unlink(b, i, pred, curr) => UnlinkSteps(h, t, b, i, pred, curr);
    case _ =>
  }

  lemma AppendSteps(h: Mem, t: nat, b: nat, pred: Ref, key: int, val: int)
    requires Inv(h) && Enabled(h, t, Append(b, pred, key, val))
    ensures Steps(h, Do(h, t, Append(b, pred, key, val)))
  {
    assert BucketOk(h.nodes, Cur(h).table, Cur(h).chains, h.seed, b);
    assert Cur(h).chains[b] != [] ==> Listed(Do(h, t, Append(b, pred, key, val)), b, pred);
  }

  lemma UnlinkSteps(h: Mem, t: nat, b: nat, i: nat, pred: Ref, curr: Ref)
    requires Inv(h) && Enabled(h, t, Unlink(b, i, pred, curr))
    ensures Steps(h, Do(h, t, Unlink(b, i, pred, curr)))
  {
    var h' := Do(h, t, Unlink(b, i, pred, curr));
    assert BucketOk(h.nodes, Cur(h).table, Cur(h).chains, h.seed, b);
    if i > 0 {
      var d := Without(Cur(h).chains[b], i);
      assert Cur(h').chains[b] == d && d[i - 1] == pred;
      assert Listed(h', b, pred);
    }
    assert forall r :: 0 <= r < |h.nodes| && r != pred ==> h'.nodes[r] == h.nodes[r];
  }

  /** A node of the published table holds an element, and its next is such a node too. */
  lemma LiveIsElement(h: Mem, r: Ref)
    requires Inv(h) && Live(h, r)
    ensures In(h.nodes, r) && Pair(h.nodes, r) in Elements(h)
    ensures h.nodes[r].next != NULL ==> Live(h, h.nodes[r].next)
  {
    var b: nat :| Listed(h, b, r);
    var c := Cur(h).chains[b];
    var i :| 0 <= i < |c| && c[i] == r;
    assert BucketOk(h.nodes, Cur(h).table, Cur(h).chains, h.seed, b) && LinkOk(h.nodes, c, i);
    assert Pair(h.nodes, Cur(h).chains[b][i]) in Elements(h);
    if i + 1 < |c| { assert Listed(h, b, c[i + 1]); }
  }

  lemma HeadIsLive(h: Mem, b: nat)
    requires Inv(h) && b < |Cur(h).table| && Cur(h).table[b] != NULL
    ensures Live(h, Cur(h).table[b])
  {
    assert BucketOk(h.nodes, Cur(h).table, Cur(h).chains, h.seed, b);
    assert Listed(h, b, Cur(h).table[b]);
  }

  /** `path` follows next pointers. */
  ghost predicate IsPath(nodes: Nodes, path: seq<Ref>) {
    0 < |path| && forall i :: 0 <= i < |path| ==> PathLink(nodes, path, i)
  }

  predicate PathLink(nodes: Nodes, path: seq<Ref>, i: int) {
    0 <= i < |path| && In(nodes, path[i]) && (i + 1 < |path| ==> nodes[path[i]].next == path[i + 1])
  }

  ghost predicate LeadsBy(nodes: Nodes, path: seq<Ref>, p: Ref, key: int) {
    IsPath(nodes, path) && path[0] == p && Pair(nodes, path[|path| - 1]).0 == key
  }

  /** A reader at `p` that only follows next pointers will meet the key. */
  ghost predicate Leads(nodes: Nodes, p: Ref, key: int) {
    exists path {:trigger LeadsBy(nodes, path, p, key)} :: LeadsBy(nodes, path, p, key)
  }

  lemma LeadsFromNode(nodes: Nodes, p: Ref, key: int)
    requires Leads(nodes, p, key)
    ensures In(nodes, p)
  {
    var path :| LeadsBy(nodes, path, p, key);
    assert PathLink(nodes, path, 0);
  }

  lemma PathTail(nodes: Nodes, path: seq<Ref>)
    requires IsPath(nodes, path) && 1 < |path|
    ensures IsPath(nodes, path[1..])
  {
    forall i | 0 <= i < |path[1..]| ensures PathLink(nodes, path[1..], i) { assert PathLink(nodes, path, i + 1); }
  }

  lemma PathFront(nodes: Nodes, p: Ref, path: seq<Ref>)
    requires IsPath(nodes, path) && In(nodes, p) && nodes[p].next == path[0]
    ensures IsPath(nodes, [p] + path)
  {
    forall i | 0 <= i < |[p] + path| ensures PathLink(nodes, [p] + path, i) {
      if i > 0 { assert PathLink(nodes, path, i - 1); }
    }
  }

  /** One step of the reader: if it is not at the key yet, the next node leads there. */
  lemma LeadsOn(nodes: Nodes, p: Ref, key: int)
    requires Leads(nodes, p, key) && Pair(nodes, p).0 != key
    ensures In(nodes, p) && Leads(nodes, nodes[p].next, key)
  {
    var path :| LeadsBy(nodes, path, p, key);
    assert PathLink(nodes, path, 0);
    PathTail(nodes, path);
    assert LeadsBy(nodes, path[1..], path[1], key);
  }

  /** A path that does not end at `curr` survives the unlinking of `curr`. */
  lemma {:induction false} PathAround(nodes: Nodes, path: seq<Ref>, pred: Ref, curr: Ref) returns (path': seq<Ref>)
    requires IsPath(nodes, path) && In(nodes, pred) && In(nodes, curr) && nodes[pred].next == curr && pred != curr
    requires path[|path| - 1] != curr
    ensures IsPath(SetNext(nodes, pred, nodes[curr].next), path') && path'[0] == path[0] && path'[|path'| - 1] == path[|path| - 1]
    decreases |path|
  {
    var nodes' := SetNext(nodes, pred, nodes[curr].next);
    assert PathLink(nodes, path, 0);
    if |path| == 1 {
      path' := path;
      assert PathLink(nodes', path', 0);
    } else {
      PathTail(nodes, path);
      if path[0] == pred {
        assert PathLink(nodes, path, 1);
        PathTail(nodes, path[1..]);
        var rest := PathAround(nodes, path[1..][1..], pred, curr);
        path' := [pred] + rest;
        PathFront(nodes', pred, rest);
      } else {
        var rest := PathAround(nodes, path[1..], pred, curr);
        path' := [path[0]] + rest;
        PathFront(nodes', path[0], rest);
      }
    }
  }

  /** What a reader is on its way to stays ahead of it, unless the step removes the key. */
  lemma StepLeads(h: Mem, t: nat, a: Act, p: Ref, key: int)
    requires Inv(h) && Enabled(h, t, a) && Leads(h.nodes, p, key)
    ensures Leads(Do(h, t, a).nodes, p, key) || Lacks(Elements(Do(h, t, a)), key)
  {
    var path :| LeadsBy(h.nodes, path, p, key);
    if a.Unlink? {
      UnlinkLeads(h, t, a.b, a.i, a.pred, a.curr, path, p, key);
    } else {
      var nodes' := Do(h, t, a).nodes;
      forall i | 0 <= i < |path| ensures PathLink(nodes', path, i) && Pair(nodes', path[i]) == Pair(h.nodes, path[i]) {
        assert PathLink(h.nodes, path, i);
        if i + 1 < |path| { assert PathLink(h.nodes, path, i + 1); }
        if a.Append? {
          assert BucketOk(h.nodes, Cur(h).table, Cur(h).chains, h.seed, a.b);
          if Cur(h).chains[a.b] != [] { assert LinkOk(h.nodes, Cur(h).chains[a.b], |Cur(h).chains[a.b]| - 1); }
        }
      }
      assert LeadsBy(nodes', path, p, key);
    }
  }

  lemma UnlinkLeads(h: Mem, t: nat, b: nat, i: nat, pred: Ref, curr: Ref, path: seq<Ref>, p: Ref, key: int)
    requires Inv(h) && Enabled(h, t, Unlink(b, i, pred, curr)) && LeadsBy(h.nodes, path, p, key)
    ensures Leads(Do(h, t, Unlink(b, i, pred, curr)).nodes, p, key) || Lacks(Elements(Do(h, t, Unlink(b, i, pred, curr))), key)
  {
    var c, nodes' := Cur(h).chains[b], Do(h, t, Unlink(b, i, pred, curr)).nodes;
    StepEffect(h, t, Unlink(b, i, pred, curr));
    assert BucketOk(h.nodes, Cur(h).table, Cur(h).chains, h.seed, b) && LinkOk(h.nodes, c, i);
    if path[|path| - 1] != c[i] {
      if i == 0 {
        assert LeadsBy(nodes', path, p, key);
      } else {
        assert LinkOk(h.nodes, c, i - 1);
        assert PathLink(h.nodes, path, |path| - 1);
        var path' := PathAround(h.nodes, path, c[i - 1], c[i]);
        assert LeadsBy(nodes', path', p, key);
      }
    }
  }

  /** The same for a reader that has found the table but not read the bucket yet. */
  lemma StepBucketLeads(h: Mem, t: nat, a: Act, s: nat, b: nat, key: int)
    requires Inv(h) && Enabled(h, t, a) && s < |h.segs| && b < |h.segs[s].table| && Leads(h.nodes, h.segs[s].table[b], key)
    ensures var h' := Do(h, t, a);
      s < |h'.segs| && b < |h'.segs[s].table| && (Leads(h'.nodes, h'.segs[s].table[b], key) || Lacks(Elements(h'), key))
  {
    StepLeads(h, t, a, h.segs[s].table[b], key);
    match a
    case Unlink(k, i, _, _) =>
      assert BucketOk(h.nodes, Cur(h).table, Cur(h).chains, h.seed, k);
      if i > 0 { assert LinkOk(h.nodes, Cur(h).chains[k], i - 1); }
      if s == |h.segs| - 1 && k == b && i == 0 { UnlinkBucketLeads(h, t, b, a.curr, key); }
    case Append(k, pred, _, _) =>
      if s == |h.segs| - 1 && k == b && pred == NULL { HeadInHeap(h, b, key); }
    case _ =>
  }

  lemma HeadInHeap(h: Mem, b: nat, key: int)
    requires Inv(h) && b < |Cur(h).table| && Leads(h.nodes, Cur(h).table[b], key)
    ensures Last(Cur(h).chains[b]) != NULL
  {
    var path :| LeadsBy(h.nodes, path, Cur(h).table[b], key);
    assert PathLink(h.nodes, path, 0);
    var c := Cur(h).chains[b];
    assert BucketOk(h.nodes, Cur(h).table, Cur(h).chains, h.seed, b);
    assert c != [] && LinkOk(h.nodes, c, |c| - 1);
  }

  lemma UnlinkBucketLeads(h: Mem, t: nat, b: nat, curr: Ref, key: int)
    requires Inv(h) && Enabled(h, t, Unlink(b, 0, NULL, curr)) && Leads(h.nodes, Cur(h).table[b], key)
    ensures var h' := Do(h, t, Unlink(b, 0, NULL, curr)); Leads(h'.nodes, Cur(h').table[b], key) || Lacks(Elements(h'), key)
  {
    StepEffect(h, t, Unlink(b, 0, NULL, curr));
    assert BucketOk(h.nodes, Cur(h).table, Cur(h).chains, h.seed, b) && LinkOk(h.nodes, Cur(h).chains[b], 0);
    if Pair(h.nodes, Cur(h).table[b]).0 != key { LeadsOn(h.nodes, Cur(h).table[b], key); }
  }

  lemma ChainLeads(nodes: Nodes, c: seq<Ref>, head: Ref, i: nat)
    requires ChainOk(nodes, c, head) && i < |c|
    ensures Leads(nodes, head, Pair(nodes, c[i]).0)
  {
    var path := c[..i + 1];
    forall j | 0 <= j < |path| ensures PathLink(nodes, path, j) { assert LinkOk(nodes, c, j); }
    assert LeadsBy(nodes, path, head, Pair(nodes, c[i]).0);
  }

  /** A key that is there is ahead of whoever reads its bucket in the published table. */
  lemma PresentIsAhead(h: Mem, key: int)
    requires Inv(h) && !Lacks(Elements(h), key)
    ensures var b := Bucket(key, h.seed, |Cur(h).table|); b < |Cur(h).table| && Leads(h.nodes, Cur(h).table[b], key)
  {
    PresentIsAheadIn(h.nodes, Cur(h).table, Cur(h).chains, h.seed, key);
  }

  lemma PresentIsAheadIn(nodes: Nodes, table: seq<Ref>, chains: seq<seq<Ref>>, seed: nat, key: int)
    requires TableOk(nodes, table, chains, seed) && !Lacks(Contents(nodes, chains), key)
    ensures Leads(nodes, table[Bucket(key, seed, |table|)], key)
  {
    var b := Bucket(key, seed, |table|);
    LacksIff(nodes, table, chains, seed, key);
    var r :| r in chains[b] && Pair(nodes, r).0 == key;
    var i :| 0 <= i < |chains[b]| && chains[b][i] == r;
    assert BucketOk(nodes, table, chains, seed, b);
    ChainLeads(nodes, chains[b], table[b], i);
  }
}
