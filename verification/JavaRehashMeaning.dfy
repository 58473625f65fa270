/** What a rehash means: with a power of two as capacity the new table holds exactly the old pairs
    and the new one, the old nodes are untouched and the tails of the old chains shared; with
    any other capacity some table loses a pair. */
module JavaRehashMeaning {
  import opened SetCalls
  import opened JavaMapModel
  import opened JavaRehash

  // ---------------------------------------------------------------- where the nodes of a chain go

  function PairsOf(nodes: Nodes, c: seq<Ref>): (s: seq<(int, int)>)
    ensures |s| == |c|
  {
    seq(|c|, i requires 0 <= i < |c| => Pair(nodes, c[i]))
  }

  /** The copies, in the new bucket `k`, of the first `n` nodes of the chain: each was put in
      front of those before. */
  function CopyOrder(nodes: Nodes, c: seq<Ref>, n: nat, k: nat, seed: nat, capacity: nat): seq<(int, int)>
    requires n <= |c| && 0 < capacity
  {
    if n == 0 then []
    else
      var rest := CopyOrder(nodes, c, n - 1, k, seed, capacity);
      if Index(nodes, c[n - 1], seed, capacity) == k then [Pair(nodes, c[n - 1])] + rest else rest
  }

  /** From position `s` on all nodes go to the same new bucket, and no longer tail does. */
  ghost predicate LastRun(nodes: Nodes, c: seq<Ref>, s: nat, seed: nat, capacity: nat)
    requires 0 < capacity
  {
    && s < |c|
    && (forall i :: s <= i < |c| ==> Index(nodes, c[i], seed, capacity) == Index(nodes, c[s], seed, capacity))
    && (s > 0 ==> Index(nodes, c[s - 1], seed, capacity) != Index(nodes, c[s], seed, capacity))
  }

  /** The part of the chain that bucket `k` of the new table reuses. */
  function Shared(nodes: Nodes, c: seq<Ref>, s: nat, k: nat, seed: nat, capacity: nat): seq<Ref>
    requires 0 < capacity
  {
    if s < |c| && Index(nodes, c[s], seed, capacity) == k then c[s..] else []
  }

  /** The chain `d` of bucket `k` after the first `n` nodes of the old chain `c` have been dealt
      with: copies of those that belong there, then the reused tail. */
  ghost predicate Moved(was: Nodes, nodes: Nodes, c: seq<Ref>, s: nat, n: nat, d: seq<Ref>, k: nat, seed: nat, capacity: nat)
    requires 0 < capacity
  {
    var tail := Shared(was, c, s, k, seed, capacity);
    var m := |d| - |tail|;
    && n <= |c| && 0 <= m && d[m..] == tail
    && PairsOf(nodes, d[..m]) == CopyOrder(was, c, n, k, seed, capacity)
    && (forall j :: 0 <= j < m ==> |was| <= d[j])
  }

  lemma {:induction false} CopyOrigin(nodes: Nodes, c: seq<Ref>, n: nat, k: nat, seed: nat, capacity: nat, j: nat) returns (i: nat)
    requires n <= |c| && 0 < capacity && j < |CopyOrder(nodes, c, n, k, seed, capacity)|
    ensures i < n && Index(nodes, c[i], seed, capacity) == k && Pair(nodes, c[i]) == CopyOrder(nodes, c, n, k, seed, capacity)[j]
  {
    if Index(nodes, c[n - 1], seed, capacity) != k {
      i := CopyOrigin(nodes, c, n - 1, k, seed, capacity, j);
    } else if j == 0 {
      i := n - 1;
    } else {
      i := CopyOrigin(nodes, c, n - 1, k, seed, capacity, j - 1);
    }
  }

  lemma {:induction false} CopyTarget(nodes: Nodes, c: seq<Ref>, n: nat, k: nat, seed: nat, capacity: nat, i: nat)
    requires i < n <= |c| && 0 < capacity && Index(nodes, c[i], seed, capacity) == k
    ensures Pair(nodes, c[i]) in CopyOrder(nodes, c, n, k, seed, capacity)
  {
    if i < n - 1 { CopyTarget(nodes, c, n - 1, k, seed, capacity, i); }
  }

  lemma {:induction false} CopyDistinct(nodes: Nodes, c: seq<Ref>, n: nat, k: nat, seed: nat, capacity: nat, j: nat, l: nat)
    requires n <= |c| && 0 < capacity && j < l < |CopyOrder(nodes, c, n, k, seed, capacity)|
    requires forall i, m :: 0 <= i < m < |c| ==> Pair(nodes, c[i]).0 != Pair(nodes, c[m]).0
    ensures CopyOrder(nodes, c, n, k, seed, capacity)[j].0 != CopyOrder(nodes, c, n, k, seed, capacity)[l].0
  {
    if Index(nodes, c[n - 1], seed, capacity) != k {
      CopyDistinct(nodes, c, n - 1, k, seed, capacity, j, l);
    } else if j == 0 {
      var i := CopyOrigin(nodes, c, n - 1, k, seed, capacity, l - 1);
    } else {
      CopyDistinct(nodes, c, n - 1, k, seed, capacity, j - 1, l - 1);
    }
  }

  // ---------------------------------------------------------------- what a finished bucket holds

  /** A new bucket holds exactly the pairs of the old chain that belong there. */
  lemma MovedHolds(was: Nodes, nodes: Nodes, c: seq<Ref>, s: nat, d: seq<Ref>, k: nat, seed: nat, capacity: nat, x: (int, int))
    requires 0 < capacity && was <= nodes && (c == [] ==> s == 0) && (c != [] ==> LastRun(was, c, s, seed, capacity))
    requires forall i :: 0 <= i < |c| ==> In(was, c[i])
    requires Moved(was, nodes, c, s, s, d, k, seed, capacity)
    ensures (exists j :: 0 <= j < |d| && Pair(nodes, d[j]) == x) <==>
      (exists i :: 0 <= i < |c| && Index(was, c[i], seed, capacity) == k && Pair(was, c[i]) == x)
  {
    var tail := Shared(was, c, s, k, seed, capacity);
    var m := |d| - |tail|;
    var copies := CopyOrder(was, c, s, k, seed, capacity);
    if j :| 0 <= j < |d| && Pair(nodes, d[j]) == x {
      if j < m {
        assert PairsOf(nodes, d[..m])[j] == Pair(nodes, d[j]);
        var i := CopyOrigin(was, c, s, k, seed, capacity, j);
      } else {
        assert d[j] == d[m..][j - m] == tail[j - m] == c[s + (j - m)];
        assert Pair(was, c[s + (j - m)]) == x;
      }
    }
    if i :| 0 <= i < |c| && Index(was, c[i], seed, capacity) == k && Pair(was, c[i]) == x {
      if i < s {
        CopyTarget(was, c, s, k, seed, capacity, i);
        var j :| 0 <= j < |copies| && copies[j] == x;
        assert PairsOf(nodes, d[..m])[j] == Pair(nodes, d[j]);
      } else {
        assert tail == c[s..] && tail[i - s] == c[i] && d[m..][i - s] == d[m + (i - s)];
        assert Pair(nodes, d[m + (i - s)]) == x;
      }
    }
  }

  /** The keys of a new bucket are distinct and belong there. */
  lemma MovedKeys(was: Nodes, nodes: Nodes, c: seq<Ref>, s: nat, d: seq<Ref>, k: nat, seed: nat, capacity: nat)
    requires 0 < capacity && was <= nodes && (c == [] ==> s == 0) && (c != [] ==> LastRun(was, c, s, seed, capacity))
    requires forall i :: 0 <= i < |c| ==> In(was, c[i])
    requires forall i, m :: 0 <= i < m < |c| ==> Pair(was, c[i]).0 != Pair(was, c[m]).0
    requires Moved(was, nodes, c, s, s, d, k, seed, capacity)
    ensures KeysOk(nodes, d, k, seed, capacity)
  {
    var m := |d| - |Shared(was, c, s, k, seed, capacity)|;
    forall j | 0 <= j < |d| ensures Index(nodes, d[j], seed, capacity) == k {
      MovedHolds(was, nodes, c, s, d, k, seed, capacity, Pair(nodes, d[j]));
    }
    forall j, l | 0 <= j < l < |d| ensures Pair(nodes, d[j]).0 != Pair(nodes, d[l]).0 {
      if j < m { assert PairsOf(nodes, d[..m])[j] == Pair(nodes, d[j]); } else { assert d[j] == d[m..][j - m] == c[s + (j - m)]; }
      if l < m {
        assert PairsOf(nodes, d[..m])[l] == Pair(nodes, d[l]);
        CopyDistinct(was, c, s, k, seed, capacity, j, l);
      } else {
        assert d[l] == d[m..][l - m] == c[s + (l - m)];
        if j < m { var i := CopyOrigin(was, c, s, k, seed, capacity, j); }
      }
    }
  }

  // ---------------------------------------------------------------- the new table, bucket by bucket

  /** `s` is where the reused tail of bucket `b` begins. */
  ghost predicate StartOk(job: Job, b: nat, s: nat) {
    b < |job.chains| && if job.chains[b] == [] then s == 0 else LastRun(job.was, job.chains[b], s, job.seed, 2 * |job.chains|)
  }

  /** Bucket `k` of the new table when the old buckets before `b` are done and the first `n` nodes
      of bucket `b` are copied; `n` is negative before the tail of `b` is in place. */
  ghost predicate SlotOk(job: Job, nodes: Nodes, d: seq<Ref>, head: Ref, starts: seq<nat>, b: nat, n: int, k: nat)
    requires 0 < |job.chains| == |starts|
  {
    var o, capacity := k % |job.chains|, 2 * |job.chains|;
    && ChainOk(nodes, d, head)
    && (if o < b then Moved(job.was, nodes, job.chains[o], starts[o], starts[o], d, k, job.seed, capacity)
        else if o == b && n >= 0 then Moved(job.was, nodes, job.chains[o], starts[o], n, d, k, job.seed, capacity)
        else d == [])
  }

  ghost predicate Slots(job: Job, nodes: Nodes, table: seq<Ref>, chains: seq<seq<Ref>>, starts: seq<nat>, b: nat, n: int) {
    && 0 < |job.chains| == |starts| && |table| == |chains| == 2 * |job.chains| && job.was <= nodes
    && (forall o {:trigger StartOk(job, o, starts[o])} :: 0 <= o < |starts| && (o < b || (o == b && n >= 0)) ==> StartOk(job, o, starts[o]))
    && (forall k {:trigger SlotOk(job, nodes, chains[k], table[k], starts, b, n, k)} ::
          0 <= k < |chains| ==> SlotOk(job, nodes, chains[k], table[k], starts, b, n, k))
  }

  /** Where the reused tails of all old buckets begin. */
  function Starts(job: Job): (starts: seq<nat>)
    requires 0 < |job.chains|
    ensures |starts| == |job.chains|
  {
    seq(|job.chains|, b requires 0 <= b < |job.chains| => var c := job.chains[b]; if c == [] then 0 else RunStart(job, c, |c|))
  }

  lemma {:induction false} RunIsLongest(job: Job, c: seq<Ref>, j: nat)
    requires 0 < |job.chains| && 1 <= j <= |c|
    ensures var s := RunStart(job, c, j);
      && (forall i :: s <= i < j ==> NewIndex(job, c[i]) == NewIndex(job, c[s]))
      && (s > 0 ==> NewIndex(job, c[s - 1]) != NewIndex(job, c[s]))
  {
    if j > 1 {
      RunIsLongest(job, c, j - 1);
      var s := RunStart(job, c, j - 1);
      assert NewIndex(job, c[j - 2]) == NewIndex(job, c[s]);
    }
  }

  lemma StartsAreOk(job: Job, b: nat)
    requires 0 < |job.chains| && b < |job.chains|
    ensures StartOk(job, b, Starts(job)[b])
  {
    var c := job.chains[b];
    if c != [] { RunIsLongest(job, c, |c|); }
  }

  lemma IndexSplits(job: Job, r: Ref)
    requires IsPow2(|job.chains|)
    ensures var c := |job.chains|;
      && 0 < c && Index(job.was, r, job.seed, 2 * c) < 2 * c
      && Index(job.was, r, job.seed, 2 * c) % c == Index(job.was, r, job.seed, c) < c
  {
    var n: nat :| |job.chains| == Pow2(n);
    BucketSplits(Pair(job.was, r).0, job.seed, n);
  }

  /** One copy put in front of its bucket. */
  lemma CopyStep(job: Job, oldTable: seq<Ref>, nodes: Nodes, table: seq<Ref>, chains: seq<seq<Ref>>, starts: seq<nat>, b: nat, n: nat)
    requires JobOk(job, oldTable) && IsPow2(|job.chains|) && b < |oldTable| && Slots(job, nodes, table, chains, starts, b, n) && n < starts[b] < |job.chains[b]|
    ensures var p := job.chains[b][n]; var k := Index(job.was, p, job.seed, 2 * |job.chains|);
      && In(job.was, p) && k < |table|
      && Slots(job, nodes + [Node(job.was[p].key, job.was[p].val, table[k])], table[k := |nodes|], chains[k := [|nodes|] + chains[k]], starts, b, n + 1)
  {
    var c, s := job.chains[b], starts[b];
    var p := c[n];
    assert BucketOk(job.was, oldTable, job.chains, job.seed, b) && LinkOk(job.was, c, n);
    IndexSplits(job, p);
    var k := Index(job.was, p, job.seed, 2 * |job.chains|);
    var nodes' := nodes + [Node(job.was[p].key, job.was[p].val, table[k])];
    var table', chains' := table[k := |nodes|], chains[k := [|nodes|] + chains[k]];
    forall l | 0 <= l < |chains| ensures SlotOk(job, nodes', chains'[l], table'[l], starts, b, n + 1, l) {
      assert SlotOk(job, nodes, chains[l], table[l], starts, b, n, l);
      SlotStep(job, nodes, nodes', chains[l], table[l], starts, b, n, l, k);
    }
    forall o | 0 <= o < |starts| && o <= b ensures StartOk(job, o, starts[o]) {
      assert StartOk(job, o, starts[o]);
    }
  }

  lemma ChainGrows(nodes: Nodes, nodes': Nodes, d: seq<Ref>, head: Ref)
    requires ChainOk(nodes, d, head) && nodes <= nodes'
    ensures ChainOk(nodes', d, head) && PairsOf(nodes', d) == PairsOf(nodes, d)
  {
    forall i | 0 <= i < |d| ensures LinkOk(nodes', d, i) && Pair(nodes', d[i]) == Pair(nodes, d[i]) { assert LinkOk(nodes, d, i); }
  }

  lemma ChainPrepend(nodes: Nodes, nodes': Nodes, d: seq<Ref>, head: Ref, node: Node)
    requires ChainOk(nodes, d, head) && nodes' == nodes + [node] && node.next == head
    ensures ChainOk(nodes', [|nodes|] + d, |nodes|)
    ensures PairsOf(nodes', [|nodes|] + d) == [(node.key, node.val)] + PairsOf(nodes, d)
  {
    ChainGrows(nodes, nodes', d, head);
    var e := [|nodes|] + d;
    forall i | 0 <= i < |e| ensures LinkOk(nodes', e, i) {
      if i > 0 { assert LinkOk(nodes', d, i - 1); }
    }
  }

  lemma SlotStep(job: Job, nodes: Nodes, nodes': Nodes, d: seq<Ref>, head: Ref, starts: seq<nat>, b: nat, n: nat, l: nat, k: nat)
    requires 0 < |job.chains| == |starts| && b < |starts| && n < starts[b] && n < |job.chains[b]|
    requires SlotOk(job, nodes, d, head, starts, b, n, l) && In(job.was, job.chains[b][n]) && job.was <= nodes
    requires k == Index(job.was, job.chains[b][n], job.seed, 2 * |job.chains|) && k % |job.chains| == b
    requires nodes <= nodes' && |nodes'| == |nodes| + 1 && Pair(nodes', |nodes|) == Pair(job.was, job.chains[b][n])
    requires l == k ==> nodes'[|nodes|].next == head
    ensures SlotOk(job, nodes', if l == k then [|nodes|] + d else d, if l == k then |nodes| else head, starts, b, n + 1, l)
  {
    if l == k {
      var c, s, capacity := job.chains[b], starts[b], 2 * |job.chains|;
      assert nodes' == nodes + [nodes'[|nodes|]];
      ChainPrepend(nodes, nodes', d, head, nodes'[|nodes|]);
      forall i | 0 <= i < |d| ensures In(nodes, d[i]) { assert LinkOk(nodes, d, i); }
      MovedPrepends(job, nodes, nodes', c, s, n, d, k);
    } else {
      MovedGrows(job, nodes, nodes', d, head, starts, b, n, l);
    }
  }

  lemma MovedPrepends(job: Job, nodes: Nodes, nodes': Nodes, c: seq<Ref>, s: nat, n: nat, d: seq<Ref>, k: nat)
    requires 0 < |job.chains| && n < |c| && Moved(job.was, nodes, c, s, n, d, k, job.seed, 2 * |job.chains|)
    requires nodes <= nodes' && |nodes'| == |nodes| + 1 && Pair(nodes', |nodes|) == Pair(job.was, c[n]) && |job.was| <= |nodes|
    requires k == Index(job.was, c[n], job.seed, 2 * |job.chains|)
    requires forall i :: 0 <= i < |d| ==> In(nodes, d[i])
    ensures Moved(job.was, nodes', c, s, n + 1, [|nodes|] + d, k, job.seed, 2 * |job.chains|)
  {
    var e, m := [|nodes|] + d, |d| - |Shared(job.was, c, s, k, job.seed, 2 * |job.chains|)|;
    assert e[m + 1..] == d[m..] && e[..m + 1] == [|nodes|] + d[..m];
    forall i | 0 <= i < m + 1 ensures PairsOf(nodes', e[..m + 1])[i] == ([Pair(nodes', |nodes|)] + PairsOf(nodes, d[..m]))[i] {
      if i > 0 { assert e[i] == d[i - 1] && Pair(nodes', d[i - 1]) == Pair(nodes, d[i - 1]); }
    }
    assert PairsOf(nodes', e[..m + 1]) == [Pair(nodes', |nodes|)] + PairsOf(nodes, d[..m]);
  }

  lemma MovedGrows(job: Job, nodes: Nodes, nodes': Nodes, d: seq<Ref>, head: Ref, starts: seq<nat>, b: nat, n: nat, l: nat)
    requires 0 < |job.chains| == |starts| && b < |starts| && n < |job.chains[b]|
    requires SlotOk(job, nodes, d, head, starts, b, n, l) && nodes <= nodes'
    requires Index(job.was, job.chains[b][n], job.seed, 2 * |job.chains|) != l
    ensures SlotOk(job, nodes', d, head, starts, b, n + 1, l)
  {
    ChainGrows(nodes, nodes', d, head);
    var o := l % |job.chains|;
    var m := |d| - |Shared(job.was, job.chains[o], starts[o], l, job.seed, 2 * |job.chains|)|;
    if 0 <= m <= |d| {
      assert PairsOf(nodes', d[..m]) == PairsOf(nodes, d[..m]) by {
        forall i | 0 <= i < m ensures Pair(nodes', d[i]) == Pair(nodes, d[i]) { assert LinkOk(nodes, d, i); }
      }
    }
  }

  /** seg_new->table[last_idx] = last_run */
  lemma RunStep(job: Job, oldTable: seq<Ref>, nodes: Nodes, table: seq<Ref>, chains: seq<seq<Ref>>, starts: seq<nat>, b: nat, s: nat)
    requires JobOk(job, oldTable) && IsPow2(|job.chains|) && b < |oldTable| && job.chains[b] != [] && Slots(job, nodes, table, chains, starts, b, -1) && StartOk(job, b, s)
    ensures var k := Index(job.was, job.chains[b][s], job.seed, 2 * |job.chains|);
      k < |table| && Slots(job, nodes, table[k := job.chains[b][s]], chains[k := job.chains[b][s..]], starts[b := s], b, 0)
  {
    var c := job.chains[b];
    IndexSplits(job, c[s]);
    var k := Index(job.was, c[s], job.seed, 2 * |job.chains|);
    assert BucketOk(job.was, oldTable, job.chains, job.seed, b);
    var table', chains', starts' := table[k := c[s]], chains[k := c[s..]], starts[b := s];
    forall l | 0 <= l < |chains| ensures SlotOk(job, nodes, chains'[l], table'[l], starts', b, 0, l) {
      assert SlotOk(job, nodes, chains[l], table[l], starts, b, -1, l);
      if l == k {
        forall i | 0 <= i < |c[s..]| ensures LinkOk(nodes, c[s..], i) { assert LinkOk(job.was, c, s + i); }
      }
      if l % |job.chains| == b { assert PairsOf(nodes, []) == []; }
    }
    forall o | 0 <= o < |starts| && o <= b ensures StartOk(job, o, starts'[o]) {
      if o < b { assert StartOk(job, o, starts[o]); }
    }
  }

  lemma BucketDone(job: Job, nodes: Nodes, table: seq<Ref>, chains: seq<seq<Ref>>, starts: seq<nat>, b: nat)
    requires b < |starts| && Slots(job, nodes, table, chains, starts, b, starts[b])
    ensures Slots(job, nodes, table, chains, starts, b + 1, -1)
  {
    forall k | 0 <= k < |chains| ensures SlotOk(job, nodes, chains[k], table[k], starts, b + 1, -1, k) {
      assert SlotOk(job, nodes, chains[k], table[k], starts, b, starts[b], k);
    }
    forall o | 0 <= o < |starts| && o < b + 1 ensures StartOk(job, o, starts[o]) {}
  }

  lemma EmptyDone(job: Job, nodes: Nodes, table: seq<Ref>, chains: seq<seq<Ref>>, starts: seq<nat>, b: nat)
    requires b < |starts| && Slots(job, nodes, table, chains, starts, b, -1) && job.chains[b] == []
    ensures Slots(job, nodes, table, chains, starts[b := 0], b + 1, -1)
  {
    var starts' := starts[b := 0];
    forall k | 0 <= k < |chains| ensures SlotOk(job, nodes, chains[k], table[k], starts', b + 1, -1, k) {
      assert SlotOk(job, nodes, chains[k], table[k], starts, b, -1, k);
      if k % |job.chains| == b { assert PairsOf(nodes, []) == []; }
    }
    forall o | 0 <= o < |starts| && o < b + 1 ensures StartOk(job, o, starts'[o]) {
      if o < b { assert StartOk(job, o, starts[o]); }
    }
  }

  lemma {:induction false} CopiedSlots(job: Job, oldTable: seq<Ref>, st: Build, b: nat, n: nat)
    requires JobOk(job, oldTable) && IsPow2(|job.chains|) && b < |oldTable| && Sized(job, st)
    requires Slots(job, st.nodes, st.table, st.chains, Starts(job), b, 0) && n <= Starts(job)[b] < |job.chains[b]|
    ensures var r := Copied(job, job.chains[b], n, st); Slots(job, r.nodes, r.table, r.chains, Starts(job), b, n)
  {
    if n > 0 {
      CopiedSlots(job, oldTable, st, b, n - 1);
      var r := Copied(job, job.chains[b], n - 1, st);
      CopyStep(job, oldTable, r.nodes, r.table, r.chains, Starts(job), b, n - 1);
    }
  }

  lemma BucketSlots(job: Job, oldTable: seq<Ref>, st: Build, b: nat)
    requires JobOk(job, oldTable) && IsPow2(|job.chains|) && b < |oldTable| && Sized(job, st)
    requires Slots(job, st.nodes, st.table, st.chains, Starts(job), b, -1)
    ensures var r := BucketMoved(job, job.chains[b], st); Slots(job, r.nodes, r.table, r.chains, Starts(job), b + 1, -1)
  {
    var c, starts := job.chains[b], Starts(job);
    StartsAreOk(job, b);
    if c == [] {
      EmptyDone(job, st.nodes, st.table, st.chains, starts, b);
      assert starts[b := 0] == starts;
    } else {
      var s := RunStart(job, c, |c|);
      assert starts[b] == s && starts[b := s] == starts;
      RunStep(job, oldTable, st.nodes, st.table, st.chains, starts, b, s);
      CopiedSlots(job, oldTable, RunStored(job, c, st), b, s);
      var r := BucketMoved(job, c, st);
      BucketDone(job, r.nodes, r.table, r.chains, starts, b);
    }
  }

  lemma {:induction false} MovedSlots(job: Job, oldTable: seq<Ref>, b: nat)
    requires JobOk(job, oldTable) && IsPow2(|job.chains|) && b <= |oldTable|
    ensures var r := MovedTo(job, b); Slots(job, r.nodes, r.table, r.chains, Starts(job), b, -1)
  {
    if b == 0 {
      var r := MovedTo(job, 0);
      forall k | 0 <= k < |r.chains| ensures SlotOk(job, r.nodes, r.chains[k], r.table[k], Starts(job), 0, -1, k) {}
    } else {
      MovedSlots(job, oldTable, b - 1);
      BucketSlots(job, oldTable, MovedTo(job, b - 1), b - 1);
    }
  }

  // ---------------------------------------------------------------- the result

  /** When all old buckets are done the new table is well formed. */
  lemma DoneIsOk(job: Job, oldTable: seq<Ref>, nodes: Nodes, table: seq<Ref>, chains: seq<seq<Ref>>, starts: seq<nat>)
    requires JobOk(job, oldTable) && IsPow2(|job.chains|) && Slots(job, nodes, table, chains, starts, |job.chains|, -1)
    ensures TableOk(nodes, table, chains, job.seed)
  {
    forall k | 0 <= k < |table| ensures BucketOk(nodes, table, chains, job.seed, k) {
      var o := k % |job.chains|;
      assert SlotOk(job, nodes, chains[k], table[k], starts, |job.chains|, -1, k);
      assert StartOk(job, o, starts[o]);
      OldChain(job, oldTable, o);
      MovedKeys(job.was, nodes, job.chains[o], starts[o], chains[k], k, job.seed, |table|);
    }
  }

  lemma OldChain(job: Job, oldTable: seq<Ref>, b: nat)
    requires JobOk(job, oldTable) && IsPow2(|job.chains|) && b < |job.chains|
    ensures forall i :: 0 <= i < |job.chains[b]| ==> In(job.was, job.chains[b][i]) && Index(job.was, job.chains[b][i], job.seed, |job.chains|) == b
    ensures forall i, j :: 0 <= i < j < |job.chains[b]| ==> Pair(job.was, job.chains[b][i]).0 != Pair(job.was, job.chains[b][j]).0
  {
    assert BucketOk(job.was, oldTable, job.chains, job.seed, b);
    forall i | 0 <= i < |job.chains[b]| ensures In(job.was, job.chains[b][i]) { assert LinkOk(job.was, job.chains[b], i); }
  }

  /** The new table holds exactly the bindings of the old one. */
  lemma DoneKeepsContents(job: Job, oldTable: seq<Ref>, nodes: Nodes, table: seq<Ref>, chains: seq<seq<Ref>>, starts: seq<nat>)
    requires JobOk(job, oldTable) && IsPow2(|job.chains|) && Slots(job, nodes, table, chains, starts, |job.chains|, -1)
    ensures Contents(nodes, chains) == Contents(job.was, job.chains)
  {
    var c := |job.chains|;
    forall x | x in Contents(nodes, chains) ensures x in Contents(job.was, job.chains) {
      var k, j :| 0 <= k < |chains| && 0 <= j < |chains[k]| && Pair(nodes, chains[k][j]) == x;
      BucketHolds(job, oldTable, nodes, table, chains, starts, k, x);
    }
    forall x | x in Contents(job.was, job.chains) ensures x in Contents(nodes, chains) {
      var b, i :| 0 <= b < c && 0 <= i < |job.chains[b]| && Pair(job.was, job.chains[b][i]) == x;
      IndexSplits(job, job.chains[b][i]);
      OldChain(job, oldTable, b);
      var k := Index(job.was, job.chains[b][i], job.seed, 2 * c);
      BucketHolds(job, oldTable, nodes, table, chains, starts, k, x);
    }
  }

  lemma BucketHolds(job: Job, oldTable: seq<Ref>, nodes: Nodes, table: seq<Ref>, chains: seq<seq<Ref>>, starts: seq<nat>, k: nat, x: (int, int))
    requires JobOk(job, oldTable) && IsPow2(|job.chains|) && Slots(job, nodes, table, chains, starts, |job.chains|, -1) && k < |chains|
    ensures var c := job.chains[k % |job.chains|];
      (exists j :: 0 <= j < |chains[k]| && Pair(nodes, chains[k][j]) == x) <==>
      (exists i :: 0 <= i < |c| && Index(job.was, c[i], job.seed, |chains|) == k && Pair(job.was, c[i]) == x)
  {
    var o := k % |job.chains|;
    assert SlotOk(job, nodes, chains[k], table[k], starts, |job.chains|, -1, k);
    assert StartOk(job, o, starts[o]);
    OldChain(job, oldTable, o);
    MovedHolds(job.was, nodes, job.chains[o], starts[o], chains[k], k, job.seed, |chains|, x);
  }

  /** A node with a new key, put in front of its bucket, adds its pair. */
  lemma PrependAdds(nodes: Nodes, table: seq<Ref>, chains: seq<seq<Ref>>, seed: nat, key: int, val: int)
    requires TableOk(nodes, table, chains, seed) && Lacks(Contents(nodes, chains), key)
    ensures var k := Bucket(key, seed, |table|);
      var nodes', table', chains' := nodes + [Node(key, val, table[k])], table[k := |nodes|], chains[k := [|nodes|] + chains[k]];
      TableOk(nodes', table', chains', seed) && Adds(key, val)(Contents(nodes, chains), Contents(nodes', chains'))
  {
    var k := Bucket(key, seed, |table|);
    var nodes', table', chains' := nodes + [Node(key, val, table[k])], table[k := |nodes|], chains[k := [|nodes|] + chains[k]];
    LacksIff(nodes, table, chains, seed, key);
    forall b | 0 <= b < |table| ensures BucketOk(nodes', table', chains', seed, b) {
      assert BucketOk(nodes, table, chains, seed, b);
      ChainGrows(nodes, nodes', chains[b], table[b]);
      forall i | 0 <= i < |chains[b]| ensures Pair(nodes', chains[b][i]) == Pair(nodes, chains[b][i]) { assert LinkOk(nodes, chains[b], i); }
      if b == k { ChainPrepend(nodes, nodes', chains[b], table[b], Node(key, val, table[k])); }
    }
    PrependContents(nodes, nodes', table, chains, seed, k, (key, val));
  }

  lemma PrependContents(nodes: Nodes, nodes': Nodes, table: seq<Ref>, chains: seq<seq<Ref>>, seed: nat, k: nat, x: (int, int))
    requires TableOk(nodes, table, chains, seed) && k < |table| && nodes <= nodes' && |nodes'| == |nodes| + 1 && Pair(nodes', |nodes|) == x
    ensures Contents(nodes', chains[k := [|nodes|] + chains[k]]) == Contents(nodes, chains) + {x}
  {
    var chains' := chains[k := [|nodes|] + chains[k]];
    assert chains'[k][0] == |nodes|;
    forall y | y in Contents(nodes, chains) ensures y in Contents(nodes', chains') {
      var b, i :| 0 <= b < |chains| && 0 <= i < |chains[b]| && Pair(nodes, chains[b][i]) == y;
      assert BucketOk(nodes, table, chains, seed, b) && LinkOk(nodes, chains[b], i);
      var j := if b == k then i + 1 else i;
      assert chains'[b][j] == chains[b][i];
    }
    forall y | y in Contents(nodes', chains') && y != x ensures y in Contents(nodes, chains) {
      var b, j :| 0 <= b < |chains'| && 0 <= j < |chains'[b]| && Pair(nodes', chains'[b][j]) == y;
      assert BucketOk(nodes, table, chains, seed, b);
      var i := if b == k then j - 1 else j;
      assert chains'[b][j] == chains[b][i] && LinkOk(nodes, chains[b], i);
    }
  }

  /** What a rehash must leave: a well-formed table of twice the size for the old pairs and the
      new one, the old nodes untouched, every bucket made of copies and of one reused tail. */
  predicate Rehashed(job: Job, nodes: Nodes, table: seq<Ref>, chains: seq<seq<Ref>>, key: int, val: int) {
    && 0 < |job.chains| && |table| == 2 * |job.chains| && TableOk(nodes, table, chains, job.seed)
    && job.was <= nodes
    && Adds(key, val)(Contents(job.was, job.chains), Contents(nodes, chains))
  }

  function Sum(s: seq<nat>, n: nat): nat
    requires n <= |s|
  {
    if n == 0 then 0 else Sum(s, n - 1) + s[n - 1]
  }

  /** The old nodes in bucket `k` are exactly the reused tail of an old chain, or none; all
      others are new, and come first. */
  ghost predicate Reuses(job: Job, d: seq<Ref>, starts: seq<nat>, k: nat) {
    && 0 < |job.chains| == |starts|
    && var o := k % |job.chains|;
       var tail := Shared(job.was, job.chains[o], starts[o], k, job.seed, 2 * |job.chains|);
       |tail| <= |d| && d[|d| - |tail|..] == tail && forall j :: 0 <= j < |d| - |tail| ==> |job.was| <= d[j]
  }

  lemma ReusesAll(job: Job, nodes: Nodes, table: seq<Ref>, chains: seq<seq<Ref>>, starts: seq<nat>, idx: nat)
    requires Slots(job, nodes, table, chains, starts, |job.chains|, -1) && idx < |chains|
    ensures var chains' := chains[idx := [|nodes|] + chains[idx]]; forall k :: 0 <= k < |chains'| ==> Reuses(job, chains'[k], starts, k)
  {
    var chains' := chains[idx := [|nodes|] + chains[idx]];
    forall k | 0 <= k < |chains'| ensures Reuses(job, chains'[k], starts, k) {
      var o := k % |job.chains|;
      assert SlotOk(job, nodes, chains[k], table[k], starts, |job.chains|, -1, k);
      var m := |chains[k]| - |Shared(job.was, job.chains[o], starts[o], k, job.seed, 2 * |job.chains|)|;
      if k == idx { assert chains'[k][m + 1..] == chains[k][m..]; }
    }
  }

  lemma {:induction false} MovedLength(job: Job, b: nat)
    requires 0 < |job.chains| && b <= |job.chains|
    ensures |MovedTo(job, b).nodes| == |job.was| + Sum(Starts(job), b)
  {
    if b > 0 { MovedLength(job, b - 1); }
  }

  /** With a power of two as capacity the rehash is right, and makes no more nodes than it must: one
      for each node before the reused tail of its chain, and the new one. */
  lemma DoubledIsRight(job: Job, oldTable: seq<Ref>, key: int, val: int)
    requires JobOk(job, oldTable) && IsPow2(|job.chains|) && Lacks(Contents(job.was, job.chains), key)
    ensures var r := Doubled(job, key, val);
      && Rehashed(job, r.nodes, r.table, r.chains, key, val)
      && (forall k :: 0 <= k < |r.chains| ==> Reuses(job, r.chains[k], Starts(job), k))
      && |r.nodes| == |job.was| + Sum(Starts(job), |job.chains|) + 1
  {
    var m, starts := MovedTo(job, |job.chains|), Starts(job);
    MovedSlots(job, oldTable, |job.chains|);
    MovedLength(job, |job.chains|);
    DoneIsOk(job, oldTable, m.nodes, m.table, m.chains, starts);
    DoneKeepsContents(job, oldTable, m.nodes, m.table, m.chains, starts);
    PrependAdds(m.nodes, m.table, m.chains, job.seed, key, val);
    ReusesAll(job, m.nodes, m.table, m.chains, starts, Bucket(key, job.seed, |m.table|));
  }

  // ---------------------------------------------------------------- other capacities

  /** What a reader finds in the doubled table. */
  function Found(r: Build): Pairs {
    Contents(r.nodes, Listing(r.nodes, r.table))
  }

  /** For this table and this new pair the rehash keeps the old bindings and adds the new one. */
  ghost predicate KeepsBindings(job: Job, oldTable: seq<Ref>, key: int, val: int)
    requires 0 < |job.chains|
  {
    JobOk(job, oldTable) && Lacks(Contents(job.was, job.chains), key) ==>
      Adds(key, val)(Contents(job.was, job.chains), Found(Doubled(job, key, val)))
  }

  /** Two nodes, each alone in its bucket. */
  function TwoNodes(capacity: nat, seed: nat, b0: nat, key0: int, b1: nat, key1: int): Job {
    Job([Node(key0, 0, NULL), Node(key1, 0, NULL)],
        seq(capacity, b => if b == b0 then [0] else if b == b1 then [1] else []), seed)
  }

  function TwoHeads(capacity: nat, b0: nat, b1: nat): seq<Ref> {
    seq(capacity, b => if b == b0 then 0 else if b == b1 then 1 else NULL)
  }

  /** The two keys are in buckets of their own and go to the same new bucket. */
  predicate Meet(capacity: nat, seed: nat, b0: nat, key0: int, b1: nat, key1: int) {
    && b0 < b1 < capacity
    && Bucket(key0, seed, capacity) == b0 && Bucket(key1, seed, capacity) == b1
    && Bucket(key0, seed, 2 * capacity) == Bucket(key1, seed, 2 * capacity)
  }

  lemma TwoNodesOk(capacity: nat, seed: nat, b0: nat, key0: int, b1: nat, key1: int)
    requires Meet(capacity, seed, b0, key0, b1, key1)
    ensures var job := TwoNodes(capacity, seed, b0, key0, b1, key1);
      JobOk(job, TwoHeads(capacity, b0, b1)) && (key0, 0) in Contents(job.was, job.chains) && key0 != key1
    ensures var job := TwoNodes(capacity, seed, b0, key0, b1, key1);
      forall key :: key != key0 && key != key1 ==> Lacks(Contents(job.was, job.chains), key)
  {
    var job, table := TwoNodes(capacity, seed, b0, key0, b1, key1), TwoHeads(capacity, b0, b1);
    forall b | 0 <= b < capacity ensures BucketOk(job.was, table, job.chains, seed, b) {
      forall i | 0 <= i < |job.chains[b]| ensures LinkOk(job.was, job.chains[b], i) {}
    }
    assert Pair(job.was, job.chains[b0][0]) == (key0, 0);
  }

  /** The second run is stored over the first. */
  lemma {:induction false} SecondOverFirst(capacity: nat, seed: nat, b0: nat, key0: int, b1: nat, key1: int, b: nat)
    requires Meet(capacity, seed, b0, key0, b1, key1) && b <= capacity
    ensures var job := TwoNodes(capacity, seed, b0, key0, b1, key1); var r := MovedTo(job, b);
      && r.nodes == job.was
      && (forall k :: 0 <= k < 2 * capacity && r.table[k] != NULL ==>
            k == Bucket(key0, seed, 2 * capacity) && r.table[k] == if b <= b1 then 0 else 1)
  {
    if b > 0 { SecondOverFirst(capacity, seed, b0, key0, b1, key1, b - 1); }
  }

  lemma {:induction false} NeverMet(nodes: Nodes, r: Ref, n: nat, x: Ref)
    requires r != x && forall q :: 0 <= q < |nodes| ==> nodes[q].next != x
    ensures x !in Follow(nodes, r, n)
    decreases n
  {
    if n > 0 && In(nodes, r) { NeverMet(nodes, nodes[r].next, n - 1, x); }
  }

  /** A node that nothing points to is not found, nor its key if no other node has it. */
  lemma UnreachedLacks(r: Build, x: Ref, key: int)
    requires forall k :: 0 <= k < |r.table| ==> r.table[k] != x
    requires forall q :: 0 <= q < |r.nodes| ==> r.nodes[q].next != x && (q != x ==> r.nodes[q].key != key)
    ensures Lacks(Found(r), key)
  {
    var l := Listing(r.nodes, r.table);
    forall y | y in Contents(r.nodes, l) ensures y.0 != key {
      var b, i :| 0 <= b < |l| && 0 <= i < |l[b]| && Pair(r.nodes, l[b][i]) == y;
      NeverMet(r.nodes, r.table[b], |r.nodes|, x);
      FollowIn(r.nodes, r.table[b], |r.nodes|);
      assert l[b][i] in l[b];
    }
  }

  /** Then no reader of the new table meets the first key, whatever new pair the rehash was for. */
  lemma FirstIsLost(capacity: nat, seed: nat, b0: nat, key0: int, b1: nat, key1: int, key: int, val: int)
    requires Meet(capacity, seed, b0, key0, b1, key1) && key != key0
    ensures Lacks(Found(Doubled(TwoNodes(capacity, seed, b0, key0, b1, key1), key, val)), key0)
  {
    var job := TwoNodes(capacity, seed, b0, key0, b1, key1);
    SecondOverFirst(capacity, seed, b0, key0, b1, key1, capacity);
    var m, k := MovedTo(job, capacity), Bucket(key, seed, 2 * capacity);
    assert m.nodes == job.was && m.table[k] != 0;
    UnreachedLacks(Prepended(m, k, (key, val)), 0, key0);
  }

  lemma {:induction false} FollowIn(nodes: Nodes, r: Ref, n: nat)
    ensures forall x :: x in Follow(nodes, r, n) ==> In(nodes, x)
    decreases n
  {
    if n > 0 && In(nodes, r) { FollowIn(nodes, nodes[r].next, n - 1); }
  }

  /** For every capacity that is no power of two, and every hash seed, there is a well-formed table
      with two one-node chains from which the rehash loses a key. */
  lemma OtherCapacitiesLose(capacity: nat, seed: nat) returns (job: Job, oldTable: seq<Ref>, lost: int)
    requires 0 < capacity && !IsPow2(capacity)
    ensures |job.chains| == |oldTable| == capacity && job.seed == seed && JobOk(job, oldTable) && |job.was| == 2
    ensures !Lacks(Contents(job.was, job.chains), lost)
    ensures forall key, val :: key != lost ==> Lacks(Found(Doubled(job, key, val)), lost)
  {
    var x := Collision(capacity - 1);
    var other := KeyOf(x, seed);
    lost := KeyOf(0, seed);
    AndZero(capacity - 1);
    AndZero(2 * capacity - 1);
    var b := Bucket(other, seed, capacity);
    assert Meet(capacity, seed, 0, lost, b, other);
    job, oldTable := TwoNodes(capacity, seed, 0, lost, b, other), TwoHeads(capacity, 0, b);
    TwoNodesOk(capacity, seed, 0, lost, b, other);
    forall key, val | key != lost ensures Lacks(Found(Doubled(job, key, val)), lost) {
      FirstIsLost(capacity, seed, 0, lost, b, other, key, val);
    }
  }

  /** With six buckets, for example, the keys 0 and 4: they are in buckets 0 and 4 and both go to
      bucket 0 of twelve. */
  lemma SixBucketsLose(key: int, val: int)
    requires key != 0
    ensures var job, table := TwoNodes(6, 0, 0, 0, 4, 4), TwoHeads(6, 0, 4);
      JobOk(job, table) && (0, 0) in Contents(job.was, job.chains) && Lacks(Found(Doubled(job, key, val)), 0)
  {
    assert And(0, 5) == 2 * And(0, 2) == 4 * And(0, 1) == 0 && And(4, 5) == 2 * And(2, 2) == 4 * And(1, 1) == 4;
    assert And(0, 11) == 2 * And(0, 5) == 0;
    assert And(4, 11) == 2 * And(2, 5) == 4 * And(1, 2) == 8 * And(0, 1) == 0;
    TwoNodesOk(6, 0, 0, 0, 4, 4);
    FirstIsLost(6, 0, 0, 0, 4, 4, key, val);
  }

  /** The exact condition: the rehash keeps the bindings of every well-formed table of that capacity
      if and only if the capacity is a power of two. */
  lemma KeepsBindingsIffPowerOfTwo(capacity: nat, seed: nat)
    requires 0 < capacity
    ensures (forall job: Job, oldTable: seq<Ref>, key, val {:trigger KeepsBindings(job, oldTable, key, val)} ::
               |job.chains| == capacity && job.seed == seed ==> KeepsBindings(job, oldTable, key, val)) <==> IsPow2(capacity)
  {
    if IsPow2(capacity) {
      forall job: Job, oldTable, key, val | |job.chains| == capacity && job.seed == seed ensures KeepsBindings(job, oldTable, key, val) {
        if JobOk(job, oldTable) && Lacks(Contents(job.was, job.chains), key) {
          DoubledIsRight(job, oldTable, key, val);
          var r := Doubled(job, key, val);
          ListingIs(r.nodes, r.table, r.chains, seed);
        }
      }
    } else {
      var job, oldTable, lost := OtherCapacitiesLose(capacity, seed);
      var key := FreshKey(job);
      LostIsNotKept(job, oldTable, lost, key);
    }
  }

  lemma FreshKey(job: Job) returns (key: int)
    ensures Lacks(Contents(job.was, job.chains), key)
  {
    key := Above(Contents(job.was, job.chains));
  }

  lemma {:induction false} Above(s: Pairs) returns (key: int)
    ensures forall x :: x in s ==> x.0 < key
  {
    key := 0;
    if x :| x in s {
      var rest := Above(s - {x});
      key := if rest <= x.0 then x.0 + 1 else rest;
    }
  }

  lemma LostIsNotKept(job: Job, oldTable: seq<Ref>, lost: int, key: int)
    requires 0 < |job.chains| && JobOk(job, oldTable) && !Lacks(Contents(job.was, job.chains), lost)
    requires Lacks(Contents(job.was, job.chains), key)
    requires forall k, val :: k != lost ==> Lacks(Found(Doubled(job, k, val)), lost)
    ensures !KeepsBindings(job, oldTable, key, 0)
  {
    var x :| x in Contents(job.was, job.chains) && x.0 == lost;
    assert key != lost;
    assert x !in Found(Doubled(job, key, 0));
  }
}
