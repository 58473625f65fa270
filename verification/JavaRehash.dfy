/** Doubling the table of a segment, for any capacity. Of every chain the longest tail whose nodes
    all go to one new bucket is reused as it is; the nodes before it are copied. The loops are
    proved against functions over the listed chains. */
module JavaRehash {
  import opened JavaMapModel

  /** The table to be doubled, as it is when the rehash begins; `chains` lists its nodes. */
  datatype Job = Job(was: Nodes, chains: seq<seq<Ref>>, seed: nat)

  /** The new table under construction; `chains` lists what has been put into its buckets. */
  datatype Build = Build(nodes: Nodes, table: seq<Ref>, chains: seq<seq<Ref>>)

  predicate Sized(job: Job, st: Build) {
    0 < |job.chains| && |st.table| == |st.chains| == 2 * |job.chains|
  }

  /** The new bucket of an old node. */
  function NewIndex(job: Job, r: Ref): (k: nat)
    requires 0 < |job.chains|
    ensures k < 2 * |job.chains|
  {
    Index(job.was, r, job.seed, 2 * |job.chains|)
  }

  /** Where the last run begins as far as the first `j` nodes of the chain tell. */
  function RunStart(job: Job, c: seq<Ref>, j: nat): (s: nat)
    requires 0 < |job.chains| && 1 <= j <= |c|
    ensures s < j
  {
    if j == 1 then 0
    else
      var s := RunStart(job, c, j - 1);
      if NewIndex(job, c[j - 1]) != NewIndex(job, c[s]) then j - 1 else s
  }

  /** A node with the pair in front of bucket `k`. */
  function Prepended(st: Build, k: nat, x: (int, int)): Build
    requires k < |st.table| == |st.chains|
  {
    Build(st.nodes + [Node(x.0, x.1, st.table[k])], st.table[k := |st.nodes|], st.chains[k := [|st.nodes|] + st.chains[k]])
  }

  /** After the first `n` nodes of the chain have been copied, each to the front of its bucket. */
  function Copied(job: Job, c: seq<Ref>, n: nat, st: Build): (r: Build)
    requires Sized(job, st) && n <= |c|
    ensures Sized(job, r) && |r.nodes| == |st.nodes| + n
  {
    if n == 0 then st
    else Prepended(Copied(job, c, n - 1, st), NewIndex(job, c[n - 1]), Pair(job.was, c[n - 1]))
  }

  /** After the last run has been stored into its bucket, over whatever is there. */
  function RunStored(job: Job, c: seq<Ref>, st: Build): (r: Build)
    requires Sized(job, st) && c != []
    ensures Sized(job, r) && |r.nodes| == |st.nodes|
  {
    var s := RunStart(job, c, |c|);
    var k := NewIndex(job, c[s]);
    Build(st.nodes, st.table[k := c[s]], st.chains[k := c[s..]])
  }

  /** After one old bucket has been moved. */
  function BucketMoved(job: Job, c: seq<Ref>, st: Build): (r: Build)
    requires Sized(job, st)
    ensures Sized(job, r)
  {
    if c == [] then st else Copied(job, c, RunStart(job, c, |c|), RunStored(job, c, st))
  }

  /** After the first `b` old buckets have been moved. */
  function MovedTo(job: Job, b: nat): (r: Build)
    requires 0 < |job.chains| && b <= |job.chains|
    ensures Sized(job, r)
  {
    if b == 0 then
      Build(job.was, seq(2 * |job.chains|, _ => NULL), seq(2 * |job.chains|, _ => []))
    else
      BucketMoved(job, job.chains[b - 1], MovedTo(job, b - 1))
  }

  /** The finished table, with the new node in front of its bucket. */
  function Doubled(job: Job, key: int, val: int): (r: Build)
    requires 0 < |job.chains|
    ensures Sized(job, r)
  {
    Prepended(MovedTo(job, |job.chains|), Bucket(key, job.seed, 2 * |job.chains|), (key, val))
  }

  predicate JobOk(job: Job, table: seq<Ref>) {
    TableOk(job.was, table, job.chains, job.seed)
  }

  lemma DistinctNodes(job: Job, table: seq<Ref>, b: nat, i: nat, j: nat)
    requires JobOk(job, table) && b < |table| && i < |job.chains[b]| && j < |job.chains[b]|
    ensures job.chains[b][i] == job.chains[b][j] <==> i == j
  {
    assert BucketOk(job.was, table, job.chains, job.seed, b);
  }

  // ---------------------------------------------------------------- the loops

  /** The inner loop that looks for the last run. */
  method FindLastRun(job: Job, table: seq<Ref>, b: nat) returns (lastRun: Ref, lastIdx: nat)
    requires JobOk(job, table) && b < |table| && job.chains[b] != []
    ensures var c := job.chains[b]; lastRun == c[RunStart(job, c, |c|)] && lastIdx == NewIndex(job, lastRun)
  {
    var nodes := job.was;
    ghost var c, s := job.chains[b], 0;
    assert BucketOk(nodes, table, job.chains, job.seed, b) && LinkOk(nodes, c, 0);
    lastRun, lastIdx := table[b], NewIndex(job, table[b]);
    var last := nodes[table[b]].next;
    ghost var j := 1;
    while last != NULL
      invariant 1 <= j <= |c| && last == Head(c, j) && s == RunStart(job, c, j) && lastRun == c[s] && lastIdx == NewIndex(job, c[s])
      decreases |c| - j
    {
      assert LinkOk(nodes, c, j);
      var k := NewIndex(job, last);
      if k != lastIdx { lastIdx, lastRun, s := k, last, j; }
      last, j := nodes[last].next, j + 1;
    }
    EndOfChain(nodes, c, table[b], j);
  }

  /** The loop that copies the nodes before the last run, each in front of its new bucket. */
  method CopyPrefix(job: Job, oldTable: seq<Ref>, b: nat, lastRun: Ref, nodes0: Nodes, table: array<Ref>, ghost st: Build) returns (nodes: Nodes)
    requires JobOk(job, oldTable) && b < |oldTable| && job.chains[b] != [] && Sized(job, st)
    requires nodes0 == st.nodes && table[..] == st.table
    requires var c := job.chains[b]; lastRun == c[RunStart(job, c, |c|)]
    modifies table
    ensures var c := job.chains[b]; var r := Copied(job, c, RunStart(job, c, |c|), st);
      nodes == r.nodes && table[..] == r.table
  {
    nodes := nodes0;
    ghost var c := job.chains[b];
    ghost var s := RunStart(job, c, |c|);
    assert BucketOk(job.was, oldTable, job.chains, job.seed, b) && LinkOk(job.was, c, 0);
    var p := oldTable[b];
    ghost var n := 0;
    while p != lastRun
      invariant n <= s && p == c[n] && table.Length == 2 * |job.chains|
      invariant nodes == Copied(job, c, n, st).nodes && table[..] == Copied(job, c, n, st).table
      decreases s - n
    {
      assert LinkOk(job.was, c, n) && n < s by { DistinctNodes(job, oldTable, b, n, s); }
      var k := NewIndex(job, p);
      nodes := nodes + [Node(job.was[p].key, job.was[p].val, table[k])];
      table[k] := |nodes| - 1;
      p, n := job.was[p].next, n + 1;
    }
    DistinctNodes(job, oldTable, b, n, s);
  }

  /** The body of the loop over the old buckets. */
  method MoveBucket(job: Job, oldTable: seq<Ref>, b: nat, nodes0: Nodes, table: array<Ref>, ghost st: Build) returns (nodes: Nodes)
    requires JobOk(job, oldTable) && b < |oldTable| && Sized(job, st) && nodes0 == st.nodes && table[..] == st.table
    modifies table
    ensures var r := BucketMoved(job, job.chains[b], st); nodes == r.nodes && table[..] == r.table
  {
    nodes := nodes0;
    var curr := oldTable[b];
    ghost var c := job.chains[b];
    assert BucketOk(job.was, oldTable, job.chains, job.seed, b);
    if curr != NULL {
      assert LinkOk(job.was, c, 0);
      var next := job.was[curr].next;
      var idx := NewIndex(job, curr);
      if next == NULL {
        OnlyNode(job, oldTable, b);
        table[idx] := curr;
      } else {
        var lastRun, lastIdx := FindLastRun(job, oldTable, b);
        table[lastIdx] := lastRun;
        nodes := CopyPrefix(job, oldTable, b, lastRun, nodes, table, RunStored(job, c, st));
      }
    } else {
      EndOfChain(job.was, c, curr, 0);
    }
  }

  lemma OnlyNode(job: Job, oldTable: seq<Ref>, b: nat)
    requires JobOk(job, oldTable) && b < |oldTable| && LinkOk(job.was, job.chains[b], 0) && job.was[job.chains[b][0]].next == NULL
    ensures |job.chains[b]| == 1
  {
    assert BucketOk(job.was, oldTable, job.chains, job.seed, b);
    EndOfChain(job.was, job.chains[b], oldTable[b], 1);
  }

  /** chm_segment_rehash up to the publication, for any capacity: moves the buckets one by one into
      a new table and puts the new node in front of its bucket. */
  method Rehash(job: Job, oldTable: seq<Ref>, key: int, val: int) returns (nodes: Nodes, table: array<Ref>)
    requires JobOk(job, oldTable)
    ensures fresh(table) && nodes == Doubled(job, key, val).nodes && table[..] == Doubled(job, key, val).table
  {
    var capacity := 2 * |oldTable|;
    table := new Ref[capacity](_ => NULL);
    nodes := job.was;
    var b := 0;
    while b < |oldTable|
      invariant 0 <= b <= |oldTable| && table.Length == capacity
      invariant nodes == MovedTo(job, b).nodes && table[..] == MovedTo(job, b).table
    {
      nodes := MoveBucket(job, oldTable, b, nodes, table, MovedTo(job, b));
      b := b + 1;
    }
    var newIdx := Bucket(key, job.seed, capacity);
    nodes := nodes + [Node(key, val, table[newIdx])];
    table[newIdx] := |nodes| - 1;
  }
}
