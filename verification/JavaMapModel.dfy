/** The hash table of one segment: bucket indices by mask, chains of nodes, what a table stands
    for, and the order in which a rehash moves the nodes of a chain. */
module JavaMapModel {
  import opened SetCalls

  type Ref = int

  const NULL: Ref := -1

  // ---------------------------------------------------------------- bucket indices

  function Pow2(n: nat): nat {
    if n == 0 then 1 else 2 * Pow2(n - 1)
  }

  /** key >> seed, rounding down also below zero */
  function Shift(key: int, seed: nat): int
    decreases seed
  {
    if seed == 0 then key else Shift(key / 2, seed - 1)
  }

  /** x & mask, on two's complement */
  function And(x: int, mask: nat): nat
    decreases mask
  {
    if mask == 0 then 0 else (x % 2) * (mask % 2) + 2 * And(x / 2, mask / 2)
  }

  function Bucket(key: int, seed: nat, capacity: nat): (b: nat)
    requires 0 < capacity
    ensures b < capacity
  {
    AndBound(Shift(key, seed), capacity - 1);
    And(Shift(key, seed), capacity - 1)
  }

  lemma MulGrows(d: int, k: int)
    requires 0 < d && 1 <= k
    ensures d <= d * k
  {
  }

  lemma Apart(d: int, a: int, b: int, r: int, s: int)
    requires a < b && 0 <= r < d && 0 <= s < d
    ensures d * a + r != d * b + s
  {
    MulGrows(d, b - a);
    assert d * (b - a) == d * b - d * a;
  }

  lemma RemainderUnique(x: int, d: int, q: int, r: int)
    requires 0 < d && x == d * q + r && 0 <= r < d
    ensures x % d == r && x / d == q
  {
    var q', r' := x / d, x % d;
    assert x == d * q' + r';
    if q' > q { Apart(d, q, q', r, r'); } else if q' < q { Apart(d, q', q, r', r); }
  }

  lemma HalfRemainder(x: int, p: int)
    requires 0 < p
    ensures x % (2 * p) == x % 2 + 2 * ((x / 2) % p)
  {
    var q, r := (x / 2) / p, (x / 2) % p;
    assert x / 2 == p * q + r;
    assert 2 * (p * q) == (2 * p) * q;
    RemainderUnique(x, 2 * p, q, 2 * r + x % 2);
  }

  lemma RemainderTwice(x: int, p: int)
    requires 0 < p
    ensures x % (2 * p) % p == x % p
  {
    var q, r := x / (2 * p), x % (2 * p);
    assert x == (2 * p) * q + r;
    var q', r' := r / p, r % p;
    assert r == p * q' + r';
    assert p * (2 * q + q') == (2 * p) * q + p * q';
    RemainderUnique(x, p, 2 * q + q', r');
  }

  lemma AndStep(x: int, p: nat)
    requires 0 < p
    ensures And(x, 2 * p - 1) == x % 2 + 2 * And(x / 2, p - 1)
  {
    var mask := 2 * p - 1;
    assert mask / 2 == p - 1 && mask % 2 == 1;
  }

  /** Masking with a power of two less one is taking the remainder. */
  lemma {:induction false} MaskIsRemainder(x: int, n: nat)
    ensures 0 < Pow2(n) && And(x, Pow2(n) - 1) == x % Pow2(n)
    decreases n
  {
    if n > 0 {
      MaskIsRemainder(x / 2, n - 1);
      AndStep(x, Pow2(n - 1));
      HalfRemainder(x, Pow2(n - 1));
    }
  }

  lemma {:induction false} AndBound(x: int, mask: nat)
    ensures And(x, mask) <= mask
    decreases mask
  {
    if mask > 0 { AndBound(x / 2, mask / 2); }
  }

  /** Doubling the capacity splits every bucket in two: the old index is the new one reduced to
      the old capacity, so that distinct old buckets never meet in a new one. */
  lemma BucketSplits(key: int, seed: nat, n: nat)
    ensures 0 < Pow2(n)
    ensures Bucket(key, seed, Pow2(n + 1)) % Pow2(n) == Bucket(key, seed, Pow2(n)) < Pow2(n)
    ensures Bucket(key, seed, Pow2(n + 1)) < Pow2(n + 1)
  {
    var x, p := Shift(key, seed), Pow2(n);
    MaskIsRemainder(x, n);
    MaskIsRemainder(x, n + 1);
    RemainderTwice(x, p);
  }

  ghost predicate IsPow2(c: nat) {
    exists n: nat :: c == Pow2(n)
  }

  lemma DoublePow2(c: nat)
    requires IsPow2(c)
    ensures IsPow2(2 * c)
  {
    var n: nat :| c == Pow2(n);
    assert 2 * c == Pow2(n + 1);
  }

  /** Hash values that meet in a bucket of the doubled table come from the same old bucket. */
  predicate MeetOnlyIfMet(c: nat, x: int, y: int)
    requires 0 < c
  {
    And(x, 2 * c - 1) == And(y, 2 * c - 1) ==> And(x, c - 1) == And(y, c - 1)
  }

  lemma {:induction false} UnmaskedBit(m: nat) returns (w: nat)
    requires 0 < m
    ensures And(w, 2 * m) == 0 && And(w, m) != 0
  {
    if m % 2 == 1 {
      w := 1;
      assert And(0, m / 2) == 0 && And(0, m) == 0 by { AndZero(m / 2); AndZero(m); }
    } else {
      var v := UnmaskedBit(m / 2);
      w := 2 * v;
      assert And(w, 2 * m) == 2 * And(v, m) && And(w, m) == 2 * And(v, m / 2);
    }
  }

  /** Every hash value is that of some key. */
  lemma {:induction false} KeyOf(x: int, seed: nat) returns (key: int)
    ensures Shift(key, seed) == x && (key == 0 <==> x == 0)
    decreases seed
  {
    if seed == 0 {
      key := x;
    } else {
      var half := KeyOf(x, seed - 1);
      key := 2 * half;
    }
  }

  lemma {:induction false} AndZero(m: nat)
    ensures And(0, m) == 0
  {
    if m > 0 { AndZero(m / 2); }
  }

  lemma {:induction false} Collision(m: nat) returns (x: nat)
    requires !IsPow2(m + 1)
    ensures And(x, 2 * m + 1) == 0 && And(x, m) != 0
  {
    assert Pow2(0) == 1;
    var h := m / 2;
    if m % 2 == 0 {
      var w := UnmaskedBit(h);
      x := 2 * w;
      assert And(x, 2 * m + 1) == 2 * And(w, m) && And(x, m) == 2 * And(w, h);
    } else {
      if IsPow2(h + 1) { DoublePow2(h + 1); }
      var w := Collision(h);
      x := 2 * w;
      assert And(x, 2 * m + 1) == 2 * And(w, m) && And(x, m) == 2 * And(w, h);
    }
  }

  /** Nothing but the power of two makes that work: with any other capacity there are hash values
      of different buckets that meet when the table is doubled. */
  lemma SplitsIffPowerOfTwo(c: nat)
    requires 0 < c
    ensures (forall x, y :: MeetOnlyIfMet(c, x, y)) <==> IsPow2(c)
  {
    if IsPow2(c) {
      var n: nat :| c == Pow2(n);
      forall x, y ensures MeetOnlyIfMet(c, x, y) {
        assert Pow2(n + 1) == 2 * c;
        MaskIsRemainder(x, n); MaskIsRemainder(x, n + 1); RemainderTwice(x, c);
        MaskIsRemainder(y, n); MaskIsRemainder(y, n + 1); RemainderTwice(y, c);
      }
    } else {
      var x := Collision(c - 1);
      AndZero(2 * c - 1);
      AndZero(c - 1);
      assert !MeetOnlyIfMet(c, x, 0);
    }
  }

  // ---------------------------------------------------------------- chains

  datatype Node = Node(key: int, val: int, next: Ref)

  type Nodes = seq<Node>

  predicate In(nodes: Nodes, r: Ref) {
    0 <= r < |nodes|
  }

  function Pair(nodes: Nodes, r: Ref): (int, int) {
    if In(nodes, r) then (nodes[r].key, nodes[r].val) else (0, 0)
  }

  function Index(nodes: Nodes, r: Ref, seed: nat, capacity: nat): (b: nat)
    requires 0 < capacity
    ensures b < capacity
  {
    Bucket(Pair(nodes, r).0, seed, capacity)
  }

  function Head(c: seq<Ref>, i: nat): Ref {
    if i < |c| then c[i] else NULL
  }

  predicate LinkOk(nodes: Nodes, c: seq<Ref>, i: nat) {
    i < |c| && In(nodes, c[i]) && nodes[c[i]].next == Head(c, i + 1)
  }

  /** Following next from `head` one meets exactly the nodes of `c`, in this order. */
  predicate ChainOk(nodes: Nodes, c: seq<Ref>, head: Ref) {
    head == Head(c, 0) && forall i {:trigger LinkOk(nodes, c, i)} :: 0 <= i < |c| ==> LinkOk(nodes, c, i)
  }

  /** A walk along the chain that has come to NULL has come to its end. */
  lemma EndOfChain(nodes: Nodes, c: seq<Ref>, head: Ref, i: nat)
    requires ChainOk(nodes, c, head) && i <= |c| && Head(c, i) == NULL
    ensures i == |c|
  {
    forall k | 0 <= k < |c| ensures c[k] != NULL { assert LinkOk(nodes, c, k); }
  }

  /** The keys of the chain are distinct and belong to bucket `b`. */
  predicate KeysOk(nodes: Nodes, c: seq<Ref>, b: nat, seed: nat, capacity: nat)
    requires 0 < capacity
  {
    && (forall i :: 0 <= i < |c| ==> Index(nodes, c[i], seed, capacity) == b)
    && (forall i, j :: 0 <= i < j < |c| ==> Pair(nodes, c[i]).0 != Pair(nodes, c[j]).0)
  }

  predicate BucketOk(nodes: Nodes, table: seq<Ref>, chains: seq<seq<Ref>>, seed: nat, b: nat) {
    b < |table| && b < |chains| && ChainOk(nodes, chains[b], table[b]) && KeysOk(nodes, chains[b], b, seed, |table|)
  }

  /** A well-formed table; `chains` lists the nodes of every bucket. */
  predicate TableOk(nodes: Nodes, table: seq<Ref>, chains: seq<seq<Ref>>, seed: nat) {
    && 0 < |table| == |chains|
    && forall b {:trigger BucketOk(nodes, table, chains, seed, b)} :: 0 <= b < |table| ==> BucketOk(nodes, table, chains, seed, b)
  }

  /** The pairs of a table. */
  function Contents(nodes: Nodes, chains: seq<seq<Ref>>): Pairs {
    set b, i | 0 <= b < |chains| && 0 <= i < |chains[b]| :: Pair(nodes, chains[b][i])
  }

  /** A key is in the table exactly if it is in the chain of its bucket. */
  lemma LacksIff(nodes: Nodes, table: seq<Ref>, chains: seq<seq<Ref>>, seed: nat, key: int)
    requires TableOk(nodes, table, chains, seed)
    ensures Lacks(Contents(nodes, chains), key) <==>
      forall r :: r in chains[Bucket(key, seed, |table|)] ==> Pair(nodes, r).0 != key
  {
    var k := Bucket(key, seed, |table|);
    if Lacks(Contents(nodes, chains), key) {
      forall r | r in chains[k] ensures Pair(nodes, r).0 != key {
        var i :| 0 <= i < |chains[k]| && chains[k][i] == r;
        assert Pair(nodes, chains[k][i]) in Contents(nodes, chains);
        assert (Pair(nodes, r).0, Pair(nodes, r).1) == Pair(nodes, r);
      }
    } else {
      var v :| (key, v) in Contents(nodes, chains);
      var b, i :| 0 <= b < |chains| && 0 <= i < |chains[b]| && Pair(nodes, chains[b][i]) == (key, v);
      assert BucketOk(nodes, table, chains, seed, b);
      assert chains[b][i] in chains[k];
    }
  }

  /** Each key has one value. */
  lemma ContentsFunctional(nodes: Nodes, table: seq<Ref>, chains: seq<seq<Ref>>, seed: nat, k: int, v: int, w: int)
    requires TableOk(nodes, table, chains, seed) && (k, v) in Contents(nodes, chains) && (k, w) in Contents(nodes, chains)
    ensures v == w
  {
    var b, i :| 0 <= b < |chains| && 0 <= i < |chains[b]| && Pair(nodes, chains[b][i]) == (k, v);
    var c, j :| 0 <= c < |chains| && 0 <= j < |chains[c]| && Pair(nodes, chains[c][j]) == (k, w);
    assert BucketOk(nodes, table, chains, seed, b) && BucketOk(nodes, table, chains, seed, c);
  }

  // ---------------------------------------------------------------- what a reader meets

  /** The nodes met by following next from `r`, at most `n`. */
  function Follow(nodes: Nodes, r: Ref, n: nat): seq<Ref>
    decreases n
  {
    if n == 0 || !In(nodes, r) then [] else [r] + Follow(nodes, nodes[r].next, n - 1)
  }

  function Listing(nodes: Nodes, table: seq<Ref>): seq<seq<Ref>> {
    seq(|table|, b requires 0 <= b < |table| => Follow(nodes, table[b], |nodes|))
  }

  lemma {:induction false} FollowChain(nodes: Nodes, c: seq<Ref>, head: Ref, n: nat)
    requires ChainOk(nodes, c, head) && |c| <= n
    ensures Follow(nodes, head, n) == c
  {
    if c != [] {
      assert LinkOk(nodes, c, 0);
      forall i | 0 <= i < |c[1..]| ensures LinkOk(nodes, c[1..], i) { assert LinkOk(nodes, c, i + 1); }
      FollowChain(nodes, c[1..], Head(c, 1), n - 1);
    }
  }

  lemma {:induction false} DistinctFit(c: seq<Ref>, n: nat)
    requires forall i :: 0 <= i < |c| ==> 0 <= c[i] < n
    requires forall i, j :: 0 <= i < j < |c| ==> c[i] != c[j]
    ensures |c| <= n
  {
    ElementsCount(c);
    SubsetCount(set i | 0 <= i < |c| :: c[i], Range(n));
  }

  function Range(n: nat): (s: set<int>)
    ensures |s| == n && forall k :: k in s <==> 0 <= k < n
  {
    if n == 0 then {} else Range(n - 1) + {n - 1}
  }

  lemma {:induction false} ElementsCount(c: seq<Ref>)
    requires forall i, j :: 0 <= i < j < |c| ==> c[i] != c[j]
    ensures |set i | 0 <= i < |c| :: c[i]| == |c|
  {
    if c != [] {
      var d := c[..|c| - 1];
      ElementsCount(d);
      assert (set i | 0 <= i < |c| :: c[i]) == (set i | 0 <= i < |d| :: d[i]) + {c[|c| - 1]};
    }
  }

  lemma SubsetCount(a: set<int>, b: set<int>)
    requires a <= b
    ensures |a| <= |b|
  {
    assert (b - a) + a == b && (b - a) * a == {};
  }

  /** Following the pointers of a well-formed table, a reader meets exactly the nodes listed. */
  lemma ListingIs(nodes: Nodes, table: seq<Ref>, chains: seq<seq<Ref>>, seed: nat)
    requires TableOk(nodes, table, chains, seed)
    ensures Listing(nodes, table) == chains
  {
    forall b | 0 <= b < |table| ensures Follow(nodes, table[b], |nodes|) == chains[b] {
      assert BucketOk(nodes, table, chains, seed, b);
      forall i | 0 <= i < |chains[b]| ensures In(nodes, chains[b][i]) { assert LinkOk(nodes, chains[b], i); }
      DistinctFit(chains[b], |nodes|);
      FollowChain(nodes, chains[b], table[b], |nodes|);
    }
  }
}
