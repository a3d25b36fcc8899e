/**
 * Merkle roots and Merkle proofs over a list of hashes.
 *
 * The list is padded with its last element to a power of two; each level pairs
 * neighbours. The hash function is a parameter: nothing is asked of it.
 */
module MerkleTree {
  import opened Uint256
  import opened Binary

  // ---- Powers of two -----------------------------------------------------

  const WORD: int := 0x1_0000_0000

  lemma Pow2Of32()
    ensures Pow2(32) == WORD
  {
    assert Pow2(8) == 256;
    assert Pow2(16) == 0x1_0000;
    assert Pow2(24) == 0x100_0000;
  }

  // The least power of two that is at least n.
  ghost predicate LeastPow2(p: nat, n: nat) {
    IsPow2(p) && n <= p && forall q: nat {:trigger IsPow2(q)} :: IsPow2(q) && n <= q ==> p <= q
  }

  lemma LeastPow2Between(k: nat, n: nat)
    requires k > 0 && Pow2(k - 1) < n <= Pow2(k)
    ensures LeastPow2(Pow2(k), n)
  {
    forall q: nat | IsPow2(q) && n <= q ensures Pow2(k) <= q {
      var j: nat :| q == Pow2(j);
      if j < k { Pow2Monotone(j, k - 1); } else { Pow2Monotone(k, j); }
    }
  }

  lemma HalfStep(m: nat, p: nat, n: nat)
    requires m * p <= n < (m + 1) * p
    ensures (m / 2) * (2 * p) <= n < (m / 2 + 1) * (2 * p)
  {
    if m % 2 == 0 {
      assert m == 2 * (m / 2);
      assert (m / 2 + 1) * (2 * p) == (m + 1) * p + p;
    } else {
      assert m == 2 * (m / 2) + 1;
      assert (m / 2) * (2 * p) == m * p - p;
      assert (m / 2 + 1) * (2 * p) == (m + 1) * p;
    }
  }

  // After k halvings of n, m is left.
  ghost predicate Shifted(n: nat, k: nat, m: nat) {
    m * Pow2(k) <= n < (m + 1) * Pow2(k)
  }

  // The k-th doubling of one, as a 32-bit word.
  function Doubled(k: nat): nat {
    if k < 32 then Pow2(k) else 0
  }

  lemma ShiftStep(n: nat, k: nat, m: nat)
    requires Shifted(n, k, m) && m > 0 && n < WORD
    ensures k < 32 && Pow2(k) <= n && Shifted(n, k + 1, m / 2)
    ensures (Doubled(k) * 2) % WORD == Doubled(k + 1)
  {
    Pow2Of32();
    Pow2Monotone(0, k);
    MultipleIsMore(m, Pow2(k));
    if k >= 32 { Pow2Monotone(32, k); }
    HalfStep(m, Pow2(k), n);
    if k < 31 { Pow2Monotone(k + 2, 32); }
  }

  lemma MultipleIsMore(m: nat, p: nat)
    requires m > 0
    ensures p <= m * p
  {
  }

  lemma ShiftDone(n: nat, k: nat)
    requires Shifted(n, k, 0) && 0 < k <= 32 && Pow2(k - 1) <= n && !IsPow2(n)
    ensures LeastPow2(Pow2(k), n) && (Doubled(k) - n) % WORD == Pow2(k) - n
    ensures Pow2(k) - n < WORD / 2
  {
    Pow2Of32();
    assert Pow2(k - 1) != n;
    LeastPow2Between(k, n);
    assert Pow2(32) == 2 * Pow2(31);
    Pow2Monotone(k - 1, 31);
  }

  // How many elements are missing to the next power of two. Words are 32 bits:
  // above 2^31 the doubling wraps to zero and the subtraction wraps back.
  method DistanceToPow2(n: nat) returns (d: int)
    requires n < WORD
    ensures n == 0 ==> d == -1
    ensures n > 0 ==> 0 <= d < WORD / 2 && LeastPow2(n + d, n)
  {
    hide Pow2, IsPow2, LeastPow2, Shifted;
    if n == 0 { return -1; }
    BitTestIsPow2(n);
    if And(n, n - 1) == 0 {
      Pow2Least(n);
      return 0;
    }
    var m, distance := n, 1;
    ghost var k: nat := 0;
    ShiftStart(n);
    while m > 0
      invariant k <= 32 && distance == Doubled(k) && Shifted(n, k, m)
      invariant if k == 0 then m == n else Pow2(k - 1) <= n
      decreases m
    {
      ShiftStep(n, k, m);
      m := m / 2;
      distance := (distance * 2) % WORD;
      k := k + 1;
    }
    ShiftDone(n, k);
    return (distance - n) % WORD;
  }

  lemma ShiftStart(n: nat)
    ensures Shifted(n, 0, n) && Doubled(0) == 1
  {
  }

  lemma Pow2Least(n: nat)
    requires IsPow2(n)
    ensures LeastPow2(n, n)
  {
  }

  // ---- The reference: a perfect binary tree ------------------------------

  // How two neighbours are combined.
  type Join<!T> = (T, T) -> T

  // The root of the perfect tree of depth k over these leaves.
  function Fold<T>(join: Join<T>, xs: seq<T>, k: nat): T
    requires |xs| == Pow2(k)
    decreases k
  {
    if k == 0 then xs[0]
    else join(Fold(join, xs[..Pow2(k - 1)], k - 1), Fold(join, xs[Pow2(k - 1)..], k - 1))
  }

  function Depth(n: nat): nat {
    if n <= 1 then 0 else 1 + Depth((n + 1) / 2)
  }

  lemma {:induction false} DepthBetween(n: nat)
    requires n > 0
    ensures n <= Pow2(Depth(n)) && (n > 1 ==> Pow2(Depth(n) - 1) < n)
  {
    if n > 1 { DepthBetween((n + 1) / 2); }
  }

  lemma DepthIsLeast(n: nat, p: nat)
    requires n > 0 && LeastPow2(p, n)
    ensures p == Pow2(Depth(n))
  {
    DepthBetween(n);
    if n > 1 {
      LeastPow2Between(Depth(n), n);
      assert IsPow2(Pow2(Depth(n))) && IsPow2(p);
    } else {
      assert IsPow2(Pow2(0));
      var k: nat :| p == Pow2(k);
      Pow2Monotone(0, k);
    }
  }

  function Padded<T>(xs: seq<T>): (ys: seq<T>)
    requires xs != []
    ensures |ys| == Pow2(Depth(|xs|))
  {
    DepthBetween(|xs|);
    xs + seq(Pow2(Depth(|xs|)) - |xs|, _ => xs[|xs| - 1])
  }

  // Two hashes are added and the sum is hashed.
  function Hashed(sha: Hash -> Hash): Join<Hash> {
    (a: Hash, b: Hash) => sha(Plus(a, b))
  }

  function MerkleRoot(sha: Hash -> Hash, xs: seq<Hash>): Hash {
    if xs == [] then Zero() else Fold(Hashed(sha), Padded(xs), Depth(|xs|))
  }

  // ---- Levels ------------------------------------------------------------

  function Pairs<T>(join: Join<T>, xs: seq<T>): (ys: seq<T>)
    ensures |ys| == |xs| / 2
  {
    seq(|xs| / 2, i requires 0 <= i < |xs| / 2 => join(xs[2 * i], xs[2 * i + 1]))
  }

  lemma PairsSplit<T>(join: Join<T>, xs: seq<T>, m: nat)
    requires 2 * m <= |xs|
    ensures Pairs(join, xs)[..m] == Pairs(join, xs[..2 * m])
    ensures Pairs(join, xs)[m..] == Pairs(join, xs[2 * m..])
  {
    var a, b := Pairs(join, xs[..2 * m]), Pairs(join, xs[2 * m..]);
    forall i | 0 <= i < |b| ensures Pairs(join, xs)[m..][i] == b[i] {
      assert xs[2 * m..][2 * i] == xs[2 * (m + i)];
    }
  }

  lemma FoldUnfold<T>(join: Join<T>, xs: seq<T>, k: nat, h: nat)
    requires |xs| == Pow2(k + 1) && h == Pow2(k)
    ensures Pow2(k + 1) == 2 * h && h > 0
    ensures Fold(join, xs, k + 1) == join(Fold(join, xs[..h], k), Fold(join, xs[h..], k))
  {
    Pow2Step(k);
  }

  // Pairing one level leaves the root unchanged.
  lemma {:induction false} FoldPairs<T>(join: Join<T>, xs: seq<T>, k: nat)
    requires |xs| == Pow2(k + 1)
    ensures |Pairs(join, xs)| == Pow2(k) && Fold(join, Pairs(join, xs), k) == Fold(join, xs, k + 1)
    decreases k
  {
    hide *;
    if k == 0 {
      FoldLeaves(join, xs);
    } else {
      var h := Pow2(k - 1);
      FoldUnfold(join, xs, k, 2 * h) by { Pow2Step(k - 1); Pow2Step(k); }
      Pow2Step(k - 1);
      PairsSplit(join, xs, h);
      FoldPairs(join, xs[..2 * h], k - 1);
      FoldPairs(join, xs[2 * h..], k - 1);
      FoldUnfold(join, Pairs(join, xs), k - 1, h);
    }
  }

  lemma FoldLeaves<T>(join: Join<T>, xs: seq<T>)
    requires |xs| == Pow2(1)
    ensures |Pairs(join, xs)| == Pow2(0) && Fold(join, Pairs(join, xs), 0) == Fold(join, xs, 1)
  {
    assert Pow2(1) == 2 && Pow2(0) == 1;
    FoldUnfold(join, xs, 0, 1);
  }

  lemma PairsStep<T>(join: Join<T>, xs: seq<T>)
    requires |xs| >= 2
    ensures Pairs(join, xs) == [join(xs[0], xs[1])] + Pairs(join, xs[2..])
  {
    PairsSplit(join, xs, 1);
    assert Pairs(join, xs) == Pairs(join, xs)[..1] + Pairs(join, xs)[1..];
  }

  // ---- The three root algorithms -----------------------------------------

  // Appends copies of the last element up to a power of two.
  method Pad(xs: seq<Hash>) returns (ys: seq<Hash>)
    requires 0 < |xs| < WORD
    ensures ys == Padded(xs)
  {
    hide LeastPow2, Pow2;
    var distance := DistanceToPow2(|xs|);
    DepthIsLeast(|xs|, |xs| + distance);
    ys := xs;
    if distance > 0 {
      var last := xs[|xs| - 1];
      for i := 0 to distance
        invariant ys == xs + seq(i, _ => last)
      {
        ys := ys + [last];
      }
    }
  }

  method PairLevel(sha: Hash -> Hash, collection: seq<Hash>) returns (intermediate: seq<Hash>)
    ensures intermediate == Pairs(Hashed(sha), collection)
  {
    intermediate := [];
    var i := 0;
    while i < |collection|
      invariant 0 <= i && i % 2 == 0 && i <= |collection| + 1
      invariant intermediate == Pairs(Hashed(sha), collection)[..if i <= |collection| then i / 2 else |collection| / 2]
    {
      if i + 1 < |collection| {
        intermediate := intermediate + [Hashed(sha)(collection[i], collection[i + 1])];
      }
      i := i + 2;
    }
  }

  // Pairing until one is left; a level of odd length would lose its last.
  function Shrink<T>(join: Join<T>, zero: T, xs: seq<T>): T
    decreases |xs|
  {
    if |xs| == 0 then zero else if |xs| == 1 then xs[0] else Shrink(join, zero, Pairs(join, xs))
  }

  // On a power of two no level is odd, and pairing computes the tree's root.
  lemma {:induction false} ShrinkIsFold<T>(join: Join<T>, zero: T, xs: seq<T>, k: nat)
    requires |xs| == Pow2(k)
    ensures Shrink(join, zero, xs) == Fold(join, xs, k)
    decreases k
  {
    hide *;
    if k == 0 {
      Pow2Step(0);
      FoldOne(join, xs, 0);
    } else {
      Pow2Step(k - 1);
      FoldPairs(join, xs, k - 1);
      ShrinkIsFold(join, zero, Pairs(join, xs), k - 1);
    }
    ShrinkUnfold(join, zero, xs);
  }

  lemma ShrinkUnfold<T>(join: Join<T>, zero: T, xs: seq<T>)
    ensures |xs| == 1 ==> Shrink(join, zero, xs) == xs[0]
    ensures |xs| > 1 ==> Shrink(join, zero, xs) == Shrink(join, zero, Pairs(join, xs))
  {
  }

  method RootWorker(sha: Hash -> Hash, collection: seq<Hash>) returns (root: Hash)
    ensures root == Shrink(Hashed(sha), Zero(), collection)
    decreases |collection|
  {
    if |collection| == 0 {
      return Zero();
    }
    if |collection| == 1 {
      return collection[0];
    }
    var intermediate := PairLevel(sha, collection);
    root := RootWorker(sha, intermediate);
  }

  lemma FullLevel(k: nat)
    requires Pow2(k) > 1
    ensures k > 0 && Pow2(k) == 2 * Pow2(k - 1) && Pow2(k - 1) > 0
  {
    Pow2Step(k - 1);
  }

  lemma FoldOne<T>(join: Join<T>, xs: seq<T>, k: nat)
    requires |xs| == Pow2(k) == 1
    ensures Fold(join, xs, k) == xs[0]
  {
    if k > 0 { Pow2Step(k - 1); }
  }

  // The vector form also leaves the caller's vector padded.
  method RootOfVector(sha: Hash -> Hash, collection: seq<Hash>) returns (root: Hash, padded: seq<Hash>)
    requires |collection| < WORD
    ensures root == MerkleRoot(sha, collection)
    ensures padded == if |collection| == 0 then collection else Padded(collection)
  {
    if |collection| == 0 {
      return Zero(), collection;
    }
    if |collection| == 1 {
      assert Padded(collection) == collection;
      return collection[0], collection;
    }
    padded := Pad(collection);
    root := RootWorker(sha, padded);
    ShrinkIsFold(Hashed(sha), Zero(), padded, Depth(|collection|));
  }

  // One level of the queue form: two fronts are popped for each push.
  method PairQueue(sha: Hash -> Hash, queue0: seq<Hash>) returns (level: seq<Hash>)
    requires |queue0| % 2 == 0
    ensures level == Pairs(Hashed(sha), queue0)
  {
    hide Hashed, Pairs;
    var queue := queue0;
    level := [];
    while |queue| > 0
      invariant |queue| % 2 == 0
      invariant level + Pairs(Hashed(sha), queue) == Pairs(Hashed(sha), queue0)
    {
      PairsStep(Hashed(sha), queue);
      assert queue[1..][1..] == queue[2..];
      var left := queue[0];
      queue := queue[1..];
      var right := queue[0];
      queue := queue[1..];
      level := level + [Hashed(sha)(left, right)];
    }
  }

  // The queue form; the list form takes the same steps on a list.
  method RootOfQueue(sha: Hash -> Hash, collection: seq<Hash>) returns (root: Hash)
    requires |collection| < WORD
    ensures root == MerkleRoot(sha, collection)
  {
    hide *;
    RootCases(sha, collection);
    if |collection| == 0 {
      return Zero();
    }
    if |collection| == 1 {
      return collection[0];
    }
    var queue := Pad(collection);
    ghost var k := Depth(|collection|);
    Pow2Step(k);
    while |queue| > 1
      invariant |queue| == Pow2(k) > 0 && Fold(Hashed(sha), queue, k) == MerkleRoot(sha, collection)
      decreases k
    {
      FullLevel(k);
      FoldPairs(Hashed(sha), queue, k - 1);
      queue := PairQueue(sha, queue);
      k := k - 1;
    }
    FoldOne(Hashed(sha), queue, k);
    return queue[0];
  }

  lemma RootCases(sha: Hash -> Hash, xs: seq<Hash>)
    ensures |xs| == 0 ==> MerkleRoot(sha, xs) == Zero()
    ensures |xs| == 1 ==> MerkleRoot(sha, xs) == xs[0]
    ensures |xs| > 0 ==> MerkleRoot(sha, xs) == Fold(Hashed(sha), Padded(xs), Depth(|xs|))
  {
  }

  // ---- Proofs ------------------------------------------------------------

  // The value reached from v by joining the proof's entries one after another.
  function Climb<T>(join: Join<T>, v: T, proof: seq<T>): T {
    if proof == [] then v else join(Climb(join, v, proof[..|proof| - 1]), proof[|proof| - 1])
  }

  predicate Accepts(sha: Hash -> Hash, proof: seq<Hash>, tx: Hash, root: Hash) {
    if |proof| == 0 then false
    else if |proof| == 1 then tx == root
    else proof[|proof| - 1] == root && Climb(Hashed(sha), tx, proof[..|proof| - 1]) == root
  }

  method VerifyProof(sha: Hash -> Hash, proof: seq<Hash>, tx: Hash, root: Hash) returns (ok: bool)
    ensures ok == Accepts(sha, proof, tx, root)
    ensures |proof| == 0 ==> !ok
    ensures |proof| == 1 ==> (ok <==> tx == root)
    ensures |proof| >= 2 ==> (ok <==> proof[|proof| - 1] == root && exists vs :: LeadsUp(sha, proof, tx, root, vs))
  {
    AcceptsExactly(sha, proof, tx, root);
    if |proof| == 0 {
      return false;
    }
    if |proof| == 1 {
      return tx == root;
    }
    if proof[|proof| - 1] != root {
      return false;
    }
    var target := tx;
    for i := 0 to |proof| - 1
      invariant target == Climb(Hashed(sha), tx, proof[..i])
    {
      assert proof[..i + 1][..i] == proof[..i];
      target := Hashed(sha)(target, proof[i]);
    }
    return target == root;
  }

  // v occurs in the tree of depth k over xs: as a leaf, inside, or as the root.
  predicate IsNode<T(==)>(join: Join<T>, xs: seq<T>, k: nat, v: T)
    decreases k
  {
    v in xs || (k > 0 && IsNode(join, Pairs(join, xs), k - 1, v))
  }

  lemma HashedCommutes(sha: Hash -> Hash, a: Hash, b: Hash)
    ensures Hashed(sha)(a, b) == Hashed(sha)(b, a)
  {
    PlusCommutes(a, b);
  }

  // How far the search for tx has come: the proof leads from tx to the value,
  // and the value stands in the level once the proof has an entry.
  ghost predicate Tracked(sha: Hash -> Hash, tx: Hash, proof: seq<Hash>, value: Hash, level: seq<Hash>) {
    Climb(Hashed(sha), tx, proof) == value && (proof == [] || value in level)
  }

  lemma ClimbOne<T>(join: Join<T>, v: T, proof: seq<T>, p: T)
    ensures Climb(join, v, proof + [p]) == join(Climb(join, v, proof), p)
  {
    assert (proof + [p])[..|proof|] == proof;
  }

  // One level of proof generation. The tracked value may move more than once
  // in a level, when a leaf equals an inner hash.
  method ProveLevel(sha: Hash -> Hash, collection0: seq<Hash>, tx: Hash, value0: Hash, proof0: seq<Hash>)
    returns (level: seq<Hash>, value: Hash, proof: seq<Hash>)
    requires |collection0| % 2 == 0 && Tracked(sha, tx, proof0, value0, collection0)
    ensures level == Pairs(Hashed(sha), collection0)
    ensures Tracked(sha, tx, proof, value, level)
    ensures proof0 != [] ==> proof != []
    ensures proof0 == [] ==> (proof == [] <==> tx !in collection0)
  {
    hide Hashed, Pairs, Climb;
    var collection := collection0;
    level, value, proof := [], value0, proof0;
    ClimbNothing(Hashed(sha), tx);
    while |collection| > 0
      invariant |collection| % 2 == 0
      invariant level + Pairs(Hashed(sha), collection) == Pairs(Hashed(sha), collection0)
      invariant Climb(Hashed(sha), tx, proof) == value
      invariant proof == [] || value in level || value in collection
      invariant proof0 != [] ==> proof != []
      invariant |collection| <= |collection0| && collection == collection0[|collection0| - |collection|..]
      invariant proof0 == [] ==> (proof == [] <==> tx !in collection0[..|collection0| - |collection|])
    {
      PairsStep(Hashed(sha), collection);
      assert collection[1..][1..] == collection[2..];
      var left := collection[0];
      collection := collection[1..];
      var right := collection[0];
      collection := collection[1..];
      var insert := Hashed(sha)(left, right);
      if left == value {
        ClimbOne(Hashed(sha), tx, proof, right);
        proof, value := proof + [right], insert;
      } else if right == value {
        ClimbOne(Hashed(sha), tx, proof, left);
        HashedCommutes(sha, left, right);
        proof, value := proof + [left], insert;
      }
      level := level + [insert];
    }
  }

  lemma ClimbNothing<T>(join: Join<T>, v: T)
    ensures Climb(join, v, []) == v
  {
  }

  // Proof generation. Every element of the list gets a proof that is accepted
  // against the list's root; more exactly, a proof is accepted if and only if
  // what it is for occurs somewhere in the tree.
  method MakeProof(sha: Hash -> Hash, tx: Hash, collection0: seq<Hash>, index: int) returns (proof: seq<Hash>)
    requires |collection0| < WORD
    ensures |collection0| == 0 || (|collection0| > 1 && !(0 <= index < |collection0|)) ==> proof == []
    ensures |collection0| == 1 ==> proof == [sha(collection0[0])]
    ensures |collection0| > 1 && 0 <= index < |collection0| ==>
      (Accepts(sha, proof, tx, MerkleRoot(sha, collection0))
       <==> IsNode(Hashed(sha), Padded(collection0), Depth(|collection0|), tx))
    ensures tx in collection0 && (|collection0| > 1 ==> 0 <= index < |collection0|) ==>
      Accepts(sha, proof, tx, MerkleRoot(sha, collection0))
  {
    hide *;
    RootCases(sha, collection0);
    if |collection0| == 0 {
      return [];
    }
    if |collection0| == 1 {
      AcceptsOne(sha, sha(collection0[0]), tx, collection0[0]);
      return [sha(collection0[0])];
    }
    if index < 0 || index >= |collection0| {
      return [];
    }
    var collection := Pad(collection0);
    var value := tx;
    proof := [];
    var join, padded := Hashed(sha), Padded(collection0);
    ghost var depth := Depth(|collection0|);
    ghost var k := depth;
    PaddedKeeps(collection0, tx);
    NodeOfLevel(join, padded, depth, tx);
    Pow2Step(k);
    TrackStart(sha, tx, collection);
    while |collection| > 1
      invariant |collection| == Pow2(k) > 0 && Fold(join, collection, k) == MerkleRoot(sha, collection0)
      invariant Tracked(sha, tx, proof, value, collection)
      invariant if proof == [] then IsNode(join, padded, depth, tx) <==> IsNode(join, collection, k, tx)
                else IsNode(join, padded, depth, tx)
      decreases k
    {
      FullLevel(k);
      FoldPairs(join, collection, k - 1);
      NodeOfLevel(join, collection, k, tx);
      collection, value, proof := ProveLevel(sha, collection, tx, value, proof);
      k := k - 1;
    }
    FoldOne(join, collection, k);
    var root := collection[|collection| - 1];
    NodeOfRoot(join, collection, k, tx);
    assert collection == [root];
    ProofEnds(sha, tx, proof, value, root);
    return proof + [root];
  }

  lemma PaddedKeeps(xs: seq<Hash>, tx: Hash)
    requires |xs| > 0
    ensures |Padded(xs)| == Pow2(Depth(|xs|)) && (tx in xs ==> tx in Padded(xs))
  {
  }

  lemma NodeOfLevel<T>(join: Join<T>, xs: seq<T>, k: nat, v: T)
    ensures v in xs ==> IsNode(join, xs, k, v)
    ensures v !in xs && k > 0 ==> (IsNode(join, xs, k, v) <==> IsNode(join, Pairs(join, xs), k - 1, v))
  {
  }

  lemma NodeOfRoot<T>(join: Join<T>, xs: seq<T>, k: nat, v: T)
    requires |xs| == Pow2(k) == 1
    ensures IsNode(join, xs, k, v) <==> v == xs[0]
  {
    if k > 0 { Pow2Step(k - 1); }
  }

  lemma TrackStart(sha: Hash -> Hash, tx: Hash, level: seq<Hash>)
    ensures Tracked(sha, tx, [], tx, level)
  {
  }

  lemma AcceptsOne(sha: Hash -> Hash, p: Hash, tx: Hash, root: Hash)
    ensures Accepts(sha, [p], tx, root) <==> tx == root
  {
  }

  lemma ProofEnds(sha: Hash -> Hash, tx: Hash, proof: seq<Hash>, value: Hash, root: Hash)
    requires Tracked(sha, tx, proof, value, [root])
    ensures proof == [] ==> (Accepts(sha, proof + [root], tx, root) <==> tx == root)
    ensures proof != [] ==> Accepts(sha, proof + [root], tx, root)
  {
    assert (proof + [root])[..|proof|] == proof;
  }

  // ---- What acceptance means ---------------------------------------------

  // The values from tx to the root: each is the hash of the sum of the one
  // before and the proof's entry.
  ghost predicate LeadsUp(sha: Hash -> Hash, proof: seq<Hash>, tx: Hash, root: Hash, vs: seq<Hash>) {
    && 0 < |vs| == |proof| && vs[0] == tx && vs[|vs| - 1] == root
    && forall i :: 0 <= i < |vs| - 1 ==> vs[i + 1] == sha(Plus(vs[i], proof[i]))
  }

  // All values on the way.
  function Steps(sha: Hash -> Hash, tx: Hash, proof: seq<Hash>): (vs: seq<Hash>)
    ensures |vs| == |proof| + 1
  {
    if proof == [] then [tx]
    else
      var before := Steps(sha, tx, proof[..|proof| - 1]);
      before + [sha(Plus(before[|before| - 1], proof[|proof| - 1]))]
  }

  lemma {:induction false} StepsClimb(sha: Hash -> Hash, tx: Hash, proof: seq<Hash>)
    ensures var vs := Steps(sha, tx, proof);
      && vs[0] == tx && vs[|proof|] == Climb(Hashed(sha), tx, proof)
      && forall i :: 0 <= i < |proof| ==> vs[i + 1] == sha(Plus(vs[i], proof[i]))
  {
    if proof != [] { StepsClimb(sha, tx, proof[..|proof| - 1]); }
  }

  lemma {:induction false} ClimbIsForced(sha: Hash -> Hash, proof: seq<Hash>, vs: seq<Hash>, n: nat)
    requires 0 < |vs| && n < |vs| <= |proof| + 1
    requires forall i :: 0 <= i < |vs| - 1 ==> vs[i + 1] == sha(Plus(vs[i], proof[i]))
    ensures Climb(Hashed(sha), vs[0], proof[..n]) == vs[n]
  {
    if n > 0 {
      ClimbIsForced(sha, proof, vs, n - 1);
      assert proof[..n][..n - 1] == proof[..n - 1];
      assert vs[n - 1 + 1] == sha(Plus(vs[n - 1], proof[n - 1]));
    }
  }

  // A proof of at least two entries is accepted if and only if its last entry is
  // the root and values lead from tx up to it.
  lemma AcceptsExactly(sha: Hash -> Hash, proof: seq<Hash>, tx: Hash, root: Hash)
    ensures |proof| == 0 ==> !Accepts(sha, proof, tx, root)
    ensures |proof| == 1 ==> (Accepts(sha, proof, tx, root) <==> tx == root)
    ensures |proof| >= 2 ==>
      (Accepts(sha, proof, tx, root)
       <==> proof[|proof| - 1] == root && exists vs :: LeadsUp(sha, proof, tx, root, vs))
  {
    if |proof| >= 2 {
      var n := |proof| - 1;
      StepsClimb(sha, tx, proof[..n]);
      var vs := Steps(sha, tx, proof[..n]);
      if Accepts(sha, proof, tx, root) { assert LeadsUp(sha, proof, tx, root, vs); }
      if us :| LeadsUp(sha, proof, tx, root, us) { ClimbIsForced(sha, proof, us, n); }
    }
  }

  ghost predicate Injective(sha: Hash -> Hash) {
    forall a, b :: sha(a) == sha(b) ==> a == b
  }

  lemma HashedBinds(sha: Hash -> Hash, a: Hash, b: Hash, c: Hash)
    requires Injective(sha)
    ensures Hashed(sha)(a, c) == Hashed(sha)(b, c) ==> a == b
    ensures Hashed(sha)(c, a) == Hashed(sha)(c, b) ==> a == b
  {
    PlusCommutes(a, c);
    PlusCommutes(b, c);
    if Plus(c, a) == Plus(c, b) { PlusCancels(c, a, b); }
  }

  lemma {:induction false} ClimbBinds(sha: Hash -> Hash, a: Hash, b: Hash, proof: seq<Hash>)
    requires Injective(sha) && Climb(Hashed(sha), a, proof) == Climb(Hashed(sha), b, proof)
    ensures a == b
  {
    if proof != [] {
      var n := |proof| - 1;
      HashedBinds(sha, Climb(Hashed(sha), a, proof[..n]), Climb(Hashed(sha), b, proof[..n]), proof[n]);
      ClimbBinds(sha, a, b, proof[..n]);
    }
  }

  // Without collisions, a proof is accepted against a root for one value only.
  lemma ProofBinds(sha: Hash -> Hash, proof: seq<Hash>, a: Hash, b: Hash, root: Hash)
    requires Injective(sha) && Accepts(sha, proof, a, root) && Accepts(sha, proof, b, root)
    ensures a == b
  {
    if |proof| >= 2 { ClimbBinds(sha, a, b, proof[..|proof| - 1]); }
  }

  // ---- What a root tells -------------------------------------------------

  lemma {:induction false} FoldBinds(sha: Hash -> Hash, xs: seq<Hash>, k: nat, i: nat, y: Hash)
    requires Injective(sha) && |xs| == Pow2(k) && i < |xs| && y != xs[i]
    ensures Fold(Hashed(sha), xs[i := y], k) != Fold(Hashed(sha), xs, k)
    decreases k
  {
    hide *;
    if k == 0 {
      Pow2Step(0);
      FoldOne(Hashed(sha), xs, 0);
      FoldOne(Hashed(sha), xs[i := y], 0);
    } else {
      var h := Pow2(k - 1);
      Pow2Step(k - 1);
      var left, right := xs[..h], xs[h..];
      FoldUnfold(Hashed(sha), xs, k - 1, h);
      FoldUnfold(Hashed(sha), xs[i := y], k - 1, h);
      if i < h {
        assert xs[i := y][..h] == left[i := y] && xs[i := y][h..] == right;
        FoldBinds(sha, left, k - 1, i, y);
        HashedBinds(sha, Fold(Hashed(sha), left, k - 1), Fold(Hashed(sha), left[i := y], k - 1),
                    Fold(Hashed(sha), right, k - 1));
      } else {
        assert xs[i := y][..h] == left && xs[i := y][h..] == right[i - h := y];
        FoldBinds(sha, right, k - 1, i - h, y);
        HashedBinds(sha, Fold(Hashed(sha), right, k - 1), Fold(Hashed(sha), right[i - h := y], k - 1),
                    Fold(Hashed(sha), left, k - 1));
      }
    }
  }

  // Without collisions, changing one element changes the root, if padding does
  // not repeat it.
  lemma RootBinds(sha: Hash -> Hash, xs: seq<Hash>, i: nat, y: Hash)
    requires Injective(sha) && i < |xs| && y != xs[i] && (i < |xs| - 1 || |xs| == Pow2(Depth(|xs|)))
    ensures MerkleRoot(sha, xs[i := y]) != MerkleRoot(sha, xs)
  {
    hide Fold, Pow2, Depth, Hashed;
    var ps := Padded(xs);
    assert Padded(xs[i := y]) == ps[i := y];
    FoldBinds(sha, ps, Depth(|xs|), i, y);
  }

  lemma FoldPair(join: Join<Hash>, a: Hash, b: Hash)
    ensures Pow2(1) == 2 && Fold(join, [a, b], 1) == join(a, b)
  {
    FoldUnfold(join, [a, b], 0, 1);
    assert Pow2(1) == 2;
  }

  // The roots of the lists of two and three elements, written out.
  lemma SmallRoots(sha: Hash -> Hash, a: Hash, b: Hash, c: Hash)
    ensures MerkleRoot(sha, [a, b]) == sha(Plus(a, b))
    ensures MerkleRoot(sha, [a, b, c]) == sha(Plus(sha(Plus(a, b)), sha(Plus(c, c))))
  {
    assert Depth(2) == 1 && Depth(3) == 2 && Pow2(2) == 4;
    FoldPair(Hashed(sha), a, b);
    FoldPair(Hashed(sha), c, c);
    assert Padded([a, b]) == [a, b];
    assert Padded([a, b, c]) == [a, b, c, c];
    FoldUnfold(Hashed(sha), [a, b, c, c], 1, 2);
    assert [a, b, c, c][..2] == [a, b] && [a, b, c, c][2..] == [c, c];
  }

  // The last of three elements is repeated, and only twice its bytes count: the
  // root stays when these do, and only then.
  lemma LastOfThree(sha: Hash -> Hash, a: Hash, b: Hash, c: Hash, d: Hash)
    requires Injective(sha)
    ensures MerkleRoot(sha, [a, b, c]) == MerkleRoot(sha, [a, b, d]) <==> Plus(c, c) == Plus(d, d)
  {
    SmallRoots(sha, a, b, c);
    SmallRoots(sha, a, b, d);
    var h := sha(Plus(a, b));
    if Plus(h, sha(Plus(c, c))) == Plus(h, sha(Plus(d, d))) { PlusCancels(h, sha(Plus(c, c)), sha(Plus(d, d))); }
  }
}
