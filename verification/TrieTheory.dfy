/**
 What the trie is for: it refines a map, its shape is determined by the map, its cached hashes are
 the hashes of a full recomputation, and so its root hash does not depend on its history.
 */
module TrieTheory {
  import opened Options
  import opened Uint256
  import opened TrieModel
  import opened TrieShape

  // ---- one shape for one map ----

  /** Equal up to the cached hashes and the `modified` flags. */
  ghost predicate SameShape<V>(a: Tree<V>, b: Tree<V>)
  {
    match a
    case Absent => b.Absent?
    case Leaf(key, sub, value, _, _) => b.Leaf? && b.key == key && b.sub == sub && b.value == value
    case Branch(key, sub, kids, _, _) =>
      && b.Branch? && b.key == key && b.sub == sub && |b.kids| == |kids|
      && forall i | 0 <= i < |kids| :: SameShape(kids[i], b.kids[i])
  }

  /** Every node lies on the way to some key. */
  lemma {:induction false} Witness<V>(t: Tree<V>, p: Path) returns (q: Path)
    requires NodeOk(t, p)
    ensures |p| + |q| == KEY_LENGTH && |t.sub| <= |q| && q[..|t.sub|] == t.sub && LookupNode(t, q).Some?
    decreases t
  {
    if t.Leaf? {
      q := t.sub;
    } else {
      var i := CountSome(t.kids);
      var r := Witness(t.kids[i], p + t.sub);
      q := t.sub + r;
      assert q[..|t.sub|] == t.sub && q[|t.sub|..] == r && r[0] == t.kids[i].sub[0] == i;
    }
  }

  /** A branch lies on the way to two keys that part right below it. */
  lemma Fork<V>(t: Tree<V>, p: Path) returns (q: Path, r: Path)
    requires NodeOk(t, p) && t.Branch?
    ensures |p| + |q| == KEY_LENGTH && |q| == |r| && LookupNode(t, q).Some? && LookupNode(t, r).Some?
    ensures |t.sub| < |q| && q[..|t.sub|] == r[..|t.sub|] == t.sub && q[|t.sub|] != r[|t.sub|]
  {
    var i, j := CountTwo(t.kids);
    var q' := Witness(t.kids[i], p + t.sub);
    var r' := Witness(t.kids[j], p + t.sub);
    q, r := t.sub + q', t.sub + r';
    assert q[|t.sub|..] == q' && r[|t.sub|..] == r' && q'[0] == t.kids[i].sub[0] && r'[0] == t.kids[j].sub[0];
  }

  ghost predicate SameKeys<V>(a: Tree<V>, b: Tree<V>, p: Path)
  {
    forall q: Path | |p| + |q| == KEY_LENGTH :: LookupNode(a, q) == LookupNode(b, q)
  }

  /** A key below `t` starts with the prefix of `t`. */
  lemma HasPrefix<V>(t: Tree<V>, p: Path, q: Path)
    requires NodeOk(t, p) && |p| + |q| == KEY_LENGTH && LookupNode(t, q).Some?
    ensures |t.sub| <= |q| && q[..|t.sub|] == t.sub && (t.Leaf? ==> t.sub == q)
  {}

  /** The prefix of a branch is no longer than the prefix of any node with the same keys, since the
      branch parts two keys right below its prefix. */
  lemma PrefixBound<V>(a: Tree<V>, b: Tree<V>, p: Path)
    requires NodeOk(a, p) && NodeOk(b, p) && a.Branch? && SameKeys(a, b, p)
    ensures b.Branch? && |b.sub| <= |a.sub| && b.sub == a.sub[..|b.sub|]
  {
    var q, r := Fork(a, p);
    hide NodeOk;
    assert LookupNode(b, q).Some? && LookupNode(b, r).Some?;
    HasPrefix(b, p, q);
    HasPrefix(b, p, r);
    assert |b.sub| <= |a.sub|;
    assert b.sub == q[..|a.sub|][..|b.sub|];
  }

  lemma {:induction false} CanonicalNode<V>(a: Tree<V>, b: Tree<V>, p: Path)
    requires NodeOk(a, p) && NodeOk(b, p) && SameKeys(a, b, p)
    ensures SameShape(a, b)
    decreases a
  {
    if a.Leaf? {
      if b.Branch? { PrefixBound(b, a, p); }
      assert LookupNode(b, a.sub).Some?;
    } else {
      PrefixBound(a, b, p);
      PrefixBound(b, a, p);
      assert a.sub == a.sub[..|b.sub|];
      forall q: Path | |p + a.sub| + |q| == KEY_LENGTH
        ensures LookupKids(a.kids, q) == LookupKids(b.kids, q)
      {
        var r := a.sub + q;
        assert r[..|a.sub|] == a.sub && r[|a.sub|..] == q;
        assert LookupNode(a, r) == LookupNode(b, r);
      }
      CanonicalKids(a.kids, b.kids, p + a.sub);
    }
  }

  lemma {:induction false} CanonicalKids<V>(a: seq<Tree<V>>, b: seq<Tree<V>>, p: Path)
    requires KidsOk(a, p) && KidsOk(b, p) && |p| < KEY_LENGTH
    requires forall q: Path | |p| + |q| == KEY_LENGTH :: LookupKids(a, q) == LookupKids(b, q)
    ensures forall i | 0 <= i < CHILDREN_COUNT :: SameShape(a[i], b[i])
    decreases a
  {
    forall i | 0 <= i < CHILDREN_COUNT
      ensures SameShape(a[i], b[i])
    {
      KidKeys(a, b, p, i);
      KidKeys(b, a, p, i);
      if !a[i].Absent? { CanonicalNode(a[i], b[i], p); }
    }
  }

  lemma KidKeys<V>(a: seq<Tree<V>>, b: seq<Tree<V>>, p: Path, i: nat)
    requires KidsOk(a, p) && KidsOk(b, p) && |p| < KEY_LENGTH && i < CHILDREN_COUNT
    requires forall q: Path | |p| + |q| == KEY_LENGTH :: LookupKids(a, q) == LookupKids(b, q)
    ensures !a[i].Absent? ==> !b[i].Absent? && SameKeys(a[i], b[i], p)
  {
    if !a[i].Absent? {
      var w := Witness(a[i], p);
      assert w[0] == i && LookupKids(b, w).Some?;
      forall q: Path | |p| + |q| == KEY_LENGTH
        ensures LookupNode(a[i], q) == LookupNode(b[i], q)
      {
        assert LookupKids(a, q) == LookupKids(b, q);
        if q[0] != i {
          if LookupNode(a[i], q).Some? { HasPrefix(a[i], p, q); }
          if LookupNode(b[i], q).Some? { HasPrefix(b[i], p, q); }
        }
      }
    }
  }

  /** Two well-shaped tries that answer every search alike have the same nodes, prefixes and keys. */
  lemma Canonical<V>(a: Tree<V>, b: Tree<V>)
    requires RootOk(a) && RootOk(b) && forall k: Key :: Lookup(a, k) == Lookup(b, k)
    ensures SameShape(a, b)
  {
    forall q: Path | |q| == KEY_LENGTH
      ensures LookupKids(a.kids, q) == LookupKids(b.kids, q)
    {
      var k: Key := q;
      assert Lookup(a, k) == Lookup(b, k);
    }
    CanonicalKids(a.kids, b.kids, []);
  }

  // ---- equal shapes ----

  lemma {:induction false} SameHash<V>(hs: Hashing<V>, a: Tree<V>, b: Tree<V>)
    requires SameShape(a, b)
    ensures FullHash(hs, a) == FullHash(hs, b)
    decreases a, 0
  {
    if a.Branch? { SameSum(hs, a.kids, b.kids); }
  }

  lemma {:induction false} SameSum<V>(hs: Hashing<V>, a: seq<Tree<V>>, b: seq<Tree<V>>)
    requires |a| == |b| && forall i | 0 <= i < |a| :: SameShape(a[i], b[i])
    ensures FullSum(hs, a) == FullSum(hs, b)
    decreases a
  {
    if a != [] {
      var n := |a| - 1;
      SameSum(hs, a[..n], b[..n]);
      assert SameShape(a[n], b[n]);
      SameHash(hs, a[n], b[n]);
    }
  }

  lemma {:induction false} SameCount<V>(a: seq<Tree<V>>, b: seq<Tree<V>>)
    requires |a| == |b| && forall i | 0 <= i < |a| :: SameShape(a[i], b[i])
    ensures Count(a) == Count(b)
  {
    if a != [] {
      SameCount(a[..|a| - 1], b[..|a| - 1]);
      assert SameShape(a[|a| - 1], b[|a| - 1]);
    }
  }

  lemma {:induction false} SameOk<V>(a: Tree<V>, b: Tree<V>, p: Path)
    requires SameShape(a, b) && NodeOk(a, p)
    ensures NodeOk(b, p)
  {
    if a.Branch? {
      SameCount(a.kids, b.kids);
      SameKidsOk(a.kids, b.kids, p + a.sub);
    }
  }

  lemma {:induction false} SameKidsOk<V>(a: seq<Tree<V>>, b: seq<Tree<V>>, p: Path)
    requires |a| == |b| && (forall i | 0 <= i < |a| :: SameShape(a[i], b[i])) && KidsOk(a, p)
    ensures KidsOk(b, p)
  {
    forall i | 0 <= i < CHILDREN_COUNT && !b[i].Absent?
      ensures NodeOk(b[i], p) && b[i].sub[0] == i
    {
      assert SameShape(a[i], b[i]);
      SameOk(a[i], b[i], p);
    }
  }

  lemma {:induction false} SameLookup<V>(a: Tree<V>, b: Tree<V>, q: Path)
    requires SameShape(a, b)
    ensures LookupNode(a, q) == LookupNode(b, q)
  {
    if a.Branch? && |a.sub| < |q| {
      var r := q[|a.sub|..];
      if r[0] < |a.kids| { SameLookup(a.kids[r[0]], b.kids[r[0]], r); }
    }
  }

  // ---- cached hashes ----

  lemma {:induction false} CutCoherent<V>(hs: Hashing<V>, t: Tree<V>, sub: Path)
    requires !t.Absent? && Coherent(hs, t)
    ensures Coherent(hs, t.(sub := sub)) && Coherent(hs, t.(sub := sub, modified := true))
  {}

  lemma {:induction false} InsertNodeCoherent<V>(hs: Hashing<V>, t: Tree<V>, p: Path, k: Path, v: V)
    requires !t.Absent? && Coherent(hs, t)
    ensures Coherent(hs, InsertNode(t, p, k, v))
    decreases t, 1
  {
    var c := Common(t.sub, k);
    if c < |k| {
      if c < |t.sub| {
        CutCoherent(hs, t, t.sub[c..]);
      } else if t.Branch? {
        InsertBranchCoherent(hs, t, p + t.sub, k[c..], v);
      }
    }
  }

  lemma {:induction false} InsertBranchCoherent<V>(hs: Hashing<V>, t: Tree<V>, p: Path, k: Path, v: V)
    requires t.Branch? && Coherent(hs, t)
    ensures Coherent(hs, InsertBranch(t, p, k, v))
    decreases t, 0
  {
    if k != [] && k[0] < |t.kids| && !t.kids[k[0]].Absent? {
      InsertNodeCoherent(hs, t.kids[k[0]], p, k, v);
    }
  }

  lemma {:induction false} UpdateBranchCoherent<V>(hs: Hashing<V>, t: Tree<V>, k: Path, v: V)
    requires t.Branch? && Coherent(hs, t)
    ensures Coherent(hs, UpdateBranch(t, k, v))
  {
    if k != [] && k[0] < |t.kids| {
      var kid := t.kids[k[0]];
      if kid.Branch? && |kid.sub| < |k| { UpdateBranchCoherent(hs, kid, k[|kid.sub|..], v); }
    }
  }

  lemma {:induction false} EraseBranchCoherent<V>(hs: Hashing<V>, t: Tree<V>, k: Path, isRoot: bool)
    requires t.Branch? && Coherent(hs, t)
    ensures Coherent(hs, EraseBranch(t, k, isRoot))
  {
    if k != [] && k[0] < |t.kids| {
      var kid := t.kids[k[0]];
      if kid.Leaf? {
        var rest := t.kids[k[0] := Absent];
        var f := First(rest);
        if f < |rest| { CutCoherent(hs, rest[f], t.sub + rest[f].sub); }
      } else if kid.Branch? && |kid.sub| < |k| {
        EraseBranchCoherent(hs, kid, k[|kid.sub|..], false);
      }
    }
  }

  /** No branch at or below `t` is marked. */
  ghost predicate Clean<V>(t: Tree<V>)
  {
    t.Branch? ==> !t.modified && forall i | 0 <= i < |t.kids| :: Clean(t.kids[i])
  }

  /** One unmarked branch has only unmarked branches below it. */
  lemma {:induction false} UnmarkedIsClean<V>(hs: Hashing<V>, t: Tree<V>)
    requires Coherent(hs, t) && (t.Branch? ==> !t.modified)
    ensures Clean(t)
  {
    if t.Branch? {
      forall i | 0 <= i < |t.kids|
        ensures Clean(t.kids[i])
      {
        UnmarkedIsClean(hs, t.kids[i]);
      }
    }
  }

  lemma {:induction false} ShapeReflexive<V>(t: Tree<V>)
    ensures SameShape(t, t)
  {
    if t.Branch? {
      forall i | 0 <= i < |t.kids|
        ensures SameShape(t.kids[i], t.kids[i])
      {
        ShapeReflexive(t.kids[i]);
      }
    }
  }

  /** Hashing one child yields its full hash, changes nothing but hashes and marks, and leaves no
      branch marked. */
  lemma {:induction false} RehashKidCorrect<V>(hs: Hashing<V>, t: Tree<V>)
    requires Coherent(hs, t)
    ensures var r := RehashKid(hs, t);
            && SameShape(t, r) && Coherent(hs, r)
            && (!t.Absent? ==> r.hash == FullHash(hs, t) && (r.Branch? ==> !r.modified))
    decreases t, 1
  {
    if t.Branch? {
      if t.modified {
        RehashKidsCorrect(hs, t.kids);
        var r := RehashBranch(hs, t);
        SameHash(hs, t, r);
      } else {
        ShapeReflexive(t);
      }
    }
  }

  lemma {:induction false} RehashKidsCorrect<V>(hs: Hashing<V>, kids: seq<Tree<V>>)
    requires forall i | 0 <= i < |kids| :: Coherent(hs, kids[i])
    ensures var r := RehashKids(hs, kids);
            && CachedSum(r) == FullSum(hs, kids)
            && forall i | 0 <= i < |kids| ::
                  SameShape(kids[i], r[i]) && Coherent(hs, r[i]) && (r[i].Branch? ==> !r[i].modified)
    decreases kids, 0
  {
    hide Coherent, SameShape, FullHash, RehashKid, CachedSum, FullSum;
    var r := RehashKids(hs, kids);
    forall i | 0 <= i < |kids|
      ensures SameShape(kids[i], r[i]) && Coherent(hs, r[i]) && (r[i].Branch? ==> !r[i].modified)
      ensures r[i].Absent? == kids[i].Absent? && (!kids[i].Absent? ==> r[i].hash == FullHash(hs, kids[i]))
    {
      RehashKidCorrect(hs, kids[i]);
    }
    SumOfHashes(hs, kids, r);
  }

  lemma {:induction false} SumOfHashes<V>(hs: Hashing<V>, kids: seq<Tree<V>>, r: seq<Tree<V>>)
    requires |kids| == |r|
    requires forall i | 0 <= i < |kids| ::
        r[i].Absent? == kids[i].Absent? && (!kids[i].Absent? ==> r[i].hash == FullHash(hs, kids[i]))
    ensures CachedSum(r) == FullSum(hs, kids)
  {
    hide FullHash;
    if kids != [] { SumOfHashes(hs, kids[..|kids| - 1], r[..|kids| - 1]); }
  }

  /** `get_hash` returns the hash of a full recomputation and leaves every branch unmarked. */
  lemma GetHashCorrect<V>(hs: Hashing<V>, t: Tree<V>)
    requires t.Branch? && Coherent(hs, t)
    ensures var r := RehashBranch(hs, t);
            r.hash == FullHash(hs, t) && SameShape(t, r) && Coherent(hs, r) && Clean(r)
  {
    RehashKidCorrect(hs, t);
    assert RehashKid(hs, t) == RehashBranch(hs, t);
    UnmarkedIsClean(hs, RehashBranch(hs, t));
  }

  /** Rehashing changes nothing of the shape. */
  lemma {:induction false} RehashShape<V>(hs: Hashing<V>, t: Tree<V>)
    ensures SameShape(t, RehashKid(hs, t))
  {
    ShapeReflexive(t);
    if t.Branch? && t.modified {
      forall i | 0 <= i < |t.kids|
        ensures SameShape(t.kids[i], RehashKids(hs, t.kids)[i])
      {
        RehashShape(hs, t.kids[i]);
      }
    }
  }

  lemma RehashRootOk<V>(hs: Hashing<V>, t: Tree<V>)
    requires RootOk(t)
    ensures RootOk(RehashBranch(hs, t)) && RehashKid(hs, t) == RehashBranch(hs, t)
  {
    RehashShape(hs, t);
    SameKidsOk(t.kids, RehashBranch(hs, t).kids, []);
  }

  // ---- whole runs ----

  datatype Op<V> =
    | InsertOp(k: Key, v: V)
    | UpdateOp(k: Key, v: V)
    | EraseOp(k: Key)
    | HashOp

  function Step<V>(hs: Hashing<V>, t: Tree<V>, op: Op<V>): (r: Tree<V>)
    requires t.Branch?
    ensures r.Branch?
  {
    match op
    case InsertOp(k, v) => Insert(t, k, v)
    case UpdateOp(k, v) => Update(t, k, v)
    case EraseOp(k) => Erase(t, k)
    case HashOp => RehashBranch(hs, t)
  }

  function Run<V>(hs: Hashing<V>, ops: seq<Op<V>>): (t: Tree<V>)
    ensures t.Branch?
  {
    if ops == [] then Empty(hs) else Step(hs, Run(hs, ops[..|ops| - 1]), ops[|ops| - 1])
  }

  /** The same operations on a plain map, where inserting a present key does nothing. */
  function MapStep<V>(m: map<Key, V>, op: Op<V>): map<Key, V>
  {
    match op
    case InsertOp(k, v) => if k in m then m else m[k := v]
    case UpdateOp(k, v) => if k in m then m[k := v] else m
    case EraseOp(k) => m - {k}
    case HashOp => m
  }

  function MapRun<V>(ops: seq<Op<V>>): map<Key, V>
  {
    if ops == [] then map[] else MapStep(MapRun(ops[..|ops| - 1]), ops[|ops| - 1])
  }

  function MapGet<V>(m: map<Key, V>, k: Key): Option<V> { if k in m then Some(m[k]) else None }

  ghost predicate Represents<V>(t: Tree<V>, m: map<Key, V>)
    requires t.Branch?
  {
    forall k: Key :: Lookup(t, k) == MapGet(m, k)
  }

  ghost predicate Invariant<V>(hs: Hashing<V>, t: Tree<V>)
  {
    RootOk(t) && Coherent(hs, t)
  }

  lemma StepKeepsShape<V>(hs: Hashing<V>, t: Tree<V>, op: Op<V>)
    requires Invariant(hs, t)
    ensures RootOk(Step(hs, t, op))
  {
    match op
    case InsertOp(k, v) => if Lookup(t, k) == None { InsertBranchOk(t, [], k, v); }
    case UpdateOp(k, v) => if Lookup(t, k).Some? { UpdateBranchOk(t, [], k, v); }
    case EraseOp(k) => if Lookup(t, k).Some? { EraseBranchOk(t, [], k, true); }
    case HashOp =>
      GetHashCorrect(hs, t);
      SameKidsOk(t.kids, RehashBranch(hs, t).kids, []);
  }

  lemma StepKeepsCoherence<V>(hs: Hashing<V>, t: Tree<V>, op: Op<V>)
    requires Invariant(hs, t)
    ensures Coherent(hs, Step(hs, t, op))
  {
    match op
    case InsertOp(k, v) => InsertBranchCoherent(hs, t, [], k, v);
    case UpdateOp(k, v) => UpdateBranchCoherent(hs, t, k, v);
    case EraseOp(k) => EraseBranchCoherent(hs, t, k, true);
    case HashOp => GetHashCorrect(hs, t);
  }

  /** What an operation makes of the entry under its own key. */
  function Entry<V>(op: Op<V>, before: Option<V>): Option<V>
  {
    match op
    case InsertOp(_, v) => if before.Some? then before else Some(v)
    case UpdateOp(_, v) => if before.Some? then Some(v) else None
    case EraseOp(_) => None
    case HashOp => before
  }

  /** An operation changes the answer for its own key only. */
  lemma StepAnswers<V>(hs: Hashing<V>, t: Tree<V>, op: Op<V>, q: Key)
    requires Invariant(hs, t)
    ensures Lookup(Step(hs, t, op), q) == if !op.HashOp? && q == op.k then Entry(op, Lookup(t, q)) else Lookup(t, q)
  {
    match op
    case InsertOp(k, v) => if Lookup(t, k) == None { InsertBranchLookup(t, [], k, v, q); }
    case UpdateOp(k, v) => if Lookup(t, k).Some? { UpdateBranchLookup(t, [], k, v, q); }
    case EraseOp(k) =>
      if Lookup(t, k).Some? {
        EraseBranchOk(t, [], k, true);
        EraseBranchLookup(t, [], k, true, q);
        assert t.sub + q == q && q[0..] == q;
      }
    case HashOp =>
      GetHashCorrect(hs, t);
      var r := RehashBranch(hs, t);
      SameLookup(t.kids[q[0]], r.kids[q[0]], q);
  }

  /** Each operation answers every later search as the map operation does. */
  lemma StepLookup<V>(hs: Hashing<V>, t: Tree<V>, op: Op<V>, m: map<Key, V>, q: Key)
    requires Invariant(hs, t) && Represents(t, m)
    ensures Lookup(Step(hs, t, op), q) == MapGet(MapStep(m, op), q)
  {
    StepAnswers(hs, t, op, q);
    assert Lookup(t, q) == MapGet(m, q);
  }

  /** Every run keeps the invariant and refines the map. */
  lemma {:induction false} RunRefinesMap<V>(hs: Hashing<V>, ops: seq<Op<V>>)
    ensures Invariant(hs, Run(hs, ops)) && Represents(Run(hs, ops), MapRun(ops))
  {
    if ops == [] {
      EmptySum(hs, NoKids<V>());
    } else {
      var before, op := ops[..|ops| - 1], ops[|ops| - 1];
      RunRefinesMap(hs, before);
      var t := Run(hs, before);
      StepKeepsShape(hs, t, op);
      StepKeepsCoherence(hs, t, op);
      forall q: Key
        ensures Lookup(Step(hs, t, op), q) == MapGet(MapStep(MapRun(before), op), q)
      {
        StepLookup(hs, t, op, MapRun(before), q);
      }
    }
  }

  lemma {:induction false} EmptySum<V>(hs: Hashing<V>, kids: seq<Tree<V>>)
    requires forall i | 0 <= i < |kids| :: kids[i].Absent?
    ensures FullSum(hs, kids) == Zero()
  {
    if kids != [] { EmptySum(hs, kids[..|kids| - 1]); }
  }

  /** Two runs that end with the same map return the same root hash, whatever they did on the way
      and wherever they asked for the hash in between. */
  lemma HistoryIndependence<V>(hs: Hashing<V>, ops: seq<Op<V>>, ops': seq<Op<V>>)
    requires MapRun(ops) == MapRun(ops')
    ensures SameShape(Run(hs, ops), Run(hs, ops'))
    ensures Step(hs, Run(hs, ops), HashOp).hash == Step(hs, Run(hs, ops'), HashOp).hash
  {
    var a, b := Run(hs, ops), Run(hs, ops');
    RunRefinesMap(hs, ops);
    RunRefinesMap(hs, ops');
    forall k: Key
      ensures Lookup(a, k) == Lookup(b, k)
    {
      assert Lookup(a, k) == MapGet(MapRun(ops), k) == Lookup(b, k);
    }
    Canonical(a, b);
    SameHash(hs, a, b);
    GetHashCorrect(hs, a);
    GetHashCorrect(hs, b);
  }

  // ---- what the root hash tells ----

  /** No collisions: different inputs have different digests. */
  ghost predicate Injective<V(!new)>(hs: Hashing<V>)
  {
    && (forall a, b :: hs.sha(a) == hs.sha(b) ==> a == b)
    && (forall v, w :: hs.digest(v) == hs.digest(w) ==> v == w)
  }

  /** Exchanging one child for another with a different hash changes the sum of a child table. */
  lemma {:induction false} SumChanges<V>(hs: Hashing<V>, kids: seq<Tree<V>>, i: nat, t: Tree<V>)
    requires i < |kids| && !kids[i].Absent? && !t.Absent? && FullHash(hs, t) != FullHash(hs, kids[i])
    ensures FullSum(hs, kids[i := t]) != FullSum(hs, kids)
  {
    hide FullHash, Plus;
    var n := |kids| - 1;
    var sum := FullSum(hs, kids[..n]);
    if i == n {
      assert kids[i := t][..n] == kids[..n];
      if Plus(sum, FullHash(hs, t)) == Plus(sum, FullHash(hs, kids[n])) {
        PlusCancels(sum, FullHash(hs, t), FullHash(hs, kids[n]));
      }
    } else {
      assert kids[i := t][..n] == kids[..n][i := t];
      SumChanges(hs, kids[..n], i, t);
      if !kids[n].Absent? {
        var h, sum' := FullHash(hs, kids[n]), FullSum(hs, kids[..n][i := t]);
        PlusCommutes(sum, h);
        PlusCommutes(sum', h);
        if Plus(sum', h) == Plus(sum, h) { PlusCancels(h, sum', sum); }
      }
    }
  }

  /** Giving a key another value changes the hash of every branch above it. */
  lemma {:induction false} UpdateChangesBranch<V(!new)>(hs: Hashing<V>, t: Tree<V>, p: Path, k: Path, v: V)
    requires Injective(hs) && t.Branch? && KidsOk(t.kids, p) && |p| + |k| == KEY_LENGTH
    requires LookupKids(t.kids, k).Some? && LookupKids(t.kids, k).value != v
    ensures FullHash(hs, UpdateBranch(t, k, v)) != FullHash(hs, t)
    decreases |k|
  {
    var kid := t.kids[k[0]];
    if kid.Branch? {
      UpdateChangesBranch(hs, kid, p + kid.sub, k[|kid.sub|..], v);
      SumChanges(hs, t.kids, k[0], UpdateBranch(kid, k[|kid.sub|..], v));
    } else {
      SumChanges(hs, t.kids, k[0], kid.(value := v));
    }
  }

  /** If hashing has no collisions, giving a key that is present another value changes the root hash. */
  lemma UpdateChangesRoot<V(!new)>(hs: Hashing<V>, t: Tree<V>, k: Key, v: V)
    requires Injective(hs) && Invariant(hs, t) && Lookup(t, k).Some? && Lookup(t, k).value != v
    ensures RehashBranch(hs, Step(hs, t, UpdateOp(k, v))).hash != RehashBranch(hs, t).hash
  {
    hide Injective, Coherent, RehashBranch, FullHash, UpdateBranch, LookupKids;
    StepKeepsCoherence(hs, t, UpdateOp(k, v));
    GetHashCorrect(hs, t);
    GetHashCorrect(hs, Step(hs, t, UpdateOp(k, v)));
    UpdateChangesBranch(hs, t, [], k, v);
  }

  // ---- what it does not tell ----

  /** Another child adds its hash to the sum, in whatever slot it is. */
  lemma {:induction false} SumAdds<V>(hs: Hashing<V>, kids: seq<Tree<V>>, i: nat, t: Tree<V>)
    requires i < |kids| && kids[i].Absent? && !t.Absent?
    ensures FullSum(hs, kids[i := t]) == Plus(FullSum(hs, kids), FullHash(hs, t))
  {
    hide FullHash, Plus;
    var n, h := |kids| - 1, FullHash(hs, t);
    var sum := FullSum(hs, kids[..n]);
    if i == n {
      assert kids[i := t][..n] == kids[..n];
    } else {
      assert kids[i := t][..n] == kids[..n][i := t];
      SumAdds(hs, kids[..n], i, t);
      if !kids[n].Absent? {
        var last := FullHash(hs, kids[n]);
        PlusAssociates(sum, h, last);
        PlusCommutes(h, last);
        PlusAssociates(sum, last, h);
      }
    }
  }

  lemma OneLeafHash<V>(hs: Hashing<V>, k: Key, v: V)
    ensures FullHash(hs, Insert(Empty(hs), k, v)) == hs.sha(hs.digest(v))
  {
    var kids := NoKids<V>();
    assert LookupKids(kids, k) == None;
    assert Insert(Empty(hs), k, v).kids == kids[k[0] := NewLeaf([], k, v)];
    SumAdds(hs, kids, k[0], NewLeaf([], k, v));
    EmptySum(hs, kids);
    PlusCommutes(Zero(), hs.digest(v));
    PlusZero(hs.digest(v));
  }

  /** The keys are no part of the hash: with one account each, tries have the same root hash if and only
      if the accounts do, whatever their addresses. */
  lemma RootIgnoresKeys<V(!new)>(hs: Hashing<V>, k: Key, v: V, k': Key, v': V)
    requires Injective(hs)
    ensures FullHash(hs, Insert(Empty(hs), k, v)) == FullHash(hs, Insert(Empty(hs), k', v')) <==> v == v'
  {
    OneLeafHash(hs, k, v);
    OneLeafHash(hs, k', v');
  }
}
