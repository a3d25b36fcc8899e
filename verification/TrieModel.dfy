/**
 The value a Merkle Patricia trie stands for: a 16-way path-compressed tree with the hash and the
 `modified` flag that every node carries, and what each operation of the trie makes of it.
 The heap objects of TrieHeap.dfy are proved against these functions.
 */
module TrieModel {
  import opened Options
  import opened Uint256

  const KEY_LENGTH := 64
  const CHILDREN_COUNT := 16

  type Nibble = n: int | 0 <= n < CHILDREN_COUNT
  type Path = seq<Nibble>
  type Key = k: Path | |k| == KEY_LENGTH witness seq(KEY_LENGTH, _ => 0)

  /** SHA3-256 and the hash of an account, left uninterpreted. */
  datatype Hashing<!V> = Hashing(sha: Hash -> Hash, digest: V -> Hash)

  /** One node and everything below it; `Absent` is an empty slot of a child table. */
  datatype Tree<V> =
    | Absent
    | Leaf(key: string, sub: Path, value: V, hash: Hash, modified: bool)
    | Branch(key: string, sub: Path, kids: seq<Tree<V>>, hash: Hash, modified: bool)

  // ---- the names of nodes ----

  function HexDigit(n: Nibble): char { "0123456789abcdef"[n] }

  function Hex(p: Path): (s: string)
    ensures |s| == |p|
  {
    seq(|p|, i requires 0 <= i < |p| => HexDigit(p[i]))
  }

  /** The root is stored under 64 zeroes. */
  const ROOT_KEY: string := "0000000000000000000000000000000000000000000000000000000000000000"

  // ---- shape ----

  /** A fresh child table. */
  function NoKids<V>(): (kids: seq<Tree<V>>)
    ensures |kids| == CHILDREN_COUNT && forall i | 0 <= i < CHILDREN_COUNT :: kids[i].Absent?
  {
    seq(CHILDREN_COUNT, _ => Absent)
  }

  /** How many slots of a child table are in use. */
  function Count<V>(kids: seq<Tree<V>>): nat
  {
    if kids == [] then 0
    else Count(kids[..|kids| - 1]) + if kids[|kids| - 1].Absent? then 0 else 1
  }

  /** A node reached over `p`: its sub_keys spell its key, every child sits in the slot its first
      nibble names, leaves are exactly at depth 64, and a branch has at least two children. */
  ghost predicate NodeOk<V>(t: Tree<V>, p: Path)
  {
    match t
    case Absent => false
    case Leaf(key, sub, _, _, _) =>
      sub != [] && |p| + |sub| == KEY_LENGTH && key == Hex(p + sub)
    case Branch(key, sub, kids, _, _) =>
      && sub != [] && |p| + |sub| < KEY_LENGTH && key == Hex(p + sub)
      && |kids| == CHILDREN_COUNT && Count(kids) >= 2
      && forall i | 0 <= i < CHILDREN_COUNT && !kids[i].Absent? ::
           NodeOk(kids[i], p + sub) && kids[i].sub[0] == i
  }

  ghost predicate KidsOk<V>(kids: seq<Tree<V>>, p: Path)
  {
    && |kids| == CHILDREN_COUNT
    && forall i | 0 <= i < CHILDREN_COUNT && !kids[i].Absent? :: NodeOk(kids[i], p) && kids[i].sub[0] == i
  }

  /** The root is a branch without a prefix; it may have any number of children. */
  ghost predicate RootOk<V>(t: Tree<V>)
  {
    t.Branch? && t.key == ROOT_KEY && t.sub == [] && KidsOk(t.kids, [])
  }

  // ---- search ----

  /** The value stored under the rest `k` of a key, looking down from a node. */
  function LookupNode<V>(t: Tree<V>, k: Path): Option<V>
    decreases t, 1
  {
    match t
    case Absent => None
    case Leaf(_, sub, value, _, _) => if sub == k then Some(value) else None
    case Branch(_, sub, kids, _, _) =>
      if |sub| < |k| && sub == k[..|sub|] then LookupKids(kids, k[|sub|..]) else None
  }

  function LookupKids<V>(kids: seq<Tree<V>>, k: Path): Option<V>
    decreases kids, 0
  {
    if k == [] || k[0] >= |kids| then None else LookupNode(kids[k[0]], k)
  }

  function Lookup<V>(t: Tree<V>, k: Key): Option<V>
    requires t.Branch?
  {
    LookupKids(t.kids, k)
  }

  // ---- insert ----

  function NewLeaf<V>(p: Path, sub: Path, v: V): Tree<V>
  {
    Leaf(Hex(p + sub), sub, v, Zero(), true)
  }

  /** Length of the common prefix. */
  function Common(a: Path, b: Path): (n: nat)
    ensures n <= |a| && n <= |b| && a[..n] == b[..n]
    ensures n < |a| && n < |b| ==> a[n] != b[n]
  {
    if a == [] || b == [] || a[0] != b[0] then 0
    else
      var n := Common(a[1..], b[1..]) + 1;
      assert a[..n] == [a[0]] + a[1..][..n - 1];
      assert b[..n] == [b[0]] + b[1..][..n - 1];
      n
  }

  /** The node that takes the place of `t` when its prefix is cut after `c` nibbles. */
  function Split<V>(t: Tree<V>, p: Path, c: nat, k: Path, v: V): Tree<V>
    requires !t.Absent? && c < |t.sub| && c < |k| && t.sub[..c] == k[..c]
  {
    var leaf := NewLeaf(p + k[..c], k[c..], v);
    var lower := t.(sub := t.sub[c..]);
    Branch(Hex(p + k[..c]), t.sub[..c], NoKids<V>()[k[c] := leaf][t.sub[c] := lower], Zero(), true)
  }

  /** Insert below a node reached over `p`, for a key that is not present there. */
  function InsertNode<V>(t: Tree<V>, p: Path, k: Path, v: V): Tree<V>
    requires !t.Absent?
    decreases t, 1
  {
    var c := Common(t.sub, k);
    if c == |k| then t
    else if c < |t.sub| then Split(t, p, c, k, v)
    else if t.Leaf? then t
    else InsertBranch(t, p + t.sub, k[c..], v)
  }

  /** Insert into the child table of branch `t`, whose own path is `p`. */
  function InsertBranch<V>(t: Tree<V>, p: Path, k: Path, v: V): (r: Tree<V>)
    requires t.Branch?
    ensures r.Branch?
    decreases t, 0
  {
    if k == [] || k[0] >= |t.kids| then t
    else if t.kids[k[0]].Absent? then t.(kids := t.kids[k[0] := NewLeaf(p, k, v)], modified := true)
    else t.(kids := t.kids[k[0] := InsertNode(t.kids[k[0]], p, k, v)], modified := true)
  }

  /** A key that is already present keeps its value, and nothing is marked. */
  function Insert<V>(t: Tree<V>, k: Key, v: V): Tree<V>
    requires t.Branch?
  {
    if Lookup(t, k).Some? then t else InsertBranch(t, [], k, v)
  }

  // ---- marking and in-place updates ----

  /** Mark every branch from `t` down to the parent of the leaf, and give the leaf the value `v`. */
  function UpdateBranch<V>(t: Tree<V>, k: Path, v: V): (r: Tree<V>)
    requires t.Branch?
    ensures r.Branch?
  {
    if k == [] || k[0] >= |t.kids| then t
    else
      var kid := t.kids[k[0]];
      match kid
      case Absent => t
      case Leaf(_, _, _, _, _) => t.(kids := t.kids[k[0] := kid.(value := v)], modified := true)
      case Branch(_, sub, _, _, _) =>
        if |sub| < |k| then t.(kids := t.kids[k[0] := UpdateBranch(kid, k[|sub|..], v)], modified := true)
        else t
  }

  /** `search_and_mark` followed by a write through the pointer it returns. */
  function Update<V>(t: Tree<V>, k: Key, v: V): Tree<V>
    requires t.Branch?
  {
    if Lookup(t, k).Some? then UpdateBranch(t, k, v) else t
  }

  // ---- erase ----

  /** The first slot in use, or 16. */
  function First<V>(kids: seq<Tree<V>>): (i: nat)
    ensures i <= |kids| && (forall j | 0 <= j < i :: kids[j].Absent?)
    ensures i < |kids| ==> !kids[i].Absent?
  {
    if kids == [] then 0
    else if !kids[0].Absent? then 0
    else
      var i := First(kids[1..]) + 1;
      assert forall j | 0 < j < i :: kids[j] == kids[1..][j - 1];
      i
  }

  /** The last child of a branch moves up into the branch's own place. */
  function Merge<V>(t: Tree<V>, kids: seq<Tree<V>>): Tree<V>
    requires t.Branch?
  {
    var f := First(kids);
    if f < |kids| then
      var brother := kids[f];
      brother.(sub := t.sub + brother.sub, modified := true)
    else Absent
  }

  /** Remove the leaf for `k`, which must be present, below branch `t`. */
  function EraseBranch<V>(t: Tree<V>, k: Path, isRoot: bool): (r: Tree<V>)
    requires t.Branch?
    ensures isRoot ==> r.Branch?
  {
    if k == [] || k[0] >= |t.kids| then t
    else
      var kid := t.kids[k[0]];
      match kid
      case Absent => t
      case Leaf(_, _, _, _, _) =>
        var rest := t.kids[k[0] := Absent];
        if !isRoot && Count(rest) == 1 then Merge(t, rest) else t.(kids := rest, modified := true)
      case Branch(_, sub, _, _, _) =>
        if |sub| < |k| then
          t.(kids := t.kids[k[0] := EraseBranch(kid, k[|sub|..], false)], modified := true)
        else t
  }

  function Erase<V>(t: Tree<V>, k: Key): Tree<V>
    requires t.Branch?
  {
    if Lookup(t, k).Some? then EraseBranch(t, k, true) else t
  }

  // ---- hashes ----

  /** The hash a full recomputation gives. */
  function FullHash<V>(hs: Hashing<V>, t: Tree<V>): Hash
  {
    match t
    case Absent => Zero()
    case Leaf(_, _, value, _, _) => hs.digest(value)
    case Branch(_, _, kids, _, _) => hs.sha(FullSum(hs, kids))
  }

  function FullSum<V>(hs: Hashing<V>, kids: seq<Tree<V>>): Hash
  {
    if kids == [] then Zero()
    else
      var sum := FullSum(hs, kids[..|kids| - 1]);
      if kids[|kids| - 1].Absent? then sum else Plus(sum, FullHash(hs, kids[|kids| - 1]))
  }

  /** The sum over the cached hashes of a child table. */
  function CachedSum<V>(kids: seq<Tree<V>>): Hash
  {
    if kids == [] then Zero()
    else
      var sum := CachedSum(kids[..|kids| - 1]);
      if kids[|kids| - 1].Absent? then sum else Plus(sum, kids[|kids| - 1].hash)
  }

  /** What hashing does to one child of a branch that is hashed: leaves are always hashed anew,
      branches only when they are marked. */
  function RehashKid<V>(hs: Hashing<V>, t: Tree<V>): (r: Tree<V>)
    ensures r.Absent? == t.Absent? && r.Leaf? == t.Leaf?
    decreases t, 1
  {
    match t
    case Absent => t
    case Leaf(key, sub, value, _, _) => Leaf(key, sub, value, hs.digest(value), false)
    case Branch(_, _, _, _, _) => RehashBranch(hs, t)
  }

  function RehashBranch<V>(hs: Hashing<V>, t: Tree<V>): (r: Tree<V>)
    requires t.Branch?
    ensures r.Branch?
    decreases t, 0
  {
    if t.modified then
      var kids := RehashKids(hs, t.kids);
      t.(kids := kids, hash := hs.sha(CachedSum(kids)), modified := false)
    else t
  }

  function RehashKids<V>(hs: Hashing<V>, kids: seq<Tree<V>>): (r: seq<Tree<V>>)
    ensures |r| == |kids|
    ensures forall i | 0 <= i < |kids| :: r[i] == RehashKid(hs, kids[i])
    decreases kids, 0
  {
    if kids == [] then []
    else RehashKids(hs, kids[..|kids| - 1]) + [RehashKid(hs, kids[|kids| - 1])]
  }

  /** An unmarked branch stores its full hash and has no marked branch below it. */
  ghost predicate Coherent<V>(hs: Hashing<V>, t: Tree<V>)
  {
    t.Branch? ==>
      && (forall i | 0 <= i < |t.kids| :: Coherent(hs, t.kids[i]))
      && (!t.modified ==>
            && t.hash == FullHash(hs, t)
            && forall i | 0 <= i < |t.kids| && t.kids[i].Branch? :: !t.kids[i].modified)
  }

  /** The trie of the default constructor, after its call of `get_hash`. */
  function Empty<V>(hs: Hashing<V>): Tree<V>
  {
    Branch(ROOT_KEY, [], NoKids<V>(), hs.sha(Zero()), false)
  }
}
