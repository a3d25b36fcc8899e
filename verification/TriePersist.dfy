/**
 The change log of the trie, the stores it is written to, and loading a trie from them.
 The extension store holds a record for every node, the account store the value of every leaf.
 */
module TriePersist {
  import opened Options
  import opened Uint256
  import opened TrieModel
  import opened TrieShape
  import opened TrieTheory

  /** What is stored of a node: the children by their keys, in slot order. */
  datatype Record = Record(key: string, sub: Path, hash: Hash, values: seq<string>)

  type Nodes = map<string, Record>

  /** The change log: a record to write under a name, or none for a name to delete. */
  type Log = map<string, Option<Record>>

  /** The extension store, the log not yet written to it, and the account store with what the session
      has written. Accounts are stored under the address, here its hex form. */
  datatype Disk<V> = Disk(store: Nodes, log: Log, accounts: map<string, V>)

  /** The record under a name once the log is written. */
  function At<V>(d: Disk<V>, key: string): Option<Record>
  {
    if key in d.log then d.log[key] else if key in d.store then Some(d.store[key]) else None
  }

  function ChildKeys<V>(kids: seq<Tree<V>>): seq<string>
  {
    if kids == [] then []
    else ChildKeys(kids[..|kids| - 1]) + if kids[|kids| - 1].Absent? then [] else [kids[|kids| - 1].key]
  }

  function RecordOf<V>(t: Tree<V>): Record
    requires !t.Absent?
  {
    Record(t.key, t.sub, t.hash, if t.Branch? then ChildKeys(t.kids) else [])
  }

  function Put<V>(d: Disk<V>, t: Tree<V>): (r: Disk<V>)
    requires !t.Absent?
    ensures r.store == d.store && r.accounts == d.accounts
  {
    d.(log := d.log[t.key := Some(RecordOf(t))])
  }

  function Delete<V>(d: Disk<V>, t: Tree<V>): Disk<V>
    requires !t.Absent?
  {
    d.(log := d.log[t.key := None])
  }

  // ---- what the operations write to the log ----

  /** Insertion logs the new leaf and its parent, and on a split also the new branch and the node
      that moved below it. */
  function LogInsert<V>(t: Tree<V>, p: Path, k: Path, v: V, d: Disk<V>): Disk<V>
    requires t.Branch?
  {
    if k == [] || k[0] >= |t.kids| then d
    else
      var kid := t.kids[k[0]];
      var r := InsertBranch(t, p, k, v);
      if kid.Absent? then Put(Put(d, r), NewLeaf(p, k, v))
      else
        var c := Common(kid.sub, k);
        if c == |k| then d
        else if c < |kid.sub| then
          var moved := Put(d, kid.(sub := kid.sub[c..]));
          Put(Put(Put(moved, Split(kid, p, c, k, v)), r), NewLeaf(p + k[..c], k[c..], v))
        else if kid.Leaf? then d
        else LogInsert(kid, p + kid.sub, k[c..], v, d)
  }

  /** Hashing refreshes the hash of what is in the log already. */
  function Refresh<V>(d: Disk<V>, t: Tree<V>): Disk<V>
    requires !t.Absent? && t.key in d.log
  {
    var r := d.log[t.key];
    if r.None? then d else d.(log := d.log[t.key := Some(r.value.(hash := t.hash))])
  }

  function LogLeaf<V>(d: Disk<V>, leaf: Tree<V>): Disk<V>
    requires leaf.Leaf?
  {
    if leaf.key in d.log then Refresh(d, leaf) else d
  }

  /** It logs a hashed branch that is not in the log. */
  function LogTop<V>(d: Disk<V>, top: Tree<V>): Disk<V>
    requires top.Branch?
  {
    if top.key in d.log then Refresh(d, top) else Put(d, top)
  }

  function LogHash<V>(hs: Hashing<V>, t: Tree<V>, d: Disk<V>): Disk<V>
    decreases t, 1
  {
    match t
    case Absent => d
    case Leaf(_, _, _, _, _) => LogLeaf(d, RehashKid(hs, t))
    case Branch(_, _, kids, _, modified) =>
      if modified then LogTop(LogHashKids(hs, kids, d), RehashBranch(hs, t)) else d
  }

  function LogHashKids<V>(hs: Hashing<V>, kids: seq<Tree<V>>, d: Disk<V>): Disk<V>
    decreases kids, 0
  {
    if kids == [] then d
    else LogHash(hs, kids[|kids| - 1], LogHashKids(hs, kids[..|kids| - 1], d))
  }

  // ---- what the stores must hold ----

  predicate Describes<V>(r: Record, t: Tree<V>)
    requires !t.Absent?
  {
    r.key == t.key && r.sub == t.sub && r.values == if t.Branch? then ChildKeys(t.kids) else []
  }

  ghost predicate Described<V>(d: Disk<V>, t: Tree<V>)
    requires !t.Absent?
  {
    At(d, t.key).Some? && Describes(At(d, t.key).value, t)
  }

  /** The name would be that of a child in slot `j` of the branch `key`, which is not the root. */
  predicate UnderSlot(name: string, key: string, j: nat)
  {
    && j < CHILDREN_COUNT && key != ROOT_KEY && name != ROOT_KEY
    && |key| < |name| && name[..|key|] == key && name[|key|] == HexDigit(j)
  }

  /** A listed child that is erased: its slot is free and the log deletes its record. */
  ghost predicate Tears<V>(d: Disk<V>, t: Tree<V>, values: seq<string>, gone: string, j: nat)
    requires t.Branch?
  {
    && gone in values && j < |t.kids| && t.kids[j].Absent? && UnderSlot(gone, t.key, j)
    && gone in d.log && d.log[gone].None?
  }

  ghost predicate Torn<V>(d: Disk<V>, t: Tree<V>, values: seq<string>)
    requires t.Branch?
  {
    exists gone, j: nat :: Tears(d, t, values, gone, j)
  }

  /** The record of a branch is right. Unless this is meant strictly, it may still list a child that
      was erased. */
  ghost predicate Listing<V>(d: Disk<V>, t: Tree<V>, strict: bool)
    requires t.Branch?
  {
    var r := At(d, t.key);
    && r.Some? && r.value.key == t.key && r.value.sub == t.sub
    && (r.value.values == ChildKeys(t.kids) || (!strict && t.key in d.log && Torn(d, t, r.value.values)))
  }

  /** The disk describes every node of `t`: its place, its children, the hash of every unmarked
      branch, and the value of every leaf. A marked branch that is not in the log is excused, because
      hashing will log it. No leaf has the zero address, whose name the root uses. */
  ghost predicate Kept<V>(d: Disk<V>, t: Tree<V>, strict: bool)
  {
    match t
    case Absent => true
    case Leaf(key, _, value, _, _) =>
      key != ROOT_KEY && Described(d, t) && key in d.accounts && d.accounts[key] == value
    case Branch(key, _, kids, hash, modified) =>
      && (key in d.log || !modified ==> Listing(d, t, strict))
      && (!modified ==> At(d, key).value.hash == hash)
      && forall i | 0 <= i < |kids| :: Kept(d, kids[i], strict)
  }

  // ---- names below a path ----

  /** The name of a node reached over `q`. */
  predicate Inside(key: string, q: Path)
  {
    key != ROOT_KEY && |q| <= |key| && key[..|q|] == Hex(q)
  }

  /** The name of a node strictly below the branch with path `p`. */
  predicate Below(key: string, p: Path)
  {
    key != ROOT_KEY && |p| < |key| && key[..|p|] == Hex(p)
  }

  lemma HexPrefix(p: Path, n: nat)
    requires n <= |p|
    ensures Hex(p)[..n] == Hex(p[..n])
  {
  }

  lemma InsideIsBelow(key: string, p: Path, i: Nibble)
    requires Inside(key, p + [i])
    ensures Below(key, p) && key[|p|] == HexDigit(i)
  {
    HexPrefix(p + [i], |p|);
    assert (p + [i])[..|p|] == p;
    assert key[..|p|] == key[..|p| + 1][..|p|];
    assert key[|p|] == key[..|p| + 1][|p|] == Hex(p + [i])[|p|];
  }

  lemma InsideApart(key: string, p: Path, i: Nibble, j: Nibble)
    requires Inside(key, p + [i]) && Inside(key, p + [j])
    ensures i == j
  {
    InsideIsBelow(key, p, i);
    InsideIsBelow(key, p, j);
    DigitsDiffer(i, j);
  }

  lemma DigitsDiffer(i: Nibble, j: Nibble)
    ensures HexDigit(i) == HexDigit(j) ==> i == j
  {
  }

  lemma BelowIsInside(key: string, p: Path, s: Path)
    requires s != [] && Below(key, p + s)
    ensures Inside(key, p + [s[0]])
  {
    var n := |p| + 1;
    assert (p + s)[..n] == p + [s[0]];
    HexPrefix(p + s, n);
    assert key[..n] == key[..|p + s|][..n];
  }

  lemma NodeInside<V>(t: Tree<V>, p: Path)
    requires NodeOk(t, p) && t.key != ROOT_KEY
    ensures Inside(t.key, p + [t.sub[0]]) && |t.key| == |p| + |t.sub|
  {
    var n := |p| + 1;
    assert (p + t.sub)[..n] == p + [t.sub[0]];
    HexPrefix(p + t.sub, n);
  }

  // ---- changes elsewhere do not matter ----

  ghost predicate Unchanged<V>(d: Disk<V>, d': Disk<V>, key: string)
  {
    && At(d, key) == At(d', key) && (key in d.log <==> key in d'.log)
    && (key in d.accounts <==> key in d'.accounts) && (key in d.accounts ==> d.accounts[key] == d'.accounts[key])
  }

  ghost predicate SameInside<V>(d: Disk<V>, d': Disk<V>, q: Path)
  {
    forall key | Inside(key, q) :: Unchanged(d, d', key)
  }

  ghost predicate SameOutside<V>(d: Disk<V>, d': Disk<V>, q: Path)
  {
    forall key | !Inside(key, q) :: Unchanged(d, d', key)
  }

  /** A branch keeps its nonroot name short, so that it is not the name of the root. */
  lemma ShortName<V>(t: Tree<V>, p: Path)
    requires NodeOk(t, p) && t.Branch?
    ensures t.key != ROOT_KEY
  {
  }

  lemma {:induction false} KeptFrame<V>(d: Disk<V>, d': Disk<V>, t: Tree<V>, p: Path, strict: bool)
    requires NodeOk(t, p) && Kept(d, t, strict) && SameInside(d, d', p + [t.sub[0]])
    ensures Kept(d', t, strict)
  {
    if t.Branch? { ShortName(t, p); }
    NodeInside(t, p);
    assert Unchanged(d, d', t.key);
    if t.Branch? {
      forall name, j: nat | UnderSlot(name, t.key, j)
        ensures Unchanged(d, d', name)
      {
        InsideDeeper(d, d', p, t.sub, j);
        SlotInside(name, t.key, j, p + t.sub);
      }
      if t.key in d.log || !t.modified { ListingFrame(d, d', t, t, strict); }
      forall i | 0 <= i < |t.kids|
        ensures Kept(d', t.kids[i], strict)
      {
        if !t.kids[i].Absent? {
          InsideDeeper(d, d', p, t.sub, i);
          KeptFrame(d, d', t.kids[i], p + t.sub, strict);
        }
      }
    }
  }

  lemma SlotInside(name: string, key: string, j: nat, p: Path)
    requires UnderSlot(name, key, j) && key == Hex(p)
    ensures Inside(name, p + [j])
  {
    HexPrefix(p + [j], |p|);
    assert (p + [j])[..|p|] == p;
    assert name[..|p| + 1] == name[..|p|] + [name[|p|]];
  }

  lemma SlotBelow<V>(t: Tree<V>, p: Path, name: string, j: nat)
    requires BranchAt(t, p) && UnderSlot(name, t.key, j)
    ensures Inside(name, p + [j])
  {
    SlotInside(name, t.key, j, p);
  }

  /** A record stays right for a branch with the same children, also below changes elsewhere. */
  lemma ListingFrame<V>(d: Disk<V>, d': Disk<V>, t: Tree<V>, r: Tree<V>, strict: bool)
    requires t.Branch? && r.Branch? && r.key == t.key && r.sub == t.sub && ChildKeys(r.kids) == ChildKeys(t.kids)
    requires |r.kids| == |t.kids| && forall j | 0 <= j < |t.kids| :: t.kids[j].Absent? ==> r.kids[j].Absent?
    requires Listing(d, t, strict) && Unchanged(d, d', t.key)
    requires forall name, j: nat | UnderSlot(name, t.key, j) && j < |t.kids|
      && t.kids[j].Absent? :: Unchanged(d, d', name)
    ensures Listing(d', r, strict)
  {
    hide ChildKeys, UnderSlot;
    var values := At(d, t.key).value.values;
    if values != ChildKeys(t.kids) {
      var gone, j: nat :| Tears(d, t, values, gone, j);
      assert Unchanged(d, d', gone);
      assert Tears(d', r, values, gone, j);
    }
  }

  lemma InsideDeeper<V>(d: Disk<V>, d': Disk<V>, p: Path, s: Path, i: Nibble)
    requires s != [] && SameInside(d, d', p + [s[0]])
    ensures SameInside(d, d', (p + s) + [i])
  {
    forall key | Inside(key, (p + s) + [i])
      ensures Unchanged(d, d', key)
    {
      InsideIsBelow(key, p + s, i);
      BelowIsInside(key, p, s);
    }
  }

  lemma InsideElsewhere<V>(d: Disk<V>, d': Disk<V>, p: Path, i: Nibble, j: Nibble)
    requires SameOutside(d, d', p + [i]) && i != j
    ensures SameInside(d, d', p + [j])
  {
    forall key | Inside(key, p + [j])
      ensures Unchanged(d, d', key)
    {
      if Inside(key, p + [i]) { InsideApart(key, p, i, j); }
    }
  }

  /** A branch with own path `p`: the root, or a branch named by its path. */
  ghost predicate BranchAt<V>(t: Tree<V>, p: Path)
  {
    && t.Branch? && KidsOk(t.kids, p)
    && (if p == [] then t.key == ROOT_KEY else |p| < KEY_LENGTH && t.key == Hex(p))
  }

  ghost predicate SameBut<V>(d: Disk<V>, d': Disk<V>, q: Path, own: string)
  {
    forall key | !Inside(key, q) && key != own :: Unchanged(d, d', key)
  }

  lemma OwnNameOutside<V>(t: Tree<V>, p: Path, q: Path)
    requires BranchAt(t, p) && |q| > |p|
    ensures !Inside(t.key, q)
  {
  }

  /** Changes below one child, and of the branch's own record, leave the other children kept. */
  lemma OthersKept<V>(d: Disk<V>, d': Disk<V>, t: Tree<V>, p: Path, i: Nibble, j: Nibble, strict: bool)
    requires BranchAt(t, p) && SameBut(d, d', p + [i], t.key) && i != j && Kept(d, t.kids[j], strict)
    ensures Kept(d', t.kids[j], strict)
  {
    hide NodeOk, Kept;
    if t.kids[j].Absent? {
      AbsentKept(d', t.kids[j], strict);
    } else {
      forall key | Inside(key, p + [j])
        ensures Unchanged(d, d', key)
      {
        if Inside(key, p + [i]) { InsideApart(key, p, i, j); }
        OwnNameOutside(t, p, p + [j]);
      }
      KeptFrame(d, d', t.kids[j], p, strict);
    }
  }

  lemma AbsentKept<V>(d: Disk<V>, t: Tree<V>, strict: bool)
    requires t.Absent?
    ensures Kept(d, t, strict)
  {
  }

  lemma BranchKept<V>(d: Disk<V>, t: Tree<V>, strict: bool)
    requires t.Branch? && (t.key in d.log || !t.modified ==> Listing(d, t, strict))
    requires !t.modified ==> At(d, t.key).value.hash == t.hash
    requires forall i | 0 <= i < |t.kids| :: Kept(d, t.kids[i], strict)
    ensures Kept(d, t, strict)
  {
  }

  lemma KeptParts<V>(d: Disk<V>, t: Tree<V>, strict: bool)
    requires t.Branch? && Kept(d, t, strict)
    ensures t.key in d.log || !t.modified ==> Listing(d, t, strict)
    ensures !t.modified ==> At(d, t.key).value.hash == t.hash
    ensures forall i | 0 <= i < |t.kids| :: Kept(d, t.kids[i], strict)
  {
  }

  // ---- insertion ----

  /** The name of the leaf for the rest `k` of a key, seen from the branch with path `p`. */
  lemma LeafName(p: Path, k: Path)
    requires k != [] && Hex(p + k) != ROOT_KEY
    ensures Inside(Hex(p + k), p + [k[0]])
  {
    var n := |p| + 1;
    assert (p + k)[..n] == p + [k[0]];
    HexPrefix(p + k, n);
  }

  ghost function Inserted<V>(d: Disk<V>, t: Tree<V>, p: Path, k: Path, v: V): Disk<V>
    requires t.Branch?
  {
    LogInsert(t, p, k, v, d).(accounts := d.accounts[Hex(p + k) := v])
  }

  lemma NewLeafKept<V>(d: Disk<V>, leaf: Tree<V>, strict: bool)
    requires leaf.Leaf? && leaf.key != ROOT_KEY && At(d, leaf.key) == Some(RecordOf(leaf))
    requires leaf.key in d.accounts && d.accounts[leaf.key] == leaf.value
    ensures Kept(d, leaf, strict)
  {
  }

  lemma LeafKept<V>(d: Disk<V>, t: Tree<V>, p: Path, k: Path, v: V, strict: bool)
    requires BranchAt(t, p) && |p| + |k| == KEY_LENGTH && k != [] && t.kids[k[0]].Absent?
    requires Hex(p + k) != ROOT_KEY && Kept(d, t, strict)
    ensures Kept(Inserted(d, t, p, k, v), InsertBranch(t, p, k, v), strict)
    ensures SameBut(d, Inserted(d, t, p, k, v), p + [k[0]], t.key)
  {
    hide Kept, NodeOk, KidsOk, Inside, ChildKeys, Hex;
    BranchSize(t, p);
    var d', r, leaf := Inserted(d, t, p, k, v), InsertBranch(t, p, k, v), NewLeaf(p, k, v);
    LeafName(p, k);
    OwnNameOutside(t, p, p + [k[0]]);
    KeptParts(d, t, strict);
    NewLeafKept(d', leaf, strict);
    forall j | 0 <= j < |t.kids|
      ensures Kept(d', r.kids[j], strict)
    {
      if j != k[0] { OthersKept(d, d', t, p, k[0], j, strict); }
    }
    BranchKept(d', r, strict);
  }

  lemma DeepKept<V>(d: Disk<V>, d': Disk<V>, t: Tree<V>, p: Path, i: Nibble, kid: Tree<V>, strict: bool)
    requires BranchAt(t, p) && Kept(d, t, strict) && SameOutside(d, d', p + [i])
    requires !t.kids[i].Absent? && !kid.Absent? && kid.key == t.kids[i].key && Kept(d', kid, strict)
    ensures Kept(d', t.(kids := t.kids[i := kid], modified := true), strict)
  {
    hide Kept, NodeOk, KidsOk, ChildKeys, Inside;
    BranchSize(t, p);
    var r := t.(kids := t.kids[i := kid], modified := true);
    OwnNameOutside(t, p, p + [i]);
    KeptParts(d, t, strict);
    SameChildKeys(t.kids, i, kid);
    assert Unchanged(d, d', t.key);
    forall name, j: nat | UnderSlot(name, t.key, j) && j < |t.kids| && t.kids[j].Absent?
      ensures Unchanged(d, d', name)
    {
      SlotBelow(t, p, name, j);
      InsideElsewhere(d, d', p, i, j);
    }
    if t.key in d'.log || !r.modified { ListingFrame(d, d', t, r, strict); }
    forall j | 0 <= j < |t.kids|
      ensures Kept(d', r.kids[j], strict)
    {
      if j != i { OthersKept(d, d', t, p, i, j, strict); }
    }
    BranchKept(d', r, strict);
  }

  lemma BranchSize<V>(t: Tree<V>, p: Path)
    requires BranchAt(t, p)
    ensures |t.kids| == CHILDREN_COUNT
  {
  }

  lemma {:induction false} SameChildKeys<V>(kids: seq<Tree<V>>, i: nat, kid: Tree<V>)
    requires i < |kids| && !kids[i].Absent? && !kid.Absent? && kid.key == kids[i].key
    ensures ChildKeys(kids[i := kid]) == ChildKeys(kids)
  {
    var n := |kids| - 1;
    if i < n {
      SameChildKeys(kids[..n], i, kid);
      assert kids[i := kid][..n] == kids[..n][i := kid];
    } else {
      assert kids[i := kid][..n] == kids[..n];
    }
  }

  /** Where a split happens: child `kid` of a branch with path `p` and key rest `k` part after `c`
      nibbles. */
  ghost predicate SplitSite<V>(kid: Tree<V>, p: Path, c: nat, k: Path)
  {
    && !kid.Absent? && NodeOk(kid, p) && |p| + |k| == KEY_LENGTH && 0 < c < |kid.sub| && c < |k|
    && kid.sub[..c] == k[..c] && kid.sub[c] != k[c] && Hex(p + k) != ROOT_KEY && kid.key != ROOT_KEY
  }

  /** The four names a split writes are different, and lie where they should. */
  lemma SplitNames<V>(kid: Tree<V>, p: Path, c: nat, k: Path)
    requires SplitSite(kid, p, c, k)
    ensures var q := p + k[..c];
      && Inside(kid.key, q + [kid.sub[c]]) && Inside(Hex(p + k), q + [k[c]])
      && Hex(q) != ROOT_KEY && |Hex(q)| == |q|
      && NodeOk(kid.(sub := kid.sub[c..]), q) && Hex(q + k[c..]) == Hex(p + k)
      && Inside(kid.key, p + [k[0]]) && Inside(Hex(p + k), p + [k[0]]) && Inside(Hex(q), p + [k[0]])
  {
    hide NodeOk, Inside, Hex;
    var q, lower := p + k[..c], kid.(sub := kid.sub[c..]);
    CutOk(kid, p, c);
    NodeInside(lower, q);
    assert q + k[c..] == p + k;
    LeafName(q, k[c..]);
    LeafName(p, k);
    NodeInside(kid, p);
    assert kid.sub[0] == kid.sub[..c][0] == k[0];
    assert |Hex(q)| < KEY_LENGTH;
    LeafName(p, k[..c]);
  }

  lemma LowerKept<V>(d: Disk<V>, kid: Tree<V>, p: Path, c: nat, k: Path, strict: bool)
    requires SplitSite(kid, p, c, k) && Kept(d, kid, strict)
    ensures Kept(Put(d, kid.(sub := kid.sub[c..])), kid.(sub := kid.sub[c..]), strict)
  {
    var lower := kid.(sub := kid.sub[c..]);
    var d' := Put(d, lower);
    if kid.Branch? {
      hide NodeOk;
      KeptParts(d, kid, strict);
      NodeParts(kid, p);
      forall i | 0 <= i < |kid.kids|
        ensures Kept(d', kid.kids[i], strict)
      {
        if !kid.kids[i].Absent? {
          assert SameInside(d, d', (p + kid.sub) + [i]);
          KeptFrame(d, d', kid.kids[i], p + kid.sub, strict);
        }
      }
      BranchKept(d', lower, strict);
    }
  }

  lemma NodeParts<V>(t: Tree<V>, p: Path)
    requires NodeOk(t, p) && t.Branch?
    ensures BranchAt(t, p + t.sub) && p + t.sub != [] && |t.key| == |p + t.sub|
  {
  }

  lemma ChildKept<V>(d: Disk<V>, d': Disk<V>, kid: Tree<V>, p: Path, c: nat, k: Path, v: V, strict: bool)
    requires SplitSite(kid, p, c, k) && Kept(d, kid, strict)
    requires var q, lower, child := p + k[..c], kid.(sub := kid.sub[c..]), Split(kid, p, c, k, v);
      && At(d', Hex(q)) == Some(RecordOf(child))
      && At(d', Hex(p + k)) == Some(RecordOf(NewLeaf(q, k[c..], v)))
      && Hex(p + k) in d'.accounts && d'.accounts[Hex(p + k)] == v
      && SameInside(Put(d, lower), d', q + [kid.sub[c]])
    ensures Kept(d', Split(kid, p, c, k, v), strict)
  {
    hide Kept, NodeOk, ChildKeys, Inside;
    var q, lower, child := p + k[..c], kid.(sub := kid.sub[c..]), Split(kid, p, c, k, v);
    var leaf := NewLeaf(q, k[c..], v);
    SplitNames(kid, p, c, k);
    LowerKept(d, kid, p, c, k, strict);
    KeptFrame(Put(d, lower), d', lower, q, strict);
    NewLeafKept(d', leaf, strict);
    forall i | 0 <= i < |child.kids|
      ensures Kept(d', child.kids[i], strict)
    {
      if child.kids[i].Absent? { AbsentKept(d', child.kids[i], strict); }
    }
    BranchKept(d', child, strict);
  }

  lemma SplitKept<V>(d: Disk<V>, t: Tree<V>, p: Path, k: Path, v: V, c: nat, strict: bool)
    requires BranchAt(t, p) && k != [] && Kept(d, t, strict) && SplitSite(t.kids[k[0]], p, c, k)
    requires c == Common(t.kids[k[0]].sub, k)
    ensures Kept(Inserted(d, t, p, k, v), InsertBranch(t, p, k, v), strict)
    ensures SameBut(d, Inserted(d, t, p, k, v), p + [k[0]], t.key)
  {
    hide Kept, NodeOk, KidsOk, Inside, ChildKeys, Hex, Common;
    BranchSize(t, p);
    var kid := t.kids[k[0]];
    var q, lower, child := p + k[..c], kid.(sub := kid.sub[c..]), Split(kid, p, c, k, v);
    var d', r, leaf := Inserted(d, t, p, k, v), InsertBranch(t, p, k, v), NewLeaf(q, k[c..], v);
    SplitResult(t, p, k, v, c);
    SplitNames(kid, p, c, k);
    OwnNameOutside(t, p, p + [k[0]]);
    KeptParts(d, t, strict);
    SplitWrites(d, t, p, k, v, c);
    ChildKept(d, d', kid, p, c, k, v, strict);
    forall j | 0 <= j < |t.kids|
      ensures Kept(d', r.kids[j], strict)
    {
      if j != k[0] { OthersKept(d, d', t, p, k[0], j, strict); }
    }
    BranchKept(d', r, strict);
  }

  /** The records after a split. */
  lemma SplitWrites<V>(d: Disk<V>, t: Tree<V>, p: Path, k: Path, v: V, c: nat)
    requires BranchAt(t, p) && k != [] && |t.kids| == CHILDREN_COUNT && SplitSite(t.kids[k[0]], p, c, k)
    requires c == Common(t.kids[k[0]].sub, k)
    ensures var kid := t.kids[k[0]];
      var q, lower, child := p + k[..c], kid.(sub := kid.sub[c..]), Split(kid, p, c, k, v);
      var d', r := Inserted(d, t, p, k, v), InsertBranch(t, p, k, v);
      && At(d', Hex(q)) == Some(RecordOf(child))
      && At(d', Hex(p + k)) == Some(RecordOf(NewLeaf(q, k[c..], v)))
      && At(d', t.key) == Some(RecordOf(r))
      && SameInside(Put(d, lower), d', q + [kid.sub[c]])
      && SameBut(d, d', p + [k[0]], t.key)
  {
    hide Kept, NodeOk, KidsOk, Inside, ChildKeys, Hex, Common, InsertBranch, LogInsert, Put, Split, SameBut,
         SameInside, At;
    var kid := t.kids[k[0]];
    var q, lower, child := p + k[..c], kid.(sub := kid.sub[c..]), Split(kid, p, c, k, v);
    var d', r, leaf := Inserted(d, t, p, k, v), InsertBranch(t, p, k, v), NewLeaf(q, k[c..], v);
    SplitNames(kid, p, c, k);
    OwnNameOutside(t, p, p + [k[0]]);
    SplitResult(t, p, k, v, c);
    SplitLog(d, t, p, k, v, c);
    OwnNameOutside(t, p, q + [kid.sub[c]]);
    ShortOutside(Hex(q), q + [kid.sub[c]]);
    ShortOutside(Hex(q), q + [k[c]]);
    if Inside(Hex(p + k), q + [kid.sub[c]]) { InsideApart(Hex(p + k), q, k[c], kid.sub[c]); }
    ThreePuts(Put(d, lower), d', child, r, leaf, q + [kid.sub[c]], v);
    FourPuts(d, d', lower, child, r, leaf, p + [k[0]], v);
  }

  lemma SplitLog<V>(d: Disk<V>, t: Tree<V>, p: Path, k: Path, v: V, c: nat)
    requires t.Branch? && k != [] && |t.kids| == CHILDREN_COUNT && !t.kids[k[0]].Absent?
    requires c == Common(t.kids[k[0]].sub, k) && c < |t.kids[k[0]].sub| && c < |k|
    ensures var kid := t.kids[k[0]];
      var lower, child := kid.(sub := kid.sub[c..]), Split(kid, p, c, k, v);
      var r, leaf := InsertBranch(t, p, k, v), NewLeaf(p + k[..c], k[c..], v);
      && child.Branch? && child.key == Hex(p + k[..c])
      && LogInsert(t, p, k, v, d) == Put(Put(Put(Put(d, lower), child), r), leaf)
  {
    hide Common, InsertBranch, Put;
  }

  /** Three records of different names, of which none is reached over `q`. */
  lemma ThreePuts<V>(d: Disk<V>, d': Disk<V>, a: Tree<V>, b: Tree<V>, leaf: Tree<V>, q: Path, v: V)
    requires !a.Absent? && !b.Absent? && !leaf.Absent?
    requires d' == Put(Put(Put(d, a), b), leaf).(accounts := d.accounts[leaf.key := v])
    requires a.key != b.key && a.key != leaf.key && b.key != leaf.key
    ensures At(d', a.key) == Some(RecordOf(a)) && At(d', b.key) == Some(RecordOf(b))
      && At(d', leaf.key) == Some(RecordOf(leaf))
    ensures !Inside(a.key, q) && !Inside(b.key, q) && !Inside(leaf.key, q) ==> SameInside(d, d', q)
  {
    hide Inside, RecordOf;
  }

  /** Four records, of which only that of `own` is not reached over `q`. */
  lemma FourPuts<V>(d: Disk<V>, d': Disk<V>, lower: Tree<V>, a: Tree<V>, own: Tree<V>, leaf: Tree<V>, q: Path, v: V)
    requires !lower.Absent? && !a.Absent? && !own.Absent? && !leaf.Absent?
    requires d' == Put(Put(Put(Put(d, lower), a), own), leaf).(accounts := d.accounts[leaf.key := v])
    requires Inside(lower.key, q) && Inside(a.key, q) && Inside(leaf.key, q)
    ensures SameBut(d, d', q, own.key)
  {
    hide Inside, RecordOf;
  }

  lemma ShortOutside(key: string, q: Path)
    requires |key| < |q|
    ensures !Inside(key, q)
  {
  }

  lemma SplitResult<V>(t: Tree<V>, p: Path, k: Path, v: V, c: nat)
    requires t.Branch? && k != [] && |t.kids| == CHILDREN_COUNT && !t.kids[k[0]].Absent?
    requires c == Common(t.kids[k[0]].sub, k) && c < |t.kids[k[0]].sub| && c < |k|
    ensures InsertBranch(t, p, k, v) == t.(kids := t.kids[k[0] := Split(t.kids[k[0]], p, c, k, v)], modified := true)
  {
    hide Common, Split;
  }

  lemma DeepResult<V>(t: Tree<V>, p: Path, k: Path, v: V, c: nat, d: Disk<V>)
    requires t.Branch? && k != [] && |t.kids| == CHILDREN_COUNT && t.kids[k[0]].Branch?
    requires c == Common(t.kids[k[0]].sub, k) == |t.kids[k[0]].sub| < |k|
    ensures var kid := t.kids[k[0]];
      && InsertBranch(t, p, k, v) == t.(kids := t.kids[k[0] := InsertBranch(kid, p + kid.sub, k[c..], v)],
        modified := true)
      && LogInsert(t, p, k, v, d) == LogInsert(kid, p + kid.sub, k[c..], v, d)
  {
    hide Common, Split;
  }

  /** Inserting an absent, nonzero key: what the log and the account store then hold describes the
      new trie. */
  lemma {:induction false} InsertKept<V>(d: Disk<V>, t: Tree<V>, p: Path, k: Path, v: V, strict: bool)
    requires BranchAt(t, p) && |p| + |k| == KEY_LENGTH && k != [] && LookupKids(t.kids, k) == None
    requires Hex(p + k) != ROOT_KEY && Kept(d, t, strict)
    ensures Kept(Inserted(d, t, p, k, v), InsertBranch(t, p, k, v), strict)
    ensures SameBut(d, Inserted(d, t, p, k, v), p + [k[0]], t.key)
    decreases t
  {
    hide Kept, NodeOk, KidsOk, Inside, ChildKeys, Hex, Common, InsertBranch, LookupKids, LogInsert, BranchAt, SameBut;
    BranchSize(t, p);
    BranchIs(t, p);
    KeptParts(d, t, strict);
    var kid := t.kids[k[0]];
    if kid.Absent? {
      LeafKept(d, t, p, k, v, strict);
    } else {
      var c := Common(kid.sub, k);
      NodeHere(t, p, k, c);
      assert Kept(d, kid, strict);
      KeptName(d, kid, p, strict);
      if c < |kid.sub| {
        SplitKept(d, t, p, k, v, c, strict);
      } else {
        var q := p + kid.sub;
        NodeParts(kid, p);
        DeepResult(t, p, k, v, c, d);
        assert q + k[c..] == p + k;
        InsertKept(d, kid, q, k[c..], v, strict);
        var d' := Inserted(d, t, p, k, v);
        DeepOutside(d, d', p, kid.sub, k[c], kid.key);
        InsertNames(kid, q, k[c..], v);
        DeepKept(d, d', t, p, k[0], InsertBranch(kid, q, k[c..], v), strict);
        OutsideIsBut(d, d', p + [k[0]], t.key);
      }
    }
  }

  lemma BranchIs<V>(t: Tree<V>, p: Path)
    requires BranchAt(t, p)
    ensures t.Branch?
  {
  }

  lemma InsertNames<V>(t: Tree<V>, p: Path, k: Path, v: V)
    requires t.Branch?
    ensures InsertBranch(t, p, k, v).Branch? && InsertBranch(t, p, k, v).key == t.key
  {
  }

  /** The child on the way to an absent key: the key parts from it, or goes on below it. */
  lemma NodeHere<V>(t: Tree<V>, p: Path, k: Path, c: nat)
    requires BranchAt(t, p) && |t.kids| == CHILDREN_COUNT && |p| + |k| == KEY_LENGTH && k != []
    requires !t.kids[k[0]].Absent? && c == Common(t.kids[k[0]].sub, k) && LookupKids(t.kids, k) == None
    ensures var kid := t.kids[k[0]];
      && NodeOk(kid, p) && kid.sub != [] && kid.sub[0] == k[0] && 0 < c < |k|
      && (c < |kid.sub| ==> kid.sub[..c] == k[..c] && kid.sub[c] != k[c])
      && (c == |kid.sub| ==> kid.Branch? && kid.sub == k[..c] && LookupKids(kid.kids, k[c..]) == None)
  {
    var kid := t.kids[k[0]];
    assert kid.sub == kid.sub[..|kid.sub|] && k == k[..|k|];
  }

  lemma KeptName<V>(d: Disk<V>, t: Tree<V>, p: Path, strict: bool)
    requires Kept(d, t, strict) && NodeOk(t, p)
    ensures t.key != ROOT_KEY && Inside(t.key, p + [t.sub[0]])
  {
    if t.Branch? { ShortName(t, p); }
    NodeInside(t, p);
  }

  lemma DeepOutside<V>(d: Disk<V>, d': Disk<V>, p: Path, s: Path, i: Nibble, own: string)
    requires s != [] && SameBut(d, d', (p + s) + [i], own) && Inside(own, p + [s[0]])
    ensures SameOutside(d, d', p + [s[0]])
  {
    forall key | !Inside(key, p + [s[0]])
      ensures Unchanged(d, d', key)
    {
      if Inside(key, (p + s) + [i]) {
        InsideIsBelow(key, p + s, i);
        BelowIsInside(key, p, s);
      }
    }
  }

  lemma OutsideIsBut<V>(d: Disk<V>, d': Disk<V>, q: Path, own: string)
    requires SameOutside(d, d', q)
    ensures SameBut(d, d', q, own)
  {
  }

  // ---- in-place update ----

  /** The child on the way to a key that is present. */
  lemma NodeThere<V>(t: Tree<V>, p: Path, k: Path)
    requires BranchAt(t, p) && |t.kids| == CHILDREN_COUNT && |p| + |k| == KEY_LENGTH && k != []
    requires LookupKids(t.kids, k).Some?
    ensures var kid := t.kids[k[0]];
      && !kid.Absent? && NodeOk(kid, p) && kid.sub != [] && kid.sub[0] == k[0]
      && (kid.Leaf? ==> kid.sub == k && kid.key == Hex(p + k))
      && (kid.Branch? ==> |kid.sub| < |k| && kid.sub == k[..|kid.sub|] && LookupKids(kid.kids, k[|kid.sub|..]).Some?)
  {
  }

  lemma UpdateResult<V>(t: Tree<V>, k: Path, v: V)
    requires t.Branch? && k != [] && |t.kids| == CHILDREN_COUNT && !t.kids[k[0]].Absent?
    requires t.kids[k[0]].Branch? ==> |t.kids[k[0]].sub| < |k|
    ensures var kid := t.kids[k[0]];
      UpdateBranch(t, k, v) ==
        t.(kids := t.kids[k[0] := if kid.Leaf? then kid.(value := v) else UpdateBranch(kid, k[|kid.sub|..], v)],
          modified := true)
  {
  }

  lemma UpdateNames<V>(t: Tree<V>, k: Path, v: V)
    requires t.Branch?
    ensures UpdateBranch(t, k, v).key == t.key
  {
  }

  lemma LeafUpdated<V>(d: Disk<V>, t: Tree<V>, v: V, strict: bool)
    requires t.Leaf? && Kept(d, t, strict)
    ensures Kept(d.(accounts := d.accounts[t.key := v]), t.(value := v), strict)
  {
  }

  /** Writing through the pointer of `search_and_mark` changes no record, only the account. */
  lemma {:induction false} UpdateKept<V>(d: Disk<V>, t: Tree<V>, p: Path, k: Path, v: V, strict: bool)
    requires BranchAt(t, p) && |p| + |k| == KEY_LENGTH && k != [] && LookupKids(t.kids, k).Some?
    requires Hex(p + k) != ROOT_KEY && Kept(d, t, strict)
    ensures Kept(d.(accounts := d.accounts[Hex(p + k) := v]), UpdateBranch(t, k, v), strict)
    decreases t
  {
    hide Kept, NodeOk, KidsOk, Inside, ChildKeys, Hex, UpdateBranch, LookupKids, BranchAt;
    BranchIs(t, p);
    BranchSize(t, p);
    KeptParts(d, t, strict);
    NodeThere(t, p, k);
    UpdateResult(t, k, v);
    LeafName(p, k);
    var kid, d' := t.kids[k[0]], d.(accounts := d.accounts[Hex(p + k) := v]);
    if kid.Leaf? {
      LeafUpdated(d, kid, v, strict);
      DeepKept(d, d', t, p, k[0], kid.(value := v), strict);
    } else {
      var c := |kid.sub|;
      assert (p + kid.sub) + k[c..] == p + k;
      NodeParts(kid, p);
      UpdateKept(d, kid, p + kid.sub, k[c..], v, strict);
      UpdateNames(kid, k[c..], v);
      DeepKept(d, d', t, p, k[0], UpdateBranch(kid, k[c..], v), strict);
    }
  }

  // ---- erase ----

  /** Erasing the leaf for `k` leaves its parent `t` with one child, which takes its place. */
  predicate Merges<V>(t: Tree<V>, k: Path)
    requires t.Branch?
  {
    k != [] && k[0] < |t.kids| && t.kids[k[0]].Leaf? && Count(t.kids[k[0] := Absent]) == 1
  }

  /** Erasing logs that the leaf is gone. A root that loses the leaf is logged; a parent that is merged
      away is logged as gone, with its last child and the branch above them; any other parent is not
      logged. */
  function LogErase<V>(t: Tree<V>, k: Path, isRoot: bool, d: Disk<V>): Disk<V>
    requires t.Branch?
  {
    if k == [] || k[0] >= |t.kids| then d
    else
      var kid := t.kids[k[0]];
      match kid
      case Absent => d
      case Leaf(_, _, _, _, _) =>
        var gone := Delete(d, kid);
        if isRoot then Put(gone, EraseBranch(t, k, true))
        else if Merges(t, k) then
          var brother := EraseBranch(t, k, false);
          if brother.Absent? then gone else Put(Delete(gone, t), brother)
        else gone
      case Branch(_, sub, _, _, _) =>
        if |sub| >= |k| then d
        else
          var below := LogErase(kid, k[|sub|..], false, d);
          if Merges(kid, k[|sub|..]) then Put(below, EraseBranch(t, k, true)) else below
  }

  /** The branch that holds the leaf for `k`. */
  function Parent<V>(t: Tree<V>, k: Path): (u: Tree<V>)
    requires t.Branch?
    ensures u.Branch?
  {
    if k == [] || k[0] >= |t.kids| then t
    else
      var kid := t.kids[k[0]];
      if kid.Branch? && |kid.sub| < |k| then Parent(kid, k[|kid.sub|..]) else t
  }

  /** The parent of the leaf is the root, or is merged away, or has no entry in the log. */
  predicate Erasable<V>(d: Disk<V>, t: Tree<V>, k: Path)
    requires t.Branch?
  {
    var u := Parent(t, k);
    u.key == ROOT_KEY || Count(u.kids) == 2 || u.key !in d.log
  }

  lemma {:induction false} FewerChildKeys<V>(kids: seq<Tree<V>>)
    ensures |ChildKeys(kids)| == Count(kids)
  {
    if kids != [] { FewerChildKeys(kids[..|kids| - 1]); }
  }

  lemma LeafIsParent<V>(d: Disk<V>, t: Tree<V>, p: Path, k: Path)
    requires BranchAt(t, p) && k != [] && |t.kids| == CHILDREN_COUNT && t.kids[k[0]].Leaf?
    ensures Parent(t, k) == t && (t.key == ROOT_KEY <==> p == [])
    ensures Merges(t, k) <==> Count(t.kids) == 2
    ensures |ChildKeys(t.kids[k[0] := Absent])| == |ChildKeys(t.kids)| - 1
  {
    CountUpdate(t.kids, k[0], Absent);
    FewerChildKeys(t.kids);
    FewerChildKeys(t.kids[k[0] := Absent]);
  }

  /** The leaf leaves a branch that stays. */
  lemma EraseLeafKept<V>(d: Disk<V>, t: Tree<V>, p: Path, k: Path, strict: bool)
    requires BranchAt(t, p) && k != [] && |t.kids| == CHILDREN_COUNT && t.kids[k[0]].Leaf? && Kept(d, t, strict)
    requires p == [] || !Merges(t, k)
    ensures Kept(LogErase(t, k, p == [], d), EraseBranch(t, k, p == []), strict) <==> !strict || Erasable(d, t, k)
    ensures SameBut(d, LogErase(t, k, p == [], d), p + [k[0]], t.key)
  {
    hide Kept, NodeOk, KidsOk, ChildKeys, Inside, Merges, Count;
    var kid := t.kids[k[0]];
    LeafIsParent(d, t, p, k);
    KeptParts(d, t, strict);
    KidIs(t, p, k[0]);
    KeptName(d, kid, p, strict);
    OwnNameOutside(t, p, p + [k[0]]);
    var d', r := LogErase(t, k, p == [], d), t.(kids := t.kids[k[0] := Absent], modified := true);
    EraseStays(t, k, p == []);
    forall j | 0 <= j < |t.kids|
      ensures Kept(d', r.kids[j], strict)
    {
      if j == k[0] { AbsentKept(d', r.kids[j], strict); } else { OthersKept(d, d', t, p, k[0], j, strict); }
    }
    if Erasable(d, t, k) {
      BranchKept(d', r, strict);
    } else {
      assert Unchanged(d, d', t.key);
      if strict {
        if Kept(d', r, strict) { KeptParts(d', r, strict); }
      } else {
        TornByErasing(d, t, p, k);
        BranchKept(d', r, strict);
      }
    }
  }

  /** The leaf goes and the record stays: the record lists an erased child. */
  lemma TornByErasing<V>(d: Disk<V>, t: Tree<V>, p: Path, k: Path)
    requires BranchAt(t, p) && p != [] && k != [] && |t.kids| == CHILDREN_COUNT && t.kids[k[0]].Leaf?
    requires t.key in d.log && Listing(d, t, false) && Inside(t.kids[k[0]].key, p + [k[0]])
    ensures var r := t.(kids := t.kids[k[0] := Absent], modified := true);
      Listing(Delete(d, t.kids[k[0]]), r, false)
  {
    hide NodeOk, KidsOk, ChildKeys;
    var kid, values := t.kids[k[0]], At(d, t.key).value.values;
    var d', r := Delete(d, kid), t.(kids := t.kids[k[0] := Absent], modified := true);
    InsideIsBelow(kid.key, p, k[0]);
    if values == ChildKeys(t.kids) {
      ListsKid(t.kids, k[0]);
      assert Tears(d', r, values, kid.key, k[0]);
    } else {
      var gone, j: nat :| Tears(d, t, values, gone, j);
      assert Tears(d', r, values, gone, j);
    }
  }

  lemma KidIs<V>(t: Tree<V>, p: Path, i: Nibble)
    requires BranchAt(t, p) && |t.kids| == CHILDREN_COUNT && !t.kids[i].Absent?
    ensures NodeOk(t.kids[i], p) && t.kids[i].sub != [] && t.kids[i].sub[0] == i
  {
  }

  lemma EraseStays<V>(t: Tree<V>, k: Path, isRoot: bool)
    requires t.Branch? && k != [] && k[0] < |t.kids| && t.kids[k[0]].Leaf? && (isRoot || !Merges(t, k))
    ensures EraseBranch(t, k, isRoot) == t.(kids := t.kids[k[0] := Absent], modified := true)
  {
  }

  lemma EraseDeeper<V>(t: Tree<V>, k: Path, isRoot: bool, d: Disk<V>)
    requires t.Branch? && k != [] && k[0] < |t.kids| && t.kids[k[0]].Branch? && |t.kids[k[0]].sub| < |k|
    ensures var kid := t.kids[k[0]];
      var rest := k[|kid.sub|..];
      var below, r := LogErase(kid, rest, false, d),
        t.(kids := t.kids[k[0] := EraseBranch(kid, rest, false)], modified := true);
      && EraseBranch(t, k, isRoot) == r && Parent(t, k) == Parent(kid, rest) && !Merges(t, k)
      && LogErase(t, k, isRoot, d) == if Merges(kid, rest) then Put(below, r) else below
  {
  }

  /** Where a branch is merged away: child `t` of a branch with path `p` keeps one child besides the
      leaf for `k`. */
  ghost predicate MergeSite<V>(t: Tree<V>, p: Path, k: Path)
  {
    t.Branch? && NodeOk(t, p) && Merges(t, k)
  }

  /** What a merge logs: the leaf and its parent as gone, and the last child in its new place. */
  lemma MergeLog<V>(t: Tree<V>, p: Path, k: Path, d: Disk<V>)
    requires MergeSite(t, p, k)
    ensures var rest := t.kids[k[0] := Absent];
      var brother := Merge(t, rest);
      && First(rest) < |rest| && First(rest) != k[0] && !rest[First(rest)].Absent? && !brother.Absent?
      && NodeOk(brother, p) && brother.sub[0] == t.sub[0] && EraseBranch(t, k, false) == brother
      && brother == rest[First(rest)].(sub := t.sub + rest[First(rest)].sub, modified := true)
      && LogErase(t, k, false, d) == Put(Delete(Delete(d, t.kids[k[0]]), t), brother)
      && Parent(t, k) == t && Count(t.kids) == 2
  {
    var rest := t.kids[k[0] := Absent];
    CountOne(rest);
    MergeOk(t, p, rest);
    CountUpdate(t.kids, k[0], Absent);
  }

  /** The names a merge writes are different and lie below the branch above it. */
  lemma MergeNames<V>(d: Disk<V>, t: Tree<V>, p: Path, k: Path, f: nat, strict: bool)
    requires MergeSite(t, p, k) && Kept(d, t, strict) && f < |t.kids| && !t.kids[f].Absent? && k != [] && f != k[0]
    ensures |t.kids| == CHILDREN_COUNT
    ensures var q, last, leaf := p + t.sub, t.kids[f], t.kids[k[0]];
      && !leaf.Absent? && NodeOk(last, q) && Kept(d, last, strict) && last.key != leaf.key && last.key != t.key
        && leaf.key != t.key
      && !Below(leaf.key, q + last.sub) && !Below(t.key, q + last.sub) && !Below(last.key, q + last.sub)
      && Inside(last.key, p + [t.sub[0]]) && Inside(leaf.key, p + [t.sub[0]]) && Inside(t.key, p + [t.sub[0]])
  {
    hide Kept, NodeOk, KidsOk, ChildKeys, Inside, Below, Merges;
    MergeLeaf(t, k);
    NodeParts(t, p);
    var q := p + t.sub;
    var last, leaf := t.kids[f], t.kids[k[0]];
    KeptParts(d, t, strict);
    BranchSize(t, q);
    KidIs(t, q, f);
    KidIs(t, q, k[0]);
    KeptName(d, last, q, strict);
    KeptName(d, leaf, q, strict);
    KeptName(d, t, p, strict);
    InsideIsBelow(last.key, q, f);
    InsideIsBelow(leaf.key, q, k[0]);
    BelowIsInside(last.key, p, t.sub);
    BelowIsInside(leaf.key, p, t.sub);
    if last.key == leaf.key { InsideApart(leaf.key, q, f, k[0]); }
    if Below(leaf.key, q + last.sub) {
      BelowIsInside(leaf.key, q, last.sub);
      InsideApart(leaf.key, q, f, k[0]);
    }
    LongerName(t.key, last.key, q, last.sub);
    NodeInside(last, q);
    NodeInside(t, p);
  }

  lemma LongerName(own: string, key: string, p: Path, s: Path)
    requires |own| == |p|
    ensures !Below(own, p + s) && (Below(key, p) ==> key != own)
    ensures |key| == |p| + |s| ==> !Below(key, p + s)
  {
  }

  lemma MergedKept<V>(d: Disk<V>, t: Tree<V>, p: Path, k: Path, strict: bool)
    requires MergeSite(t, p, k) && Kept(d, t, strict)
    ensures Kept(LogErase(t, k, false, d), EraseBranch(t, k, false), strict)
    ensures SameOutside(d, LogErase(t, k, false, d), p + [t.sub[0]])
  {
    hide Kept, NodeOk, KidsOk, ChildKeys, Inside, Below, Merges, Count, EraseBranch, LogErase, Merge, First;
    MergeLeaf(t, k);
    MergeLog(t, p, k, d);
    var q, f := p + t.sub, First(t.kids[k[0] := Absent]);
    MergeNames(d, t, p, k, f, strict);
    MovedKept(d, LogErase(t, k, false, d), t.kids[f], q, t.sub + t.kids[f].sub, strict);
  }

  lemma MergeLeaf<V>(t: Tree<V>, k: Path)
    requires t.Branch? && Merges(t, k)
    ensures k != [] && k[0] < |t.kids| && t.kids[k[0]].Leaf?
  {
  }

  /** A node logged with a new prefix in place of the old one. */
  lemma MovedKept<V>(d: Disk<V>, d': Disk<V>, t: Tree<V>, p: Path, sub: Path, strict: bool)
    requires NodeOk(t, p) && Kept(d, t, strict) && At(d', t.key) == Some(RecordOf(t.(sub := sub, modified := true)))
    requires t.key in d'.log && d'.accounts == d.accounts
    requires forall key | Below(key, p + t.sub) :: Unchanged(d, d', key)
    ensures Kept(d', t.(sub := sub, modified := true), strict)
  {
    var r := t.(sub := sub, modified := true);
    if t.Branch? {
      hide NodeOk, Kept, ChildKeys;
      NodeParts(t, p);
      KeptParts(d, t, strict);
      forall i | 0 <= i < |t.kids|
        ensures Kept(d', t.kids[i], strict)
      {
        if t.kids[i].Absent? {
          AbsentKept(d', t.kids[i], strict);
        } else {
          KidIs(t, p + t.sub, i);
          forall key | Inside(key, (p + t.sub) + [i])
            ensures Unchanged(d, d', key)
          {
            InsideIsBelow(key, p + t.sub, i);
          }
          KeptFrame(d, d', t.kids[i], p + t.sub, strict);
        }
      }
      BranchKept(d', r, strict);
    }
  }

  /** The branch above a merge. */
  lemma AboveMergeKept<V>(d: Disk<V>, t: Tree<V>, p: Path, k: Path, strict: bool)
    requires BranchAt(t, p) && k != [] && |t.kids| == CHILDREN_COUNT && Kept(d, t, strict) && t.kids[k[0]].Branch?
    requires |t.kids[k[0]].sub| < |k| && Merges(t.kids[k[0]], k[|t.kids[k[0]].sub|..])
    ensures Kept(LogErase(t, k, p == [], d), EraseBranch(t, k, p == []), strict)
    ensures SameBut(d, LogErase(t, k, p == [], d), p + [k[0]], t.key)
  {
    hide Kept, NodeOk, KidsOk, ChildKeys, Inside, Merges, Count, EraseBranch, LogErase;
    var kid := t.kids[k[0]];
    var rest := k[|kid.sub|..];
    KidIs(t, p, k[0]);
    KeptParts(d, t, strict);
    EraseDeeper(t, k, p == [], d);
    MergeLog(kid, p, rest, d);
    MergedKept(d, kid, p, rest, strict);
    var d1, d', r := LogErase(kid, rest, false, d), LogErase(t, k, p == [], d), EraseBranch(t, k, p == []);
    OwnNameOutside(t, p, p + [k[0]]);
    assert d' == Put(d1, r);
    forall j | 0 <= j < |t.kids|
      ensures Kept(d', r.kids[j], strict)
    {
      if j == k[0] { KeptFrame(d1, d', r.kids[j], p, strict); } else { OthersKept(d, d', t, p, k[0], j, strict); }
    }
    BranchKept(d', r, strict);
  }

  lemma KidKept<V>(d: Disk<V>, t: Tree<V>, i: nat, strict: bool)
    requires t.Branch? && Kept(d, t, strict) && i < |t.kids|
    ensures Kept(d, t.kids[i], strict)
  {
  }

  lemma EraseNames<V>(t: Tree<V>, k: Path, isRoot: bool)
    requires t.Branch? && (isRoot || !Merges(t, k))
    ensures var r := EraseBranch(t, k, isRoot); r.Branch? && r.key == t.key && r.sub == t.sub
  {
  }

  /** Erasing a present key leaves a described trie exactly if the parent of its leaf is the root, or
      is merged away, or has no entry in the log. Otherwise the log keeps the parent's old children. */
  lemma {:induction false} EraseKept<V>(d: Disk<V>, t: Tree<V>, p: Path, k: Path, strict: bool)
    requires BranchAt(t, p) && |p| + |k| == KEY_LENGTH && k != [] && LookupKids(t.kids, k).Some? && Kept(d, t, strict)
    requires p == [] || !Merges(t, k)
    ensures Kept(LogErase(t, k, p == [], d), EraseBranch(t, k, p == []), strict) <==> !strict || Erasable(d, t, k)
    ensures SameBut(d, LogErase(t, k, p == [], d), p + [k[0]], t.key)
    decreases t
  {
    hide Kept, NodeOk, KidsOk, ChildKeys, Inside, Merges, Count, EraseBranch, LogErase, LookupKids, BranchAt, SameBut,
         Parent;
    BranchIs(t, p);
    BranchSize(t, p);
    KeptParts(d, t, strict);
    NodeThere(t, p, k);
    var kid := t.kids[k[0]];
    if kid.Leaf? {
      EraseLeafKept(d, t, p, k, strict);
    } else {
      var q, rest := p + kid.sub, k[|kid.sub|..];
      EraseDeeper(t, k, p == [], d);
      if Merges(kid, rest) {
        MergeLog(kid, p, rest, d);
        AboveMergeKept(d, t, p, k, strict);
      } else {
        NodeParts(kid, p);
        EraseKept(d, kid, q, rest, strict);
        var d', r := LogErase(t, k, p == [], d), EraseBranch(t, k, p == []);
        KeptName(d, kid, p, strict);
        DeepOutside(d, d', p, kid.sub, rest[0], kid.key);
        EraseNames(kid, rest, false);
        if Kept(d', EraseBranch(kid, rest, false), strict) {
          DeepKept(d, d', t, p, k[0], EraseBranch(kid, rest, false), strict);
        } else if Kept(d', r, strict) {
          KidKept(d', r, k[0], strict);
        }
        OutsideIsBut(d, d', p + [k[0]], t.key);
      }
    }
  }

  // ---- hashing ----

  lemma LogLeafKept<V>(d: Disk<V>, hs: Hashing<V>, t: Tree<V>, p: Path, strict: bool)
    requires t.Leaf? && NodeOk(t, p) && Kept(d, t, strict)
    ensures var d' := LogHash(hs, t, d);
      && Kept(d', RehashKid(hs, t), strict)
      && SameOutside(d, d', p + [t.sub[0]])
  {
    NodeInside(t, p);
  }

  lemma {:induction false} RehashChildKeys<V>(hs: Hashing<V>, kids: seq<Tree<V>>)
    ensures ChildKeys(RehashKids(hs, kids)) == ChildKeys(kids)
  {
    if kids != [] {
      var n := |kids| - 1;
      RehashChildKeys(hs, kids[..n]);
      assert RehashKids(hs, kids)[..n] == RehashKids(hs, kids[..n]);
      RehashName(hs, kids[n]);
    }
  }

  lemma RehashName<V>(hs: Hashing<V>, t: Tree<V>)
    ensures !t.Absent? ==> RehashKid(hs, t).key == t.key && RehashKid(hs, t).sub == t.sub
  {
  }

  /** Only names below a branch have changed. */
  ghost predicate SameAbove<V>(d: Disk<V>, d': Disk<V>, p: Path)
  {
    forall key | !Below(key, p) :: Unchanged(d, d', key)
  }

  /** The children of a table of which the first `n` are hashed. */
  function Partly<V>(hs: Hashing<V>, kids: seq<Tree<V>>, n: nat, i: nat): Tree<V>
    requires i < |kids|
  {
    if i < n then RehashKid(hs, kids[i]) else kids[i]
  }

  lemma PartlyOk<V>(hs: Hashing<V>, kids: seq<Tree<V>>, p: Path, n: nat, i: nat)
    requires KidsOk(kids, p) && i < |kids| && !kids[i].Absent?
    ensures var kid := Partly(hs, kids, n, i); !kid.Absent? && NodeOk(kid, p) && kid.sub[0] == i
  {
    RehashShape(hs, kids[i]);
    SameOk(kids[i], RehashKid(hs, kids[i]), p);
  }

  lemma {:induction false} HashKept<V>(d: Disk<V>, hs: Hashing<V>, t: Tree<V>, p: Path, strict: bool)
    requires NodeOk(t, p) && Kept(d, t, strict)
    ensures var d' := LogHash(hs, t, d);
      && Kept(d', RehashKid(hs, t), strict)
      && SameOutside(d, d', p + [t.sub[0]])
    decreases t, 1
  {
    if t.Leaf? {
      LogLeafKept(d, hs, t, p, strict);
    } else {
      var d' := LogHash(hs, t, d);
      NodeParts(t, p);
      HashBranchKept(d, hs, t, p + t.sub, strict);
      KeptName(d, t, p, strict);
      forall key | !Inside(key, p + [t.sub[0]])
        ensures Unchanged(d, d', key)
      {
        if Below(key, p + t.sub) { BelowIsInside(key, p, t.sub); }
      }
    }
  }

  lemma {:induction false} HashBranchKept<V>(d: Disk<V>, hs: Hashing<V>, t: Tree<V>, p: Path, strict: bool)
    requires BranchAt(t, p) && Kept(d, t, strict)
    ensures var d' := LogHash(hs, t, d);
      && Kept(d', RehashBranch(hs, t), strict)
      && forall key | !Below(key, p) && key != t.key :: Unchanged(d, d', key)
    decreases t, 0
  {
    hide Kept, NodeOk, Below, ChildKeys, RehashKids, CachedSum, LogHashKids;
    if t.modified {
      KeptParts(d, t, strict);
      var n := |t.kids|;
      HashKidsKept(d, hs, t.kids, p, n, strict);
      assert t.kids[..n] == t.kids;
      RehashChildKeys(hs, t.kids);
      var d1 := LogHashKids(hs, t.kids, d);
      forall i | 0 <= i < n
        ensures Kept(d1, RehashKid(hs, t.kids[i]), strict)
      {
        assert Partly(hs, t.kids, n, i) == RehashKid(hs, t.kids[i]);
      }
      HashKidsGrow(hs, t.kids, d);
      TopKept(d, d1, hs, t, p, strict);
    }
  }

  /** Logging the branch itself, once its children are done. */
  lemma TopKept<V>(d: Disk<V>, d1: Disk<V>, hs: Hashing<V>, t: Tree<V>, p: Path, strict: bool)
    requires BranchAt(t, p) && t.modified && SameAbove(d, d1, p)
    requires (t.key in d.log ==> Listing(d, t, strict)) && Grows(d, d1)
    requires ChildKeys(RehashKids(hs, t.kids)) == ChildKeys(t.kids)
    requires forall i | 0 <= i < |t.kids| :: Kept(d1, RehashKid(hs, t.kids[i]), strict)
    ensures var d' := LogTop(d1, RehashBranch(hs, t));
      && Kept(d', RehashBranch(hs, t), strict)
      && forall key | !Below(key, p) && key != t.key :: Unchanged(d, d', key)
  {
    hide Kept, NodeOk, ChildKeys, RehashKids, CachedSum, Hex;
    BranchSize(t, p);
    var top := RehashBranch(hs, t);
    var d' := LogTop(d1, top);
    OwnNameAbove(t, p);
    assert Unchanged(d, d1, t.key);
    forall i | 0 <= i < |t.kids|
      ensures Kept(d', top.kids[i], strict)
    {
      if t.kids[i].Absent? {
        AbsentKept(d', top.kids[i], strict);
      } else {
        OwnNameOutside(t, p, p + [i]);
        PartlyOk(hs, t.kids, p, |t.kids|, i);
        assert SameInside(d1, d', p + [i]);
        KeptFrame(d1, d', top.kids[i], p, strict);
      }
    }
    if t.key in d.log { RefreshedListing(d, d1, t, top, strict); }
    BranchKept(d', top, strict);
  }

  lemma RefreshedListing<V>(d: Disk<V>, d1: Disk<V>, t: Tree<V>, top: Tree<V>, strict: bool)
    requires t.Branch? && top.Branch? && t.key == top.key && t.sub == top.sub
      && ChildKeys(top.kids) == ChildKeys(t.kids)
    requires |top.kids| == |t.kids| && forall j | 0 <= j < |t.kids| :: t.kids[j].Absent? ==> top.kids[j].Absent?
    requires t.key in d.log && Listing(d, t, strict) && Grows(d, d1) && Unchanged(d, d1, t.key)
    ensures Listing(LogTop(d1, top), top, strict)
  {
    hide ChildKeys, UnderSlot;
    var d', values := LogTop(d1, top), At(d, t.key).value.values;
    if values != ChildKeys(t.kids) {
      var gone, j: nat :| Tears(d, t, values, gone, j);
      assert SameEntry(d.log[gone], d1.log[gone]);
      assert Tears(d', top, values, gone, j);
    }
  }

  lemma OwnNameAbove<V>(t: Tree<V>, p: Path)
    requires BranchAt(t, p)
    ensures !Below(t.key, p)
  {
  }

  lemma {:induction false} HashKidsKept<V>(d: Disk<V>, hs: Hashing<V>, kids: seq<Tree<V>>, p: Path, n: nat,
      strict: bool)
    requires KidsOk(kids, p) && n <= |kids| && forall i | 0 <= i < |kids| :: Kept(d, kids[i], strict)
    ensures var d' := LogHashKids(hs, kids[..n], d);
      && (forall i | 0 <= i < |kids| :: Kept(d', Partly(hs, kids, n, i), strict))
      && SameAbove(d, d', p)
    decreases kids, 0, n
  {
    hide Kept, NodeOk, LogHash, RehashKid, Inside, Below;
    if n > 0 {
      var m := n - 1;
      HashKidsKept(d, hs, kids, p, m, strict);
      var d1, d' := LogHashKids(hs, kids[..m], d), LogHashKids(hs, kids[..n], d);
      assert kids[..n][..m] == kids[..m] && d' == LogHash(hs, kids[m], d1);
      assert Kept(d1, Partly(hs, kids, m, m), strict);
      if kids[m].Absent? {
        AbsentHash(hs, kids[m], d1);
        forall i | 0 <= i < |kids|
          ensures Kept(d', Partly(hs, kids, n, i), strict)
        {
          assert Partly(hs, kids, n, i) == Partly(hs, kids, m, i);
        }
      } else {
        HashKept(d1, hs, kids[m], p, strict);
        KidHashed(d1, d', hs, kids, p, m, n, strict);
        AboveGrows(d, d1, d', p, m);
      }
    }
  }

  lemma AbsentHash<V>(hs: Hashing<V>, t: Tree<V>, d: Disk<V>)
    requires t.Absent?
    ensures LogHash(hs, t, d) == d && RehashKid(hs, t) == t
  {
  }

  lemma KidHashed<V>(d: Disk<V>, d': Disk<V>, hs: Hashing<V>, kids: seq<Tree<V>>, p: Path, m: nat, n: nat, strict: bool)
    requires KidsOk(kids, p) && m < |kids| && n == m + 1 && !kids[m].Absent?
    requires forall i | 0 <= i < |kids| :: Kept(d, Partly(hs, kids, m, i), strict)
    requires Kept(d', RehashKid(hs, kids[m]), strict)
    requires SameOutside(d, d', p + [kids[m].sub[0]])
    ensures forall i | 0 <= i < |kids| :: Kept(d', Partly(hs, kids, n, i), strict)
  {
    hide Kept, NodeOk, RehashKid, Inside;
    forall i | 0 <= i < |kids|
      ensures Kept(d', Partly(hs, kids, n, i), strict)
    {
      if i != m {
        var kid := Partly(hs, kids, m, i);
        assert Kept(d, kid, strict);
        if kids[i].Absent? {
          AbsentHash(hs, kids[i], d);
          AbsentKept(d', kid, strict);
        } else {
          PartlyOk(hs, kids, p, m, i);
          InsideElsewhere(d, d', p, m, i);
          KeptFrame(d, d', kid, p, strict);
        }
      }
    }
  }

  lemma AboveGrows<V>(d: Disk<V>, d1: Disk<V>, d': Disk<V>, p: Path, i: Nibble)
    requires SameAbove(d, d1, p) && SameOutside(d1, d', p + [i])
    ensures SameAbove(d, d', p)
  {
    forall key | !Below(key, p)
      ensures Unchanged(d, d', key)
    {
      if Inside(key, p + [i]) { InsideIsBelow(key, p, i); }
    }
  }

  // ---- loading ----

  /** The slot a hex digit stands for; anything else stands for slot 0. */
  function IndexBy16(c: char): Nibble
  {
    if '0' <= c <= '9' then c as int - '0' as int
    else if 'a' <= c <= 'f' then c as int - 'a' as int + 10
    else if 'A' <= c <= 'F' then c as int - 'A' as int + 10
    else 0
  }

  /** Digits are lower case, and each reads back as its slot. */
  lemma DigitIndex(n: Nibble)
    ensures IndexBy16(HexDigit(n)) == n
    ensures HexDigit(n) == if n < 10 then '0' + n as char else 'a' + (n - 10) as char
  {
  }

  /** What the stores hold once the log is written to them. */
  function Saved<V>(d: Disk<V>): Disk<V>
  {
    Disk(map key | key in d.store.Keys + d.log.Keys && At(d, key).Some? :: At(d, key).value, map[], d.accounts)
  }

  lemma SavedAt<V>(d: Disk<V>, key: string)
    ensures At(Saved(d), key) == At(d, key)
  {
  }

  /** Writing the log out changes nothing for a trie with nothing marked. */
  lemma {:induction false} SavedKept<V>(d: Disk<V>, t: Tree<V>)
    requires Kept(d, t, true) && Clean(t)
    ensures Kept(Saved(d), t, true)
  {
    if !t.Absent? { SavedAt(d, t.key); }
    if t.Branch? {
      forall i | 0 <= i < |t.kids|
        ensures Kept(Saved(d), t.kids[i], true)
      {
        assert Clean(t.kids[i]);
        SavedKept(d, t.kids[i]);
      }
    }
  }

  /** A node by its name: names of full length are leaves and need their account. None where the
      code throws, and for records that do not form a tree. */
  function LoadNode<V>(d: Disk<V>, key: string): Option<Tree<V>>
    decreases if |key| < KEY_LENGTH then KEY_LENGTH - |key| else 0, 2, 0
  {
    if At(d, key).None? then None
    else
      var r := At(d, key).value;
      if |key| >= KEY_LENGTH then
        if key in d.accounts then Some(Leaf(r.key, r.sub, d.accounts[key], r.hash, false)) else None
      else
        var depth := |r.key| % KEY_LENGTH;
        if depth < |key| then None else LoadBranch(d, r, depth)
  }

  function LoadBranch<V>(d: Disk<V>, r: Record, depth: nat): Option<Tree<V>>
    requires depth < KEY_LENGTH
    decreases KEY_LENGTH - depth, 1, 0
  {
    var kids := LoadKids(d, r.values, depth);
    if kids.None? then None else Some(Branch(r.key, r.sub, kids.value, r.hash, false))
  }

  /** Each child goes into the slot its name gives at the depth of the branch. */
  function LoadKids<V>(d: Disk<V>, values: seq<string>, depth: nat): (r: Option<seq<Tree<V>>>)
    requires depth < KEY_LENGTH
    ensures r.Some? ==> |r.value| == CHILDREN_COUNT
    decreases KEY_LENGTH - depth, 0, |values|
  {
    if values == [] then Some(NoKids<V>())
    else
      var before := LoadKids(d, values[..|values| - 1], depth);
      var son := values[|values| - 1];
      if before.None? || |son| <= depth then None
      else
        var t := LoadNode(d, son);
        if t.None? then None else Some(before.value[IndexBy16(son[depth]) := t.value])
  }

  function LoadRoot<V>(d: Disk<V>): Option<Tree<V>>
  {
    var r := At(d, ROOT_KEY);
    if r.None? then None else LoadBranch(d, r.value, |r.value.key| % KEY_LENGTH)
  }

  /** What loading gives: the same trie with nothing marked; only leaf hashes may be outdated. */
  ghost predicate LoadedAs<V>(t: Tree<V>, u: Tree<V>)
  {
    match t
    case Absent => u.Absent?
    case Leaf(key, sub, value, _, _) => u.Leaf? && u.key == key && u.sub == sub && u.value == value
    case Branch(key, sub, kids, hash, _) =>
      && u.Branch? && u.key == key && u.sub == sub && u.hash == hash && !u.modified && |u.kids| == |kids|
      && forall i | 0 <= i < |kids| :: LoadedAs(kids[i], u.kids[i])
  }

  lemma {:induction false} LoadNodeOk<V>(d: Disk<V>, t: Tree<V>, p: Path)
    requires NodeOk(t, p) && Kept(d, t, true) && Clean(t)
    ensures LoadNode(d, t.key).Some? && LoadedAs(t, LoadNode(d, t.key).value)
    decreases t, 1
  {
    if t.Branch? {
      NodeParts(t, p);
      LoadBranchOk(d, t, p + t.sub);
    }
  }

  lemma {:induction false} LoadBranchOk<V>(d: Disk<V>, t: Tree<V>, p: Path)
    requires BranchAt(t, p) && Kept(d, t, true) && Clean(t)
    ensures At(d, t.key).Some? && At(d, t.key).value.key == t.key && |t.key| % KEY_LENGTH == |p|
    ensures var r := LoadBranch(d, At(d, t.key).value, |p|); r.Some? && LoadedAs(t, r.value)
    decreases t, 0
  {
    hide NodeOk, LoadKids, ChildKeys;
    KeptParts(d, t, true);
    assert forall i | 0 <= i < |t.kids| :: Clean(t.kids[i]);
    LoadKidsOk(d, t.kids, p, |t.kids|);
    assert t.kids[..|t.kids|] == t.kids;
  }

  /** The first `n` slots are loaded, the others still empty. */
  ghost predicate LoadedPart<V>(kids: seq<Tree<V>>, loaded: seq<Tree<V>>, n: nat)
  {
    && |kids| == |loaded|
    && forall i | 0 <= i < |kids| :: if i < n then LoadedAs(kids[i], loaded[i]) else loaded[i].Absent?
  }

  lemma {:induction false} LoadKidsOk<V>(d: Disk<V>, kids: seq<Tree<V>>, p: Path, n: nat)
    requires KidsOk(kids, p) && n <= |kids| && |p| < KEY_LENGTH
    requires forall i | 0 <= i < |kids| :: Kept(d, kids[i], true) && Clean(kids[i])
    ensures var r := LoadKids(d, ChildKeys(kids[..n]), |p|); r.Some? && LoadedPart(kids, r.value, n)
    decreases kids, 0, n
  {
    hide NodeOk, Kept, Clean, LoadNode, LoadKids, ChildKeys, LoadedAs, LoadedPart, HexDigit, IndexBy16;
    if n == 0 {
      LoadNothing(d, kids, |p|);
    } else {
      var m := n - 1;
      LoadKidsOk(d, kids, p, m);
      ChildKeysStep(kids, n);
      var values := ChildKeys(kids[..m]);
      if kids[m].Absent? {
        assert values + [] == values;
        PartGrows(kids, LoadKids(d, values, |p|).value, m, n, kids[m]);
      } else {
        LoadNodeOk(d, kids[m], p);
        NameDigit(d, kids[m], p, true);
        DigitIndex(m);
        LoadKidsStep(d, values, kids[m].key, |p|);
        PartGrows(kids, LoadKids(d, values, |p|).value, m, n, LoadNode(d, kids[m].key).value);
      }
    }
  }

  lemma LoadNothing<V>(d: Disk<V>, kids: seq<Tree<V>>, depth: nat)
    requires depth < KEY_LENGTH && |kids| == CHILDREN_COUNT
    ensures var r := LoadKids(d, ChildKeys(kids[..0]), depth); r.Some? && LoadedPart(kids, r.value, 0)
  {
  }

  lemma ChildKeysStep<V>(kids: seq<Tree<V>>, n: nat)
    requires 0 < n <= |kids|
    ensures ChildKeys(kids[..n]) == ChildKeys(kids[..n - 1]) + if kids[n - 1].Absent? then [] else [kids[n - 1].key]
  {
    assert kids[..n][..n - 1] == kids[..n - 1];
  }

  lemma LoadKidsStep<V>(d: Disk<V>, values: seq<string>, son: string, depth: nat)
    requires depth < KEY_LENGTH && depth < |son| && LoadKids(d, values, depth).Some? && LoadNode(d, son).Some?
    ensures LoadKids(d, values + [son], depth) ==
      Some(LoadKids(d, values, depth).value[IndexBy16(son[depth]) := LoadNode(d, son).value])
  {
    assert (values + [son])[..|values|] == values;
  }

  lemma PartGrows<V>(kids: seq<Tree<V>>, loaded: seq<Tree<V>>, m: nat, n: nat, t: Tree<V>)
    requires LoadedPart(kids, loaded, m) && n == m + 1 <= |kids|
    ensures kids[m].Absent? ==> LoadedPart(kids, loaded, n)
    ensures LoadedAs(kids[m], t) ==> LoadedPart(kids, loaded[m := t], n)
  {
  }

  lemma NameDigit<V>(d: Disk<V>, t: Tree<V>, p: Path, strict: bool)
    requires NodeOk(t, p) && Kept(d, t, strict)
    ensures |p| < |t.key| && t.key[|p|] == HexDigit(t.sub[0])
  {
    KeptName(d, t, p, strict);
    InsideIsBelow(t.key, p, t.sub[0]);
  }

  lemma {:induction false} LoadedShape<V>(t: Tree<V>, u: Tree<V>)
    requires LoadedAs(t, u)
    ensures SameShape(t, u)
  {
    if t.Branch? {
      forall i | 0 <= i < |t.kids|
        ensures SameShape(t.kids[i], u.kids[i])
      {
        LoadedShape(t.kids[i], u.kids[i]);
      }
    }
  }

  lemma {:induction false} LoadedCoherent<V>(hs: Hashing<V>, t: Tree<V>, u: Tree<V>)
    requires LoadedAs(t, u) && Coherent(hs, t) && Clean(t)
    ensures Coherent(hs, u)
  {
    if t.Branch? {
      LoadedShape(t, u);
      SameHash(hs, t, u);
      forall i | 0 <= i < |t.kids|
        ensures Coherent(hs, u.kids[i]) && (u.kids[i].Branch? ==> !u.kids[i].modified)
      {
        assert LoadedAs(t.kids[i], u.kids[i]);
        LoadedCoherent(hs, t.kids[i], u.kids[i]);
      }
    }
  }

  // ---- hashing only adds to the log ----

  /** A logged deletion stays one, and a logged record keeps everything but its hash. */
  ghost predicate SameEntry(a: Option<Record>, b: Option<Record>)
  {
    if a.None? then b.None? else b.Some? && b.value == a.value.(hash := b.value.hash)
  }

  ghost predicate Grows<V>(d: Disk<V>, d': Disk<V>)
  {
    forall key | key in d.log :: key in d'.log && SameEntry(d.log[key], d'.log[key])
  }

  lemma {:induction false} HashGrows<V>(hs: Hashing<V>, t: Tree<V>, d: Disk<V>)
    ensures Grows(d, LogHash(hs, t, d))
    decreases t, 1
  {
    hide RehashKids, CachedSum, LogHashKids, LogTop;
    if t.Branch? && t.modified {
      var d1 := LogHashKids(hs, t.kids, d);
      HashKidsGrow(hs, t.kids, d);
      TopGrows(d1, RehashBranch(hs, t));
      GrowsOn(d, d1, LogHash(hs, t, d));
    }
  }

  lemma {:induction false} HashKidsGrow<V>(hs: Hashing<V>, kids: seq<Tree<V>>, d: Disk<V>)
    ensures Grows(d, LogHashKids(hs, kids, d))
    decreases kids, 0
  {
    hide LogHash, Grows;
    if kids == [] {
      SameGrows(d);
    } else {
      var n := |kids| - 1;
      var d1 := LogHashKids(hs, kids[..n], d);
      HashKidsGrow(hs, kids[..n], d);
      HashGrows(hs, kids[n], d1);
      GrowsOn(d, d1, LogHash(hs, kids[n], d1));
    }
  }

  lemma SameGrows<V>(d: Disk<V>)
    ensures Grows(d, d)
  {
  }

  lemma GrowsOn<V>(d: Disk<V>, d1: Disk<V>, d2: Disk<V>)
    requires Grows(d, d1) && Grows(d1, d2)
    ensures Grows(d, d2)
  {
  }

  lemma TopGrows<V>(d: Disk<V>, top: Tree<V>)
    requires top.Branch?
    ensures Grows(d, LogTop(d, top)) && top.key in LogTop(d, top).log
  {
  }

  // ---- a record that lists an erased leaf ----

  lemma {:induction false} ListsKid<V>(kids: seq<Tree<V>>, i: nat)
    requires i < |kids| && !kids[i].Absent?
    ensures kids[i].key in ChildKeys(kids)
  {
    if i < |kids| - 1 { ListsKid(kids[..|kids| - 1], i); }
  }

  /** A described trie has no leaf with the zero address. */
  lemma {:induction false} PresentName<V>(d: Disk<V>, t: Tree<V>, p: Path, k: Path, strict: bool)
    requires BranchAt(t, p) && |p| + |k| == KEY_LENGTH && LookupKids(t.kids, k).Some? && Kept(d, t, strict)
    ensures k != [] && Hex(p + k) != ROOT_KEY
    decreases t
  {
    hide Kept, NodeOk, KidsOk, LookupKids, Hex;
    BranchSize(t, p);
    KeyGoesOn(t, k);
    NodeThere(t, p, k);
    KidKept(d, t, k[0], strict);
    var kid := t.kids[k[0]];
    if kid.Leaf? {
      KeptName(d, kid, p, strict);
    } else {
      NodeParts(kid, p);
      assert (p + kid.sub) + k[|kid.sub|..] == p + k;
      PresentName(d, kid, p + kid.sub, k[|kid.sub|..], strict);
    }
  }

  lemma KeyGoesOn<V>(t: Tree<V>, k: Path)
    requires t.Branch? && LookupKids(t.kids, k).Some?
    ensures k != []
  {
  }

  lemma {:induction false} StrictIsMore<V>(d: Disk<V>, t: Tree<V>)
    requires Kept(d, t, true)
    ensures Kept(d, t, false)
  {
    if t.Branch? {
      forall i | 0 <= i < |t.kids|
        ensures Kept(d, t.kids[i], false)
      {
        StrictIsMore(d, t.kids[i]);
      }
    }
  }

  /** Every branch with an entry in the log has its present children listed there. */
  ghost predicate AllListed<V>(d: Disk<V>, t: Tree<V>)
  {
    t.Branch? ==>
      && (t.key in d.log && d.log[t.key].Some? ==> d.log[t.key].value.values == ChildKeys(t.kids))
      && forall i | 0 <= i < |t.kids| :: AllListed(d, t.kids[i])
  }

  lemma {:induction false} StrictIsListed<V>(d: Disk<V>, t: Tree<V>)
    requires Kept(d, t, false)
    ensures Kept(d, t, true) <==> AllListed(d, t)
  {
    hide ChildKeys, Torn;
    if t.Branch? {
      forall i | 0 <= i < |t.kids|
        ensures Kept(d, t.kids[i], true) <==> AllListed(d, t.kids[i])
      {
        StrictIsListed(d, t.kids[i]);
      }
    }
  }

  /** Hashing does not repair a record. */
  lemma {:induction false} Unrepaired<V>(d: Disk<V>, d': Disk<V>, t: Tree<V>, t': Tree<V>)
    requires Grows(d, d') && SameShape(t, t') && Kept(d, t, false) && Kept(d', t', true)
    ensures Kept(d, t, true)
  {
    hide ChildKeys, Torn;
    if t.Branch? {
      SameShapeKeys(t.kids, t'.kids);
      forall i | 0 <= i < |t.kids|
        ensures Kept(d, t.kids[i], true)
      {
        assert SameShape(t.kids[i], t'.kids[i]);
        Unrepaired(d, d', t.kids[i], t'.kids[i]);
      }
      if t.key in d.log { assert SameEntry(d.log[t.key], d'.log[t.key]); }
    }
  }

  lemma {:induction false} SameShapeKeys<V>(kids: seq<Tree<V>>, kids': seq<Tree<V>>)
    requires |kids| == |kids'| && forall i | 0 <= i < |kids| :: SameShape(kids[i], kids'[i])
    ensures ChildKeys(kids) == ChildKeys(kids')
  {
    if kids != [] {
      var n := |kids| - 1;
      SameShapeKeys(kids[..n], kids'[..n]);
      assert SameShape(kids[n], kids'[n]);
    }
  }

  // ---- loading fails at such a record ----

  lemma {:induction false} LoadKidsFails<V>(d: Disk<V>, values: seq<string>, depth: nat, son: string)
    requires depth < KEY_LENGTH && son in values && LoadNode(d, son).None?
    ensures LoadKids(d, values, depth).None?
  {
    if values[|values| - 1] != son {
      var i :| 0 <= i < |values| && values[i] == son;
      assert values[..|values| - 1][i] == son;
      LoadKidsFails(d, values[..|values| - 1], depth, son);
    }
  }

  lemma {:induction false} LoadFails<V>(d: Disk<V>, t: Tree<V>, p: Path)
    requires BranchAt(t, p) && Kept(d, t, false) && Clean(t) && !Kept(d, t, true)
    ensures var r := At(Saved(d), t.key);
      r.Some? && r.value.key == t.key && |t.key| % KEY_LENGTH == |p| && LoadBranch(Saved(d), r.value, |p|).None?
    decreases t, 0
  {
    hide NodeOk, Saved, Kept, ChildKeys, LoadKids, Hex;
    BranchSize(t, p);
    SavedAt(d, t.key);
    KeptParts(d, t, false);
    BranchDepth(t, p);
    var values := At(d, t.key).value.values;
    if values != ChildKeys(t.kids) {
      var gone, j: nat :| Tears(d, t, values, gone, j);
      SavedAt(d, gone);
      LoadKidsFails(Saved(d), values, |p|, gone);
    } else {
      var i := BrokenKid(d, t);
      KidIs(t, p, i);
      ListsKid(t.kids, i);
      BrokenLoad(d, t.kids[i], p);
      LoadKidsFails(Saved(d), values, |p|, t.kids[i].key);
    }
  }

  lemma BranchDepth<V>(t: Tree<V>, p: Path)
    requires BranchAt(t, p)
    ensures |t.key| % KEY_LENGTH == |p| && |p| < KEY_LENGTH
  {
  }

  /** A right record above something that is not. */
  lemma BrokenKid<V>(d: Disk<V>, t: Tree<V>) returns (i: nat)
    requires t.Branch? && Kept(d, t, false) && !Kept(d, t, true) && Clean(t)
    requires At(d, t.key).Some? && At(d, t.key).value.values == ChildKeys(t.kids)
    ensures i < |t.kids| && t.kids[i].Branch? && Kept(d, t.kids[i], false) && !Kept(d, t.kids[i], true)
      && Clean(t.kids[i])
  {
    hide ChildKeys, Torn;
    i :| 0 <= i < |t.kids| && !Kept(d, t.kids[i], true);
    assert Kept(d, t.kids[i], false) && Clean(t.kids[i]);
  }

  lemma {:induction false} BrokenLoad<V>(d: Disk<V>, t: Tree<V>, p: Path)
    requires NodeOk(t, p) && t.Branch? && Kept(d, t, false) && Clean(t) && !Kept(d, t, true)
    ensures LoadNode(Saved(d), t.key).None?
    decreases t, 1
  {
    hide Kept, Saved, LoadBranch, Hex;
    NodeParts(t, p);
    LoadFails(d, t, p + t.sub);
  }

  // ---- whole runs ----

  /** A session: the trie in memory, with the stores and the log. */
  datatype Session<V> = Session(trie: Tree<V>, disk: Disk<V>)

  function Act<V>(hs: Hashing<V>, s: Session<V>, op: Op<V>): (r: Session<V>)
    requires s.trie.Branch?
    ensures r.trie.Branch?
  {
    var t, d := Step(hs, s.trie, op), s.disk;
    match op
    case InsertOp(k, v) =>
      if Lookup(s.trie, k).Some? then s
      else Session(t, LogInsert(s.trie, [], k, v, d).(accounts := d.accounts[Hex(k) := v]))
    case UpdateOp(k, v) =>
      if Lookup(s.trie, k).Some? then Session(t, d.(accounts := d.accounts[Hex(k) := v])) else s
    case EraseOp(k) => if Lookup(s.trie, k).Some? then Session(t, LogErase(s.trie, k, true, d)) else s
    case HashOp => Session(t, LogHash(hs, s.trie, d))
  }

  function ActAll<V>(hs: Hashing<V>, s: Session<V>, ops: seq<Op<V>>): (r: Session<V>)
    requires s.trie.Branch?
    ensures r.trie.Branch?
  {
    if ops == [] then s else Act(hs, ActAll(hs, s, ops[..|ops| - 1]), ops[|ops| - 1])
  }

  /** Operations the log records rightly. The zero address has the name of the root, so it must not be
      inserted; a present key must be erasable. */
  predicate Recorded<V>(s: Session<V>, op: Op<V>)
    requires s.trie.Branch?
  {
    match op
    case InsertOp(k, _) => Hex(k) != ROOT_KEY
    case UpdateOp(_, _) => true
    case EraseOp(k) => Lookup(s.trie, k).None? || Erasable(s.disk, s.trie, k)
    case HashOp => true
  }

  ghost predicate AllRecorded<V>(hs: Hashing<V>, s: Session<V>, ops: seq<Op<V>>)
    requires s.trie.Branch?
  {
    forall i | 0 <= i < |ops| :: Recorded(ActAll(hs, s, ops[..i]), ops[i])
  }

  ghost predicate Sound<V>(hs: Hashing<V>, s: Session<V>)
  {
    Invariant(hs, s.trie) && Kept(s.disk, s.trie, true)
  }

  lemma SoundBranch<V>(hs: Hashing<V>, s: Session<V>)
    requires Sound(hs, s)
    ensures s.trie.Branch? && BranchAt(s.trie, [])
  {
  }

  /** What holds after every run that does not insert the zero address: only erased children may still
      be listed. */
  ghost predicate Rough<V>(hs: Hashing<V>, s: Session<V>)
  {
    Invariant(hs, s.trie) && Kept(s.disk, s.trie, false)
  }

  predicate NotZero<V>(op: Op<V>)
  {
    op.InsertOp? ==> Hex(op.k) != ROOT_KEY
  }

  lemma ActKept<V>(hs: Hashing<V>, s: Session<V>, op: Op<V>, strict: bool)
    requires Invariant(hs, s.trie) && Kept(s.disk, s.trie, strict) && s.trie.Branch? && NotZero(op)
    ensures Invariant(hs, Act(hs, s, op).trie)
    ensures !strict || Recorded(s, op) ==> Kept(Act(hs, s, op).disk, Act(hs, s, op).trie, strict)
    ensures strict && !Recorded(s, op) ==> !Kept(Act(hs, s, op).disk, Act(hs, s, op).trie, strict)
  {
    hide Kept, KidsOk, Coherent, LogInsert, LogHash, LogErase, InsertBranch, UpdateBranch, EraseBranch, RehashBranch,
         LookupKids, Hex, Erasable;
    StepKeepsShape(hs, s.trie, op);
    StepKeepsCoherence(hs, s.trie, op);
    RootIsBranch(s.trie);
    match op
    case InsertOp(k, v) =>
      if Lookup(s.trie, k).None? {
        assert [] + k == k;
        InsertKept(s.disk, s.trie, [], k, v, strict);
      }
    case UpdateOp(k, v) =>
      if Lookup(s.trie, k).Some? {
        assert [] + k == k;
        PresentName(s.disk, s.trie, [], k, strict);
        UpdateKept(s.disk, s.trie, [], k, v, strict);
      }
    case EraseOp(k) => if Lookup(s.trie, k).Some? { EraseKept(s.disk, s.trie, [], k, strict); }
    case HashOp => HashBranchKept(s.disk, hs, s.trie, [], strict);
  }

  lemma ActSound<V>(hs: Hashing<V>, s: Session<V>, op: Op<V>)
    requires Sound(hs, s) && s.trie.Branch? && Recorded(s, op)
    ensures Sound(hs, Act(hs, s, op))
  {
    hide Kept, Act, Invariant, Erasable, Hex;
    ActKept(hs, s, op, true);
  }

  lemma {:induction false} ActAllRough<V>(hs: Hashing<V>, s: Session<V>, ops: seq<Op<V>>)
    requires Rough(hs, s) && s.trie.Branch? && forall i | 0 <= i < |ops| :: NotZero(ops[i])
    ensures Rough(hs, ActAll(hs, s, ops))
  {
    hide Kept, Act, Invariant, NotZero, Recorded;
    if ops != [] {
      ActAllRough(hs, s, ops[..|ops| - 1]);
      ActKept(hs, ActAll(hs, s, ops[..|ops| - 1]), ops[|ops| - 1], false);
    }
  }

  lemma {:induction false} ActAllSound<V>(hs: Hashing<V>, s: Session<V>, ops: seq<Op<V>>)
    requires Sound(hs, s) && s.trie.Branch? && AllRecorded(hs, s, ops)
    ensures Sound(hs, ActAll(hs, s, ops))
  {
    hide Sound, Recorded, Act;
    if ops != [] {
      var n := |ops| - 1;
      forall i | 0 <= i < n
        ensures Recorded(ActAll(hs, s, ops[..n][..i]), ops[..n][i])
      {
        assert ops[..n][..i] == ops[..i];
      }
      ActAllSound(hs, s, ops[..n]);
      ActSound(hs, ActAll(hs, s, ops[..n]), ops[n]);
    }
  }

  /** What `get_change_store` returns is written to the store; the trie is then loaded anew. */
  function Reload<V>(hs: Hashing<V>, s: Session<V>): Option<Tree<V>>
    requires s.trie.Branch?
  {
    LoadRoot(Saved(Act(hs, s, HashOp).disk))
  }

  /** Loading gives back the map and the root hash of the session's trie. */
  ghost predicate ComesBack<V>(hs: Hashing<V>, s: Session<V>)
    requires s.trie.Branch?
  {
    var u := Reload(hs, s);
    && u.Some? && u.value.Branch? && u.value.hash == FullHash(hs, s.trie)
    && forall k: Key :: Lookup(u.value, k) == Lookup(s.trie, k)
  }

  /** A session whose stores describe its trie comes back. Once the log is written, the stores describe
      both the trie in memory and the one that is loaded. */
  lemma SoundComesBack<V>(hs: Hashing<V>, s: Session<V>)
    requires Sound(hs, s)
    ensures s.trie.Branch? && ComesBack(hs, s)
    ensures var done := Act(hs, s, HashOp);
      Sound(hs, done.(disk := Saved(done.disk))) && Sound(hs, Session(Reload(hs, s).value, Saved(done.disk)))
  {
    hide Kept, KidsOk, Coherent, LogHash, LoadBranch, RehashBranch, Act, Hex, LoadedAs, Saved;
    SoundBranch(hs, s);
    ActSound(hs, s, HashOp);
    var done := Act(hs, s, HashOp);
    HashStep(hs, s);
    GetHashCorrect(hs, s.trie);
    var d := Saved(done.disk);
    SavedKept(done.disk, done.trie);
    SoundBranch(hs, done);
    LoadBranchOk(d, done.trie, []);
    var u := LoadRoot(d).value;
    LoadedFacts(hs, s.trie, done.trie, u);
    LoadedKept(d, done.trie, u);
  }

  /** Persist and reload: after any recorded run of insertions, marked updates, erasures and hashing,
      writing the change log and the accounts and loading gives a trie with the same map and the same
      root hash, which the stores again describe. */
  lemma PersistAndReload<V>(hs: Hashing<V>, s0: Session<V>, ops: seq<Op<V>>)
    requires Sound(hs, s0) && s0.trie.Branch? && AllRecorded(hs, s0, ops)
    ensures var s := ActAll(hs, s0, ops);
      && ComesBack(hs, s)
      && Sound(hs, Session(Reload(hs, s).value, Saved(Act(hs, s, HashOp).disk)))
  {
    ActAllSound(hs, s0, ops);
    SoundComesBack(hs, ActAll(hs, s0, ops));
  }

  /** Which operations that is: a described trie comes back after one more operation exactly if the
      operation is recorded. */
  lemma RecordedExact<V>(hs: Hashing<V>, s: Session<V>, op: Op<V>)
    requires Sound(hs, s) && s.trie.Branch?
    ensures ComesBack(hs, Act(hs, s, op)) <==> Recorded(s, op)
  {
    hide Sound, ComesBack, Act, Erasable, Hex;
    if Recorded(s, op) {
      ActSound(hs, s, op);
      SoundComesBack(hs, Act(hs, s, op));
    } else if op.InsertOp? {
      ZeroAddressEmpties(hs, s, op.k, op.v);
      EmptyIsNotBack(hs, s, op.k, op.v);
    } else {
      EraseLosesTrie(hs, s, op.k);
      LostIsNotBack(hs, Act(hs, s, op));
    }
  }

  lemma LostIsNotBack<V>(hs: Hashing<V>, s: Session<V>)
    requires s.trie.Branch? && Reload(hs, s).None?
    ensures !ComesBack(hs, s)
  {
  }

  /** If a record lists an erased child, nothing can be loaded. */
  lemma RoughIsLost<V>(hs: Hashing<V>, s: Session<V>)
    requires Rough(hs, s) && s.trie.Branch? && !Kept(s.disk, s.trie, true)
    ensures Reload(hs, s).None?
  {
    hide Kept, KidsOk, Coherent, LogHash, LoadBranch, RehashBranch, Act, Hex, Saved, Grows;
    RootIsBranch(s.trie);
    ActKept(hs, s, HashOp, false);
    HashStep(hs, s);
    GetHashCorrect(hs, s.trie);
    var done := Act(hs, s, HashOp);
    HashGrows(hs, s.trie, s.disk);
    if Kept(done.disk, done.trie, true) { Unrepaired(s.disk, done.disk, s.trie, done.trie); }
    RootIsBranch(done.trie);
    LoadFails(done.disk, done.trie, []);
  }

  /** After every run, whatever it erases, the trie comes back if and only if no branch with an entry in
      the log has an erased child listed there. */
  lemma ReloadExact<V>(hs: Hashing<V>, s0: Session<V>, ops: seq<Op<V>>)
    requires Sound(hs, s0) && s0.trie.Branch? && forall i | 0 <= i < |ops| :: NotZero(ops[i])
    ensures var s := ActAll(hs, s0, ops);
      && (ComesBack(hs, s) <==> AllListed(s.disk, s.trie))
      && (Reload(hs, s).None? <==> !AllListed(s.disk, s.trie))
  {
    hide Kept, Act, ActAll, Invariant, NotZero, ComesBack, Reload, AllListed;
    StrictIsMore(s0.disk, s0.trie);
    ActAllRough(hs, s0, ops);
    var s := ActAll(hs, s0, ops);
    StrictIsListed(s.disk, s.trie);
    if Kept(s.disk, s.trie, true) {
      SoundComesBack(hs, s);
      BackIsLoaded(hs, s);
    } else {
      RoughIsLost(hs, s);
      LostIsNotBack(hs, s);
    }
  }

  lemma BackIsLoaded<V>(hs: Hashing<V>, s: Session<V>)
    requires s.trie.Branch? && ComesBack(hs, s)
    ensures Reload(hs, s).Some?
  {
  }

  /** After an erasure that is not recorded nothing can be loaded: the parent's record still lists the
      leaf. */
  lemma EraseLosesTrie<V>(hs: Hashing<V>, s: Session<V>, k: Key)
    requires Sound(hs, s) && s.trie.Branch? && Lookup(s.trie, k).Some? && !Erasable(s.disk, s.trie, k)
    ensures Reload(hs, Act(hs, s, EraseOp(k))).None?
  {
    hide Kept, Act, Invariant, Reload, Erasable;
    StrictIsMore(s.disk, s.trie);
    ActKept(hs, s, EraseOp(k), true);
    ActKept(hs, s, EraseOp(k), false);
    RoughIsLost(hs, Act(hs, s, EraseOp(k)));
  }

  lemma RootIsBranch<V>(t: Tree<V>)
    requires RootOk(t)
    ensures BranchAt(t, [])
  {
  }

  /** The leaf of the zero address takes the root's record. */
  lemma {:induction false} ZeroTakesRoot<V>(t: Tree<V>, p: Path, k: Path, v: V, d: Disk<V>)
    requires BranchAt(t, p) && |p| + |k| == KEY_LENGTH && k != [] && LookupKids(t.kids, k) == None
    requires Hex(p + k) == ROOT_KEY
    ensures var log := LogInsert(t, p, k, v, d).log;
      ROOT_KEY in log && log[ROOT_KEY].Some? && log[ROOT_KEY].value.key == ROOT_KEY && log[ROOT_KEY].value.values == []
    decreases t
  {
    hide NodeOk, KidsOk, Hex, Common, InsertBranch, LookupKids, Split, ChildKeys;
    BranchSize(t, p);
    var kid := t.kids[k[0]];
    if !kid.Absent? {
      var c := Common(kid.sub, k);
      NodeHere(t, p, k, c);
      assert (p + k[..c]) + k[c..] == p + k;
      if c == |kid.sub| {
        NodeParts(kid, p);
        ZeroTakesRoot(kid, p + kid.sub, k[c..], v, d);
      }
    }
  }

  /** Inserting the zero address: an empty trie is loaded. */
  lemma ZeroAddressEmpties<V>(hs: Hashing<V>, s: Session<V>, k: Key, v: V)
    requires Sound(hs, s) && s.trie.Branch? && Hex(k) == ROOT_KEY
    ensures Lookup(s.trie, k).None?
    ensures var u := Reload(hs, Act(hs, s, InsertOp(k, v))); u.Some? && u.value.Branch? && u.value.kids == NoKids<V>()
  {
    hide Kept, KidsOk, Coherent, LogHash, LogInsert, InsertBranch, RehashBranch, LookupKids, Hex, Grows;
    SoundBranch(hs, s);
    assert [] + k == k;
    if Lookup(s.trie, k).Some? { PresentName(s.disk, s.trie, [], k, true); }
    StepKeepsShape(hs, s.trie, InsertOp(k, v));
    var s' := Act(hs, s, InsertOp(k, v));
    ZeroTakesRoot(s.trie, [], k, v, s.disk);
    HashStep(hs, s');
    RootIsBranch(s'.trie);
    HashGrows(hs, s'.trie, s'.disk);
    RootRecord(s'.disk, LogHash(hs, s'.trie, s'.disk));
  }

  lemma RootRecord<V>(d: Disk<V>, d': Disk<V>)
    requires Grows(d, d') && ROOT_KEY in d.log && d.log[ROOT_KEY].Some?
    requires d.log[ROOT_KEY].value.key == ROOT_KEY && d.log[ROOT_KEY].value.values == []
    ensures var u := LoadRoot(Saved(d')); u.Some? && u.value.Branch? && u.value.kids == NoKids<V>()
  {
    SavedAt(d', ROOT_KEY);
    var r := At(Saved(d'), ROOT_KEY).value;
    assert r.key == ROOT_KEY && r.values == [] && |ROOT_KEY| % KEY_LENGTH == 0;
    assert LoadKids(Saved(d'), [], 0) == Some(NoKids<V>());
  }

  lemma EmptyIsNotBack<V>(hs: Hashing<V>, s: Session<V>, k: Key, v: V)
    requires Sound(hs, s) && s.trie.Branch? && Lookup(s.trie, k).None?
    requires var u := Reload(hs, Act(hs, s, InsertOp(k, v))); u.Some? && u.value.Branch? && u.value.kids == NoKids<V>()
    ensures !ComesBack(hs, Act(hs, s, InsertOp(k, v)))
  {
    hide Kept, KidsOk, Coherent, InsertBranch, Reload;
    SoundBranch(hs, s);
    InsertBranchLookup(s.trie, [], k, v, k);
    assert Lookup(Act(hs, s, InsertOp(k, v)).trie, k) == Some(v);
    assert Lookup(Reload(hs, Act(hs, s, InsertOp(k, v))).value, k) == LookupKids(NoKids<V>(), k) == None;
  }

  lemma HashStep<V>(hs: Hashing<V>, s: Session<V>)
    requires s.trie.Branch?
    ensures Act(hs, s, HashOp) == Session(RehashBranch(hs, s.trie), LogHash(hs, s.trie, s.disk))
  {
  }

  lemma LoadedFacts<V>(hs: Hashing<V>, before: Tree<V>, t: Tree<V>, u: Tree<V>)
    requires RootOk(before) && SameShape(before, t) && Invariant(hs, t) && Clean(t) && LoadedAs(t, u)
    ensures Invariant(hs, u) && u.hash == t.hash
    ensures forall k: Key :: Lookup(u, k) == Lookup(before, k)
  {
    LoadedShape(t, u);
    SameKidsOk(t.kids, u.kids, []);
    LoadedCoherent(hs, t, u);
    forall k: Key
      ensures Lookup(u, k) == Lookup(before, k)
    {
      SameLookup(before.kids[k[0]], t.kids[k[0]], k);
      SameLookup(t.kids[k[0]], u.kids[k[0]], k);
    }
  }

  lemma {:induction false} LoadedKept<V>(d: Disk<V>, t: Tree<V>, u: Tree<V>)
    requires Kept(d, t, true) && Clean(t) && LoadedAs(t, u)
    ensures Kept(d, u, true)
  {
    if t.Branch? {
      LoadedChildKeys(t.kids, u.kids);
      forall i | 0 <= i < |u.kids|
        ensures Kept(d, u.kids[i], true)
      {
        assert LoadedAs(t.kids[i], u.kids[i]) && Clean(t.kids[i]) && Kept(d, t.kids[i], true);
        LoadedKept(d, t.kids[i], u.kids[i]);
      }
    }
  }

  lemma {:induction false} LoadedChildKeys<V>(kids: seq<Tree<V>>, loaded: seq<Tree<V>>)
    requires |kids| == |loaded| && forall i | 0 <= i < |kids| :: LoadedAs(kids[i], loaded[i])
    ensures ChildKeys(loaded) == ChildKeys(kids)
  {
    if kids != [] {
      var n := |kids| - 1;
      LoadedChildKeys(kids[..n], loaded[..n]);
      assert LoadedAs(kids[n], loaded[n]);
    }
  }

  /** A new store: the constructor writes the record of the empty root. */
  function NewSession<V>(hs: Hashing<V>): (s: Session<V>)
    ensures s.trie.Branch?
  {
    Session(Empty(hs), Disk(map[ROOT_KEY := RecordOf(Empty(hs))], map[], map[]))
  }

  lemma NewStoreIsSound<V>(hs: Hashing<V>)
    ensures Sound(hs, NewSession(hs))
  {
    EmptySum(hs, NoKids<V>());
    NoChildKeys(NoKids<V>());
  }

  lemma {:induction false} NoChildKeys<V>(kids: seq<Tree<V>>)
    requires forall i | 0 <= i < |kids| :: kids[i].Absent?
    ensures ChildKeys(kids) == []
  {
    if kids != [] { NoChildKeys(kids[..|kids| - 1]); }
  }

  // ---- a run that is not recorded ----

  function SampleKey(second: Nibble): Key
  {
    [1, second] + seq(KEY_LENGTH - 3, _ => 0) + [1]
  }

  /** The keys part after their first nibble. */
  lemma SampleKeysPart(i: Nibble, j: Nibble)
    requires i != j
    ensures Common(SampleKey(i), SampleKey(j)) == 1
    ensures Common([1], SampleKey(j)) == 1
    ensures SampleKey(j)[..1] == [1] && SampleKey(j)[1..][0] == j && SampleKey(j)[0] == 1
    ensures Hex(SampleKey(j)) != ROOT_KEY
  {
    var a, b := SampleKey(i), SampleKey(j);
    var n, m := Common(a, b), Common([1], b);
    assert a[1] != b[1] && a[0] == b[0] == 1;
    assert Hex(b)[63] == HexDigit(b[63]) == '1' && ROOT_KEY[63] == '0';
  }

  /** The branch under slot 1 of the root, holding the leaves of three keys. */
  ghost predicate ThreeLeaves<V>(s: Session<V>, v: V)
  {
    && s.trie.Branch? && s.trie.key == ROOT_KEY && |s.trie.kids| == CHILDREN_COUNT
    && var u := s.trie.kids[1];
       && u.Branch? && u.sub == [1] && u.key == Hex([1]) && u.key in s.disk.log && |u.kids| == CHILDREN_COUNT
       && u.kids[0].Leaf? && u.kids[1].Leaf? && u.kids[2].Leaf?
       && u.kids[2].sub == SampleKey(2)[1..] && u.kids[2].value == v
  }

  ghost predicate TwoLeaves<V>(s: Session<V>)
  {
    && s.trie.Branch? && s.trie.key == ROOT_KEY && |s.trie.kids| == CHILDREN_COUNT
    && var u := s.trie.kids[1];
       && u.Branch? && u.sub == [1] && u.key == Hex([1]) && u.key in s.disk.log && |u.kids| == CHILDREN_COUNT
       && u.kids[0].Leaf? && u.kids[1].Leaf? && u.kids[2].Absent?
  }

  ghost predicate OneLeaf<V>(s: Session<V>, v: V)
  {
    && s.trie.Branch? && s.trie.key == ROOT_KEY && |s.trie.kids| == CHILDREN_COUNT
    && s.trie.kids[1] == NewLeaf([], SampleKey(0), v)
  }

  lemma FirstInserted<V>(hs: Hashing<V>, v: V)
    ensures OneLeaf(Act(hs, NewSession(hs), InsertOp(SampleKey(0), v)), v)
  {
    hide NewLeaf, LogInsert, RecordOf, Hex;
    SampleKeysPart(1, 0);
    assert Lookup(Empty(hs), SampleKey(0)).None?;
  }

  lemma SecondInserted<V>(hs: Hashing<V>, s: Session<V>, v: V)
    requires OneLeaf(s, v)
    ensures TwoLeaves(Act(hs, s, InsertOp(SampleKey(1), v)))
  {
    hide Common, SampleKey, Hex, RecordOf;
    var a, b := SampleKey(0), SampleKey(1);
    SampleKeysPart(0, 1);
    SampleKeysPart(1, 0);
    var leaf := s.trie.kids[1];
    assert a != b;
    SplitResult(s.trie, [], b, v, 1);
    assert LookupNode(leaf, b) == None;
    assert Lookup(s.trie, b).None?;
    assert [] + b[..1] == [1];
    assert Hex([1]) in LogInsert(s.trie, [], b, v, s.disk).log;
  }

  lemma ThirdInserted<V>(hs: Hashing<V>, s: Session<V>, v: V)
    requires TwoLeaves(s)
    ensures ThreeLeaves(Act(hs, s, InsertOp(SampleKey(2), v)), v)
  {
    hide Common, SampleKey, Hex, RecordOf;
    var c := SampleKey(2);
    SampleKeysPart(0, 2);
    assert LookupNode(s.trie.kids[1], c) == LookupKids(s.trie.kids[1].kids, c[1..]) == None;
    DeepResult(s.trie, [], c, v, 1, s.disk);
    assert LogInsert(s.trie.kids[1], [] + [1], c[1..], v, s.disk).log.Keys >= s.disk.log.Keys;
  }

  /** Three accounts are inserted into a new store and the last is erased: nothing can be loaded. */
  lemma RunLosesTrie<V>(hs: Hashing<V>, v: V)
    ensures var s := ActAll(hs, NewSession(hs),
      [InsertOp(SampleKey(0), v), InsertOp(SampleKey(1), v), InsertOp(SampleKey(2), v)]);
      Lookup(s.trie, SampleKey(2)) == Some(v) && Reload(hs, Act(hs, s, EraseOp(SampleKey(2)))).None?
  {
    hide SampleKey, Act, Reload, Sound, Hex;
    var a, b, c := InsertOp(SampleKey(0), v), InsertOp(SampleKey(1), v), InsertOp(SampleKey(2), v);
    var s0 := NewSession(hs);
    var s1 := Act(hs, s0, a);
    var s2 := Act(hs, s1, b);
    var s3 := Act(hs, s2, c);
    var ops := [a, b, c];
    assert ops[..2] == [a, b] && [a, b][..1] == [a] && [a][..0] == [];
    assert ActAll(hs, s0, [a]) == s1;
    assert ActAll(hs, s0, [a, b]) == s2;
    assert ActAll(hs, s0, ops) == s3;
    FirstInserted(hs, v);
    SecondInserted(hs, s1, v);
    ThirdInserted(hs, s2, v);
    NewStoreIsSound(hs);
    SampleKeysPart(1, 0);
    SampleKeysPart(0, 1);
    SampleKeysPart(0, 2);
    ActSound(hs, s0, a);
    ActSound(hs, s1, b);
    ActSound(hs, s2, c);
    ThreeIsNotErasable(s3, v);
    EraseLosesTrie(hs, s3, SampleKey(2));
  }

  lemma ThreeIsNotErasable<V>(s: Session<V>, v: V)
    requires ThreeLeaves(s, v)
    ensures Lookup(s.trie, SampleKey(2)) == Some(v) && !Erasable(s.disk, s.trie, SampleKey(2))
  {
    hide SampleKey, Hex;
    var k, u := SampleKey(2), s.trie.kids[1];
    SampleKeysPart(0, 2);
    assert LookupNode(u, k) == LookupKids(u.kids, k[1..]) == Some(v);
    assert Parent(s.trie, k) == Parent(u, k[1..]) == u;
    CountUpdate(u.kids, 0, Absent);
    CountUpdate(u.kids[0 := Absent], 1, Absent);
    CountUpdate(u.kids[0 := Absent][1 := Absent], 2, Absent);
  }
}
