/**
 The trie as it is held in memory: a child table may hold the name of a node that is loaded from the
 stores when an operation first comes to it. Every operation on such a partly loaded trie does what it
 does on the whole trie.
 */
module TrieLazy {
  import opened Options
  import opened Uint256
  import opened TrieModel
  import opened TrieShape
  import opened TrieTheory
  import opened TriePersist

  datatype Part<V> =
    | Free
    | Stub(name: string)
    | HeldLeaf(key: string, sub: Path, value: V, hash: Hash, modified: bool)
    | Held(key: string, sub: Path, kids: seq<Part<V>>, hash: Hash, modified: bool)

  /** The same node, up to the cached hashes and flags of leaves, which nothing reads: hashing a branch
      hashes its leaves anew. */
  ghost predicate Alike<V>(t: Tree<V>, u: Tree<V>)
  {
    match t
    case Absent => u.Absent?
    case Leaf(key, sub, value, _, _) => u.Leaf? && u.key == key && u.sub == sub && u.value == value
    case Branch(key, sub, kids, hash, modified) =>
      && u.Branch? && u.key == key && u.sub == sub && u.hash == hash && u.modified == modified
      && |u.kids| == |kids| && forall i | 0 <= i < |kids| :: Alike(kids[i], u.kids[i])
  }

  /** The part of the trie `t` that is in memory; the rest is in the stores. */
  ghost predicate Shows<V>(d: Disk<V>, x: Part<V>, t: Tree<V>)
  {
    match x
    case Free => t.Absent?
    case Stub(name) =>
      !t.Absent? && t.key == name && LoadNode(d, name).Some? && Alike(t, LoadNode(d, name).value)
    case HeldLeaf(key, sub, value, _, _) => t.Leaf? && t.key == key && t.sub == sub && t.value == value
    case Held(key, sub, kids, hash, modified) =>
      && t.Branch? && t.key == key && t.sub == sub && t.hash == hash && t.modified == modified
      && |kids| == |t.kids| && forall i | 0 <= i < |kids| :: Shows(d, kids[i], t.kids[i])
  }

  /** Records are stored under their own keys. */
  ghost predicate Named<V>(d: Disk<V>)
  {
    forall key | At(d, key).Some? :: At(d, key).value.key == key
  }

  ghost predicate ShowsAll<V>(d: Disk<V>, kids: seq<Part<V>>, whole: seq<Tree<V>>)
  {
    |kids| == |whole| && forall i | 0 <= i < |kids| :: Shows(d, kids[i], whole[i])
  }

  function FreeKids<V>(): (kids: seq<Part<V>>)
    ensures |kids| == CHILDREN_COUNT && forall i | 0 <= i < CHILDREN_COUNT :: kids[i].Free?
  {
    seq(CHILDREN_COUNT, _ => Free)
  }

  // ---- loading one node ----

  /** A child table with a name in every slot the record uses. */
  function Stubs<V>(values: seq<string>, depth: nat): (r: Option<seq<Part<V>>>)
    ensures r.Some? ==> |r.value| == CHILDREN_COUNT
  {
    if values == [] then Some(FreeKids<V>())
    else
      var before := Stubs<V>(values[..|values| - 1], depth);
      var son := values[|values| - 1];
      if before.None? || |son| <= depth then None else Some(before.value[IndexBy16(son[depth]) := Stub(son)])
  }

  /** The node itself, without the nodes below it. None where the code throws. */
  function Fetch<V>(d: Disk<V>, x: Part<V>): (r: Option<Part<V>>)
    ensures r.Some? ==> !r.value.Stub?
    ensures x.Stub? && r.Some? ==> !r.value.Free? && !r.value.modified
    ensures !x.Stub? ==> r == Some(x)
  {
    if !x.Stub? then Some(x)
    else if At(d, x.name).None? then None
    else
      var r := At(d, x.name).value;
      if |x.name| >= KEY_LENGTH then
        if x.name in d.accounts then Some(HeldLeaf(r.key, r.sub, d.accounts[x.name], r.hash, false)) else None
      else
        var kids := Stubs<V>(r.values, |r.key| % KEY_LENGTH);
        if kids.None? then None else Some(Held(r.key, r.sub, kids.value, r.hash, false))
  }

  lemma LoadedName<V>(d: Disk<V>, name: string)
    requires Named(d) && LoadNode(d, name).Some?
    ensures !LoadNode(d, name).value.Absent? && LoadNode(d, name).value.key == name
  {
    var r := At(d, name).value;
    if |name| < KEY_LENGTH { assert LoadNode(d, name) == LoadBranch(d, r, |r.key| % KEY_LENGTH); }
  }

  /** The children that loading a table would load. */
  ghost predicate Promises<V>(d: Disk<V>, x: Part<V>, t: Tree<V>)
  {
    if x.Stub? then LoadNode(d, x.name) == Some(t) && !t.Absent? && t.key == x.name else x.Free? && t.Absent?
  }

  lemma {:induction false} StubsShow<V>(d: Disk<V>, values: seq<string>, depth: nat)
    requires Named(d) && depth < KEY_LENGTH && LoadKids(d, values, depth).Some?
    ensures Stubs<V>(values, depth).Some?
    ensures var kids, loaded := Stubs<V>(values, depth).value, LoadKids(d, values, depth).value;
      forall i | 0 <= i < CHILDREN_COUNT :: Promises(d, kids[i], loaded[i])
  {
    hide Named, LoadNode;
    if values != [] {
      StubsShow(d, values[..|values| - 1], depth);
      LoadedName(d, values[|values| - 1]);
    }
  }

  /** Loading a node makes no difference to the trie. */
  lemma FetchShows<V>(d: Disk<V>, x: Part<V>, t: Tree<V>)
    requires Named(d) && Shows(d, x, t)
    ensures Fetch(d, x).Some? && Shows(d, Fetch(d, x).value, t)
  {
    if x.Stub? {
      var r := At(d, x.name).value;
      if |x.name| < KEY_LENGTH {
        var depth := |r.key| % KEY_LENGTH;
        assert LoadNode(d, x.name) == LoadBranch(d, r, depth);
        StubsShow(d, r.values, depth);
        var kids, loaded := Stubs<V>(r.values, depth).value, LoadKids(d, r.values, depth).value;
        forall i | 0 <= i < CHILDREN_COUNT
          ensures Shows(d, kids[i], t.kids[i])
        {
          assert Promises(d, kids[i], loaded[i]) && Alike(t.kids[i], loaded[i]);
        }
      }
    }
  }

  lemma ShowsWith<V>(d: Disk<V>, kids: seq<Part<V>>, whole: seq<Tree<V>>, i: nat, x: Part<V>, t: Tree<V>)
    requires ShowsAll(d, kids, whole) && i < |kids| && Shows(d, x, t)
    ensures ShowsAll(d, kids[i := x], whole[i := t])
  {
  }

  // ---- search ----

  /** What a search returns and the child table it leaves, with the nodes it loaded. */
  datatype Found<V> = Found(value: Option<V>, kids: seq<Part<V>>)

  function FindPart<V>(d: Disk<V>, kids: seq<Part<V>>, k: Path): Option<Found<V>>
    decreases |k|
  {
    if k == [] || k[0] >= |kids| || kids[k[0]].Free? then Some(Found(None, kids))
    else
      var x := Fetch(d, kids[k[0]]);
      if x.None? then None
      else
        match x.value
        case HeldLeaf(_, sub, value, _, _) => Some(Found(if sub == k then Some(value) else None, kids[k[0] := x.value]))
        case Held(_, sub, below, _, _) =>
          if sub == [] then None
          else if |sub| < |k| && sub == k[..|sub|] then
            var f := FindPart(d, below, k[|sub|..]);
            if f.None? then None
            else Some(Found(f.value.value, kids[k[0] := x.value.(kids := f.value.kids)]))
          else Some(Found(None, kids[k[0] := x.value]))
  }

  lemma {:induction false} FindShows<V>(d: Disk<V>, kids: seq<Part<V>>, whole: seq<Tree<V>>, p: Path, k: Path)
    requires Named(d) && ShowsAll(d, kids, whole) && KidsOk(whole, p)
    ensures var f := FindPart(d, kids, k);
      f.Some? && f.value.value == LookupKids(whole, k) && ShowsAll(d, f.value.kids, whole)
    decreases |k|
  {
    if k != [] && k[0] < |kids| && !kids[k[0]].Free? {
      var i, t := k[0], whole[k[0]];
      FetchShows(d, kids[i], t);
      var x := Fetch(d, kids[i]).value;
      assert whole[i := t] == whole;
      ShowsWith(d, kids, whole, i, x, t);
      if x.Held? && |x.sub| < |k| && x.sub == k[..|x.sub|] {
        var rest := k[|x.sub|..];
        FindShows(d, x.kids, t.kids, p + t.sub, rest);
        ShowsWith(d, kids, whole, i, x.(kids := FindPart(d, x.kids, rest).value.kids), t);
      }
    }
  }

  // ---- insert ----

  function SplitPart<V>(x: Part<V>, p: Path, c: nat, k: Path, v: V): Part<V>
    requires (x.HeldLeaf? || x.Held?) && c < |x.sub| && c < |k| && x.sub[..c] == k[..c]
  {
    var leaf := HeldLeaf(Hex(p + k), k[c..], v, Zero(), true);
    var lower := x.(sub := x.sub[c..]);
    Held(Hex(p + k[..c]), x.sub[..c], FreeKids<V>()[k[c] := leaf][x.sub[c] := lower], Zero(), true)
  }

  /** Insertion of an absent key below the branch `x` with path `p`. */
  function InsertPart<V>(d: Disk<V>, x: Part<V>, p: Path, k: Path, v: V): (r: Option<Part<V>>)
    requires x.Held?
    ensures r.Some? ==> r.value.Held?
    decreases |k|
  {
    if k == [] || k[0] >= |x.kids| then Some(x)
    else if x.kids[k[0]].Free? then
      Some(x.(kids := x.kids[k[0] := HeldLeaf(Hex(p + k), k, v, Zero(), true)], modified := true))
    else
      var kid := Fetch(d, x.kids[k[0]]);
      if kid.None? || kid.value.sub == [] then None
      else
        var below := InsertBelow(d, kid.value, p, k, v);
        if below.None? then None else Some(x.(kids := x.kids[k[0] := below.value], modified := true))
  }

  function InsertBelow<V>(d: Disk<V>, x: Part<V>, p: Path, k: Path, v: V): Option<Part<V>>
    requires x.HeldLeaf? || x.Held?
    requires x.sub != []
    decreases |k|, 0
  {
    var c := Common(x.sub, k);
    if c == |k| then Some(x)
    else if c < |x.sub| then Some(SplitPart(x, p, c, k, v))
    else if x.HeldLeaf? then Some(x)
    else InsertPart(d, x, p + x.sub, k[c..], v)
  }

  lemma SplitShows<V>(d: Disk<V>, x: Part<V>, t: Tree<V>, p: Path, c: nat, k: Path, v: V)
    requires Shows(d, x, t) && (x.HeldLeaf? || x.Held?) && c < |x.sub| && c < |k| && x.sub[..c] == k[..c]
    ensures Shows(d, SplitPart(x, p, c, k, v), Split(t, p, c, k, v))
  {
    assert (p + k[..c]) + k[c..] == p + k;
    var lower, cut := x.(sub := x.sub[c..]), t.(sub := t.sub[c..]);
    assert Shows(d, lower, cut);
  }

  lemma {:induction false} InsertShows<V>(d: Disk<V>, x: Part<V>, t: Tree<V>, p: Path, k: Path, v: V)
    requires Named(d) && x.Held? && Shows(d, x, t) && KidsOk(t.kids, p)
    ensures var r := InsertPart(d, x, p, k, v); r.Some? && Shows(d, r.value, InsertBranch(t, p, k, v))
    decreases |k|
  {
    if k != [] && k[0] < |x.kids| && !x.kids[k[0]].Free? {
      var i := k[0];
      FetchShows(d, x.kids[i], t.kids[i]);
      var y, u := Fetch(d, x.kids[i]).value, t.kids[i];
      var c := Common(y.sub, k);
      if c < |k| && c < |y.sub| {
        SplitShows(d, y, u, p, c, k, v);
      } else if c < |k| && y.Held? {
        InsertShows(d, y, u, p + u.sub, k[c..], v);
      }
    }
  }

  // ---- in-place update ----

  function UpdatePart<V>(d: Disk<V>, x: Part<V>, k: Path, v: V): (r: Option<Part<V>>)
    requires x.Held?
    ensures r.Some? ==> r.value.Held?
    decreases |k|
  {
    if k == [] || k[0] >= |x.kids| || x.kids[k[0]].Free? then Some(x)
    else
      var kid := Fetch(d, x.kids[k[0]]);
      if kid.None? then None
      else
        match kid.value
        case HeldLeaf(_, _, _, _, _) =>
          Some(x.(kids := x.kids[k[0] := kid.value.(value := v)], modified := true))
        case Held(_, sub, _, _, _) =>
          if sub == [] then None
          else if |sub| < |k| then
            var below := UpdatePart(d, kid.value, k[|sub|..], v);
            if below.None? then None else Some(x.(kids := x.kids[k[0] := below.value], modified := true))
          else Some(x)
  }

  lemma {:induction false} UpdateShows<V>(d: Disk<V>, x: Part<V>, t: Tree<V>, p: Path, k: Path, v: V)
    requires Named(d) && x.Held? && Shows(d, x, t) && KidsOk(t.kids, p)
    ensures var r := UpdatePart(d, x, k, v); r.Some? && Shows(d, r.value, UpdateBranch(t, k, v))
    decreases |k|
  {
    if k != [] && k[0] < |x.kids| && !x.kids[k[0]].Free? {
      var i := k[0];
      FetchShows(d, x.kids[i], t.kids[i]);
      var y, u := Fetch(d, x.kids[i]).value, t.kids[i];
      if y.Held? && |y.sub| < |k| { UpdateShows(d, y, u, p + u.sub, k[|y.sub|..], v); }
    }
  }

  // ---- erase ----

  function CountParts<V>(kids: seq<Part<V>>): nat
  {
    if kids == [] then 0
    else CountParts(kids[..|kids| - 1]) + if kids[|kids| - 1].Free? then 0 else 1
  }

  function FirstPart<V>(kids: seq<Part<V>>): (i: nat)
    ensures i <= |kids| && (i < |kids| ==> !kids[i].Free?)
  {
    if kids == [] || !kids[0].Free? then 0 else FirstPart(kids[1..]) + 1
  }

  /** Merging loads the last child, which moves up. */
  function MergePart<V>(d: Disk<V>, x: Part<V>, rest: seq<Part<V>>): Option<Part<V>>
    requires x.Held?
  {
    var f := FirstPart(rest);
    if f == |rest| then Some(Free)
    else
      var last := Fetch(d, rest[f]);
      if last.None? then None else Some(last.value.(sub := x.sub + last.value.sub, modified := true))
  }

  function ErasePart<V>(d: Disk<V>, x: Part<V>, k: Path, isRoot: bool): (r: Option<Part<V>>)
    requires x.Held?
    ensures isRoot && r.Some? ==> r.value.Held?
    decreases |k|
  {
    if k == [] || k[0] >= |x.kids| || x.kids[k[0]].Free? then Some(x)
    else
      var kid := Fetch(d, x.kids[k[0]]);
      if kid.None? then None
      else
        match kid.value
        case HeldLeaf(_, _, _, _, _) =>
          var rest := x.kids[k[0] := Free];
          if !isRoot && CountParts(rest) == 1 then MergePart(d, x, rest)
          else Some(x.(kids := rest, modified := true))
        case Held(_, sub, _, _, _) =>
          if sub == [] then None
          else if |sub| < |k| then
            var below := ErasePart(d, kid.value, k[|sub|..], false);
            if below.None? then None else Some(x.(kids := x.kids[k[0] := below.value], modified := true))
          else Some(x)
  }

  lemma UsedSlot<V>(d: Disk<V>, x: Part<V>, t: Tree<V>)
    requires Shows(d, x, t)
    ensures x.Free? <==> t.Absent?
  {
    if x.Stub? {
      var r := At(d, x.name).value;
      if |x.name| < KEY_LENGTH { assert LoadNode(d, x.name) == LoadBranch(d, r, |r.key| % KEY_LENGTH); }
    }
  }

  lemma {:induction false} SameCounts<V>(d: Disk<V>, kids: seq<Part<V>>, whole: seq<Tree<V>>)
    requires ShowsAll(d, kids, whole)
    ensures CountParts(kids) == Count(whole)
  {
    hide Shows;
    if kids != [] {
      var n := |kids| - 1;
      SameCounts(d, kids[..n], whole[..n]);
      UsedSlot(d, kids[n], whole[n]);
    }
  }

  lemma {:induction false} SameFirst<V>(d: Disk<V>, kids: seq<Part<V>>, whole: seq<Tree<V>>)
    requires ShowsAll(d, kids, whole)
    ensures FirstPart(kids) == First(whole)
  {
    hide Shows;
    if kids != [] {
      UsedSlot(d, kids[0], whole[0]);
      SameFirst(d, kids[1..], whole[1..]);
    }
  }

  lemma MergeShows<V>(d: Disk<V>, x: Part<V>, t: Tree<V>, rest: seq<Part<V>>, whole: seq<Tree<V>>)
    requires Named(d) && x.Held? && Shows(d, x, t) && ShowsAll(d, rest, whole)
    ensures var r := MergePart(d, x, rest); r.Some? && Shows(d, r.value, Merge(t, whole))
  {
    SameFirst(d, rest, whole);
    var f := First(whole);
    if f < |whole| { FetchShows(d, rest[f], whole[f]); }
  }

  lemma {:induction false} EraseShows<V>(d: Disk<V>, x: Part<V>, t: Tree<V>, p: Path, k: Path, isRoot: bool)
    requires Named(d) && x.Held? && Shows(d, x, t) && KidsOk(t.kids, p)
    ensures var r := ErasePart(d, x, k, isRoot); r.Some? && Shows(d, r.value, EraseBranch(t, k, isRoot))
    decreases |k|
  {
    if k != [] && k[0] < |x.kids| && !x.kids[k[0]].Free? {
      var i := k[0];
      FetchShows(d, x.kids[i], t.kids[i]);
      var y, u := Fetch(d, x.kids[i]).value, t.kids[i];
      if y.HeldLeaf? {
        ShowsWith(d, x.kids, t.kids, i, Free, Absent);
        SameCounts(d, x.kids[i := Free], t.kids[i := Absent]);
        MergeShows(d, x, t, x.kids[i := Free], t.kids[i := Absent]);
      } else if |y.sub| < |k| {
        EraseShows(d, y, u, p + u.sub, k[|y.sub|..], false);
      }
    }
  }

  // ---- hashing ----

  /** Hashing loads the children of every marked branch; a node that is loaded now is not marked. */
  function HashPart<V>(hs: Hashing<V>, d: Disk<V>, x: Part<V>): (r: Option<Part<V>>)
    decreases x, 1
  {
    match x
    case Free => Some(x)
    case Stub(_) =>
      var y := Fetch(d, x);
      if y.None? then None
      else
        (match y.value
         case HeldLeaf(key, sub, value, _, _) => Some(HeldLeaf(key, sub, value, hs.digest(value), false))
         case Held(_, _, _, _, _) => y)
    case HeldLeaf(key, sub, value, _, _) => Some(HeldLeaf(key, sub, value, hs.digest(value), false))
    case Held(_, _, kids, _, modified) =>
      if !modified then Some(x)
      else
        var done := HashParts(hs, d, kids);
        if done.None? then None
        else Some(x.(kids := done.value, hash := hs.sha(SumParts(done.value)), modified := false))
  }

  function HashParts<V>(hs: Hashing<V>, d: Disk<V>, kids: seq<Part<V>>): (r: Option<seq<Part<V>>>)
    ensures r.Some? ==> |r.value| == |kids|
    decreases kids, 0
  {
    if kids == [] then Some([])
    else
      var before := HashParts(hs, d, kids[..|kids| - 1]);
      var last := HashPart(hs, d, kids[|kids| - 1]);
      if before.None? || last.None? then None else Some(before.value + [last.value])
  }

  /** The sum of the hashes of the loaded children. */
  function SumParts<V>(kids: seq<Part<V>>): Hash
  {
    if kids == [] then Zero()
    else
      var sum := SumParts(kids[..|kids| - 1]);
      var last := kids[|kids| - 1];
      if last.HeldLeaf? || last.Held? then Plus(sum, last.hash) else sum
  }

  lemma {:induction false} HashShows<V>(hs: Hashing<V>, d: Disk<V>, x: Part<V>, t: Tree<V>)
    requires Named(d) && Shows(d, x, t)
    ensures var r := HashPart(hs, d, x);
      && r.Some? && !r.value.Stub? && Shows(d, r.value, RehashKid(hs, t))
      && (r.value.HeldLeaf? ==> r.value.hash == RehashKid(hs, t).hash)
    decreases x, 1
  {
    if x.Stub? {
      FetchShows(d, x, t);
    } else if x.Held? && x.modified {
      HashAllShow(hs, d, x.kids, t.kids);
      var done := HashParts(hs, d, x.kids).value;
      SumShows(d, done, RehashKids(hs, t.kids));
    }
  }

  lemma {:induction false} HashAllShow<V>(hs: Hashing<V>, d: Disk<V>, kids: seq<Part<V>>, whole: seq<Tree<V>>)
    requires Named(d) && ShowsAll(d, kids, whole)
    ensures var r := HashParts(hs, d, kids);
      && r.Some? && ShowsAll(d, r.value, RehashKids(hs, whole))
      && forall i | 0 <= i < |kids| :: Summed(r.value[i], RehashKids(hs, whole)[i])
    decreases kids, 0
  {
    hide Shows, HashPart;
    if kids != [] {
      var n := |kids| - 1;
      HashAllShow(hs, d, kids[..n], whole[..n]);
      HashShows(hs, d, kids[n], whole[n]);
      HashedLeaf(hs, d, kids[n], whole[n]);
      assert HashParts(hs, d, kids) == Some(HashParts(hs, d, kids[..n]).value + [HashPart(hs, d, kids[n]).value]);
    }
  }

  lemma HashedLeaf<V>(hs: Hashing<V>, d: Disk<V>, x: Part<V>, t: Tree<V>)
    requires Named(d) && Shows(d, x, t)
    ensures var r := HashPart(hs, d, x); r.Some? && Summed(r.value, RehashKid(hs, t))
    decreases x, 2
  {
    HashShows(hs, d, x, t);
  }

  /** A loaded child whose hash is that of the whole trie. */
  ghost predicate Summed<V>(x: Part<V>, t: Tree<V>)
  {
    !x.Stub? && (x.HeldLeaf? ==> t.Leaf? && x.hash == t.hash)
  }

  lemma {:induction false} SumShows<V>(d: Disk<V>, kids: seq<Part<V>>, whole: seq<Tree<V>>)
    requires ShowsAll(d, kids, whole) && forall i | 0 <= i < |kids| :: Summed(kids[i], whole[i])
    ensures SumParts(kids) == CachedSum(whole)
  {
    if kids != [] {
      var n := |kids| - 1;
      SumShows(d, kids[..n], whole[..n]);
      assert Shows(d, kids[n], whole[n]) && Summed(kids[n], whole[n]);
    }
  }

  // ---- whole runs ----

  /** One operation on a partly loaded trie. */
  function StepPart<V>(hs: Hashing<V>, d: Disk<V>, x: Part<V>, op: Op<V>): Option<Part<V>>
    requires x.Held?
  {
    match op
    case InsertOp(k, v) =>
      var f := FindPart(d, x.kids, k);
      if f.None? then None
      else if f.value.value.Some? then Some(x.(kids := f.value.kids))
        else InsertPart(d, x.(kids := f.value.kids), [], k, v)
    case UpdateOp(k, v) =>
      var f := FindPart(d, x.kids, k);
      if f.None? then None
      else if f.value.value.None? then Some(x.(kids := f.value.kids)) else UpdatePart(d, x.(kids := f.value.kids), k, v)
    case EraseOp(k) =>
      var f := FindPart(d, x.kids, k);
      if f.None? then None
      else if f.value.value.None? then Some(x.(kids := f.value.kids))
        else ErasePart(d, x.(kids := f.value.kids), k, true)
    case HashOp => HashPart(hs, d, x)
  }

  lemma StepShows<V>(hs: Hashing<V>, d: Disk<V>, x: Part<V>, t: Tree<V>, op: Op<V>)
    requires Named(d) && x.Held? && Shows(d, x, t) && RootOk(t)
    ensures var r := StepPart(hs, d, x, op); r.Some? && r.value.Held? && Shows(d, r.value, Step(hs, t, op))
  {
    hide KidsOk, InsertBranch, UpdateBranch, EraseBranch, RehashBranch, FindPart, InsertPart, UpdatePart, ErasePart,
         LookupKids;
    if op.HashOp? {
      HashShows(hs, d, x, t);
    } else {
      var k := op.k;
      FindShows(d, x.kids, t.kids, [], k);
      var y := x.(kids := FindPart(d, x.kids, k).value.kids);
      match op
      case InsertOp(_, v) => InsertShows(d, y, t, [], k, v);
      case UpdateOp(_, v) => UpdateShows(d, y, t, [], k, v);
      case EraseOp(_) => EraseShows(d, y, t, [], k, true);
    }
  }

  function RunPart<V>(hs: Hashing<V>, d: Disk<V>, x: Part<V>, ops: seq<Op<V>>): Option<Part<V>>
  {
    if ops == [] then Some(x)
    else
      var y := RunPart(hs, d, x, ops[..|ops| - 1]);
      if y.None? || !y.value.Held? then None else StepPart(hs, d, y.value, ops[|ops| - 1])
  }

  function RunFrom<V>(hs: Hashing<V>, t: Tree<V>, ops: seq<Op<V>>): (r: Tree<V>)
    requires t.Branch?
    ensures r.Branch?
  {
    if ops == [] then t else Step(hs, RunFrom(hs, t, ops[..|ops| - 1]), ops[|ops| - 1])
  }

  ghost predicate SameMap<V>(a: Tree<V>, b: Tree<V>)
    requires a.Branch? && b.Branch?
  {
    forall k: Key :: Lookup(a, k) == Lookup(b, k)
  }

  /** Tries with the same map have the same map after every run. */
  lemma {:induction false} SameMapRuns<V>(hs: Hashing<V>, a: Tree<V>, b: Tree<V>, ops: seq<Op<V>>)
    requires Invariant(hs, a) && Invariant(hs, b) && a.Branch? && b.Branch? && SameMap(a, b)
    ensures Invariant(hs, RunFrom(hs, a, ops)) && Invariant(hs, RunFrom(hs, b, ops))
    ensures SameMap(RunFrom(hs, a, ops), RunFrom(hs, b, ops))
  {
    hide RootOk, Coherent, Step, LookupKids;
    if ops != [] {
      var before, op := ops[..|ops| - 1], ops[|ops| - 1];
      SameMapRuns(hs, a, b, before);
      var x, y := RunFrom(hs, a, before), RunFrom(hs, b, before);
      StepKeepsShape(hs, x, op);
      StepKeepsShape(hs, y, op);
      StepKeepsCoherence(hs, x, op);
      StepKeepsCoherence(hs, y, op);
      forall k: Key
        ensures Lookup(Step(hs, x, op), k) == Lookup(Step(hs, y, op), k)
      {
        StepAnswers(hs, x, op, k);
        StepAnswers(hs, y, op, k);
      }
    }
  }

  /** Every run from a partly loaded trie succeeds and goes as from the whole trie: at its end every
      search answers alike, and so does the root hash. */
  lemma {:induction false} RunShows<V>(hs: Hashing<V>, d: Disk<V>, x: Part<V>, t: Tree<V>, ops: seq<Op<V>>)
    requires Named(d) && x.Held? && Shows(d, x, t) && Invariant(hs, t)
    ensures var r, u := RunPart(hs, d, x, ops), RunFrom(hs, t, ops);
      && r.Some? && r.value.Held? && Shows(d, r.value, u) && Invariant(hs, u) && r.value.hash == u.hash
      && forall k: Key :: var f := FindPart(d, r.value.kids, k); f.Some? && f.value.value == Lookup(u, k)
  {
    hide KidsOk, StepPart, FindPart, LookupKids;
    if ops != [] {
      var before := ops[..|ops| - 1];
      RunShows(hs, d, x, t, before);
      StepShows(hs, d, RunPart(hs, d, x, before).value, RunFrom(hs, t, before), ops[|ops| - 1]);
      StepKeepsShape(hs, RunFrom(hs, t, before), ops[|ops| - 1]);
      StepKeepsCoherence(hs, RunFrom(hs, t, before), ops[|ops| - 1]);
    }
    var r, u := RunPart(hs, d, x, ops).value, RunFrom(hs, t, ops);
    forall k: Key
      ensures var f := FindPart(d, r.kids, k); f.Some? && f.value.value == Lookup(u, k)
    {
      FindShows(d, r.kids, u.kids, [], k);
    }
  }

  // ---- from the stores ----

  /** The constructor loads the root alone. */
  function OpenRoot<V>(d: Disk<V>): Option<Part<V>>
  {
    var r := At(d, ROOT_KEY);
    if r.None? then None
    else
      var kids := Stubs<V>(r.value.values, |r.value.key| % KEY_LENGTH);
      if kids.None? then None else Some(Held(r.value.key, r.value.sub, kids.value, r.value.hash, false))
  }

  lemma OpenShows<V>(d: Disk<V>)
    requires Named(d) && LoadRoot(d).Some?
    ensures OpenRoot(d).Some? && OpenRoot(d).value.Held? && Shows(d, OpenRoot(d).value, LoadRoot(d).value)
  {
    var r := At(d, ROOT_KEY).value;
    var depth := |r.key| % KEY_LENGTH;
    StubsShow(d, r.values, depth);
    var kids, loaded := Stubs<V>(r.values, depth).value, LoadKids(d, r.values, depth).value;
    forall i | 0 <= i < CHILDREN_COUNT
      ensures Shows(d, kids[i], loaded[i])
    {
      assert Promises(d, kids[i], loaded[i]);
      AlikeSelf(loaded[i]);
    }
  }

  lemma {:induction false} AlikeSelf<V>(t: Tree<V>)
    ensures Alike(t, t)
  {
    if t.Branch? {
      forall i | 0 <= i < |t.kids|
        ensures Alike(t.kids[i], t.kids[i])
      {
        AlikeSelf(t.kids[i]);
      }
    }
  }

  // ---- records keep their names ----

  lemma PutNamed<V>(d: Disk<V>, t: Tree<V>)
    requires Named(d) && !t.Absent?
    ensures Named(Put(d, t)) && Named(Delete(d, t)) && (t.key in d.log ==> Named(Refresh(d, t)))
  {
    hide ChildKeys;
    forall key
      ensures At(Put(d, t), key).Some? ==> At(Put(d, t), key).value.key == key
      ensures At(Delete(d, t), key).Some? ==> At(Delete(d, t), key).value.key == key
      ensures t.key in d.log && At(Refresh(d, t), key).Some? ==> At(Refresh(d, t), key).value.key == key
    {
      assert At(d, key).Some? ==> At(d, key).value.key == key;
      assert At(d, t.key).Some? ==> At(d, t.key).value.key == t.key;
    }
  }

  lemma {:induction false} InsertNamed<V>(t: Tree<V>, p: Path, k: Path, v: V, d: Disk<V>)
    requires t.Branch? && Named(d)
    ensures Named(LogInsert(t, p, k, v, d))
  {
    hide Named, InsertBranch, Split, Common, Put;
    if k != [] && k[0] < |t.kids| {
      var kid, r := t.kids[k[0]], InsertBranch(t, p, k, v);
      if kid.Absent? {
        PutNamed(d, r);
        PutNamed(Put(d, r), NewLeaf(p, k, v));
      } else {
        var c := Common(kid.sub, k);
        if c < |k| && c < |kid.sub| {
          var lower, child, leaf := kid.(sub := kid.sub[c..]), Split(kid, p, c, k, v), NewLeaf(p + k[..c], k[c..], v);
          SplitIsBranch(kid, p, c, k, v);
          var d1 := Put(d, lower);
          PutNamed(d, lower);
          PutNamed(d1, child);
          PutNamed(Put(d1, child), r);
          PutNamed(Put(Put(d1, child), r), leaf);
        } else if c < |k| && kid.Branch? {
          InsertNamed(kid, p + kid.sub, k[c..], v, d);
        }
      }
    }
  }

  lemma SplitIsBranch<V>(t: Tree<V>, p: Path, c: nat, k: Path, v: V)
    requires !t.Absent? && c < |t.sub| && c < |k| && t.sub[..c] == k[..c]
    ensures Split(t, p, c, k, v).Branch?
  {
  }

  lemma {:induction false} EraseNamed<V>(t: Tree<V>, k: Path, isRoot: bool, d: Disk<V>)
    requires t.Branch? && Named(d)
    ensures Named(LogErase(t, k, isRoot, d))
  {
    hide Named, EraseBranch, Merges, Put, Delete;
    if k != [] && k[0] < |t.kids| {
      var kid := t.kids[k[0]];
      if kid.Leaf? {
        var gone := Delete(d, kid);
        PutNamed(d, kid);
        PutNamed(gone, t);
        if isRoot {
          PutNamed(gone, EraseBranch(t, k, true));
        } else if !EraseBranch(t, k, false).Absent? {
          PutNamed(Delete(gone, t), EraseBranch(t, k, false));
        }
      } else if kid.Branch? && |kid.sub| < |k| {
        var rest := k[|kid.sub|..];
        EraseNamed(kid, rest, false, d);
        PutNamed(LogErase(kid, rest, false, d), EraseBranch(t, k, true));
      }
    }
  }

  lemma {:induction false} HashNamed<V>(hs: Hashing<V>, t: Tree<V>, d: Disk<V>)
    requires Named(d)
    ensures Named(LogHash(hs, t, d))
    decreases t, 1
  {
    hide Named, RehashKids, CachedSum, LogHashKids, Put, Refresh;
    if t.Leaf? {
      PutNamed(d, RehashKid(hs, t));
    } else if t.Branch? && t.modified {
      HashKidsNamed(hs, t.kids, d);
      PutNamed(LogHashKids(hs, t.kids, d), RehashBranch(hs, t));
    }
  }

  lemma {:induction false} HashKidsNamed<V>(hs: Hashing<V>, kids: seq<Tree<V>>, d: Disk<V>)
    requires Named(d)
    ensures Named(LogHashKids(hs, kids, d))
    decreases kids, 0
  {
    hide Named, LogHash;
    if kids != [] {
      HashKidsNamed(hs, kids[..|kids| - 1], d);
      HashNamed(hs, kids[|kids| - 1], LogHashKids(hs, kids[..|kids| - 1], d));
    }
  }

  lemma SameRecords<V>(d: Disk<V>, d': Disk<V>)
    requires Named(d)
    ensures d'.store == d.store && d'.log == d.log ==> Named(d')
  {
    if d'.store == d.store && d'.log == d.log {
      forall key | At(d', key).Some?
        ensures At(d', key).value.key == key
      {
        assert At(d, key) == At(d', key);
      }
    }
  }

  lemma ActNamed<V>(hs: Hashing<V>, s: Session<V>, op: Op<V>)
    requires s.trie.Branch? && Named(s.disk)
    ensures Named(Act(hs, s, op).disk)
  {
    hide LogInsert, LogErase, LogHash, LookupKids, Step;
    match op
    case InsertOp(k, v) =>
      InsertNamed(s.trie, [], k, v, s.disk);
      SameRecords(LogInsert(s.trie, [], k, v, s.disk), Act(hs, s, op).disk);
    case UpdateOp(_, _) => SameRecords(s.disk, Act(hs, s, op).disk);
    case EraseOp(k) => EraseNamed(s.trie, k, true, s.disk);
    case HashOp => HashNamed(hs, s.trie, s.disk);
  }

  lemma {:induction false} ActAllNamed<V>(hs: Hashing<V>, s: Session<V>, ops: seq<Op<V>>)
    requires s.trie.Branch? && Named(s.disk)
    ensures Named(ActAll(hs, s, ops).disk)
  {
    hide Named, Act;
    if ops != [] {
      ActAllNamed(hs, s, ops[..|ops| - 1]);
      ActNamed(hs, ActAll(hs, s, ops[..|ops| - 1]), ops[|ops| - 1]);
    }
  }

  lemma SavedNamed<V>(d: Disk<V>)
    requires Named(d)
    ensures Named(Saved(d))
  {
    hide Saved;
    forall key | At(Saved(d), key).Some?
      ensures At(Saved(d), key).value.key == key
    {
      SavedAt(d, key);
    }
  }

  lemma SoundInvariant<V>(hs: Hashing<V>, s: Session<V>)
    requires Sound(hs, s)
    ensures Invariant(hs, s.trie) && s.trie.Branch?
  {
  }

  /** Hashing a partly loaded trie gives the full hash of every trie with the same map. */
  lemma HashAfter<V>(hs: Hashing<V>, d: Disk<V>, x: Part<V>, t: Tree<V>, u: Tree<V>)
    requires Named(d) && x.Held? && Shows(d, x, t) && Invariant(hs, t) && Invariant(hs, u) && SameMap(t, u)
    ensures var h := HashPart(hs, d, x); h.Some? && h.value.Held? && h.value.hash == FullHash(hs, u)
  {
    HashShows(hs, d, x, t);
    GetHashCorrect(hs, t);
    Canonical(t, u);
    SameHash(hs, t, u);
  }

  /** Persist and go on: after a recorded run, a trie opened from the stores with its root alone and
      loaded as operations need it goes on exactly as the trie in memory would have: it succeeds, gives
      every search the same answer and has the same root hash. */
  lemma ReopenAndRun<V>(hs: Hashing<V>, s0: Session<V>, ops: seq<Op<V>>, more: seq<Op<V>>)
    requires Sound(hs, s0) && s0.trie.Branch? && Named(s0.disk) && AllRecorded(hs, s0, ops)
    ensures var s := ActAll(hs, s0, ops);
      var d := Saved(Act(hs, s, HashOp).disk);
      && Reload(hs, s).Some? && Reload(hs, s).value.Branch? && OpenRoot(d).Some?
      && var r, u := RunPart(hs, d, OpenRoot(d).value, more), RunFrom(hs, s.trie, more);
         && r.Some? && r.value.Held?
         && (forall k: Key :: var f := FindPart(d, r.value.kids, k); f.Some? && f.value.value == Lookup(u, k))
         && var h := HashPart(hs, d, r.value); h.Some? && h.value.Held? && h.value.hash == FullHash(hs, u)
  {
    hide Named, Sound, AllRecorded, Act, ActAll, FindPart, HashPart, RunPart, RunFrom, Saved, OpenRoot, Shows,
         LoadRoot, LookupKids;
    PersistAndReload(hs, s0, ops);
    ActAllSound(hs, s0, ops);
    var s := ActAll(hs, s0, ops);
    var d := Saved(Act(hs, s, HashOp).disk);
    ActAllNamed(hs, s0, ops);
    ActNamed(hs, s, HashOp);
    SavedNamed(Act(hs, s, HashOp).disk);
    OpenShows(d);
    SoundInvariant(hs, s);
    SoundInvariant(hs, Session(Reload(hs, s).value, d));
    RunShows(hs, d, OpenRoot(d).value, LoadRoot(d).value, more);
    SameMapRuns(hs, LoadRoot(d).value, s.trie, more);
    HashAfter(hs, d, RunPart(hs, d, OpenRoot(d).value, more).value, RunFrom(hs, LoadRoot(d).value, more),
      RunFrom(hs, s.trie, more));
  }

  // ---- writing the log while nodes are still in the stores ----

  lemma {:induction false} LoadedAlike<V>(t: Tree<V>, u: Tree<V>)
    requires LoadedAs(t, u) && Clean(t)
    ensures Alike(t, u)
  {
    if t.Branch? {
      forall i | 0 <= i < |t.kids|
        ensures Alike(t.kids[i], u.kids[i])
      {
        assert LoadedAs(t.kids[i], u.kids[i]) && Clean(t.kids[i]);
        LoadedAlike(t.kids[i], u.kids[i]);
      }
    }
  }

  /** The part in memory goes on showing the trie over any stores that describe it. */
  lemma {:induction false} NewStoresShow<V>(d: Disk<V>, d': Disk<V>, x: Part<V>, t: Tree<V>, p: Path)
    requires Shows(d, x, t) && !t.Absent? && NodeOk(t, p) && Kept(d', t, true) && Clean(t)
    ensures Shows(d', x, t)
    decreases x, 1
  {
    if x.Stub? {
      LoadNodeOk(d', t, p);
      LoadedAlike(t, LoadNode(d', t.key).value);
    } else if x.Held? {
      NewStoresShowKids(d, d', x.kids, t, p + t.sub);
    }
  }

  lemma {:induction false} NewStoresShowKids<V>(d: Disk<V>, d': Disk<V>, kids: seq<Part<V>>, t: Tree<V>, p: Path)
    requires t.Branch? && ShowsAll(d, kids, t.kids) && KidsOk(t.kids, p) && Kept(d', t, true) && Clean(t)
    ensures ShowsAll(d', kids, t.kids)
    decreases kids, 0
  {
    hide NodeOk, Kept;
    KeptParts(d', t, true);
    forall i | 0 <= i < |kids|
      ensures Shows(d', kids[i], t.kids[i])
    {
      assert Shows(d, kids[i], t.kids[i]) && Clean(t.kids[i]);
      if t.kids[i].Absent? {
        UsedSlot(d, kids[i], t.kids[i]);
      } else {
        NewStoresShow(d, d', kids[i], t.kids[i], p);
      }
    }
  }

  // ---- the records of a partly loaded node ----

  function PartKeys<V>(kids: seq<Part<V>>): seq<string>
  {
    if kids == [] then []
    else
      var last := kids[|kids| - 1];
      PartKeys(kids[..|kids| - 1]) + if last.Free? then [] else [if last.Stub? then last.name else last.key]
  }

  /** The record made of a loaded branch is that of the whole one, whether its children are loaded or
      not. */
  lemma {:induction false} SameRecord<V>(d: Disk<V>, x: Part<V>, t: Tree<V>)
    requires x.Held? && Shows(d, x, t)
    ensures Record(x.key, x.sub, x.hash, PartKeys(x.kids)) == RecordOf(t)
  {
    SameNames(d, x.kids, t.kids);
  }

  lemma {:induction false} SameNames<V>(d: Disk<V>, kids: seq<Part<V>>, whole: seq<Tree<V>>)
    requires ShowsAll(d, kids, whole)
    ensures PartKeys(kids) == ChildKeys(whole)
  {
    if kids != [] {
      var n := |kids| - 1;
      SameNames(d, kids[..n], whole[..n]);
      assert Shows(d, kids[n], whole[n]);
    }
  }

  // ---- what a partly loaded trie writes to the log ----

  function PartRecord<V>(x: Part<V>): Record
    requires x.HeldLeaf? || x.Held?
  {
    Record(x.key, x.sub, x.hash, if x.Held? then PartKeys(x.kids) else [])
  }

  function PutPart<V>(d: Disk<V>, x: Part<V>): Disk<V>
    requires x.HeldLeaf? || x.Held?
  {
    d.(log := d.log[x.key := Some(PartRecord(x))])
  }

  function DeletePart<V>(d: Disk<V>, x: Part<V>): Disk<V>
    requires x.HeldLeaf? || x.Held?
  {
    d.(log := d.log[x.key := None])
  }

  function RefreshPart<V>(d: Disk<V>, x: Part<V>): Disk<V>
    requires (x.HeldLeaf? || x.Held?) && x.key in d.log
  {
    var r := d.log[x.key];
    if r.None? then d else d.(log := d.log[x.key := Some(r.value.(hash := x.hash))])
  }

  function LogInsertPart<V>(st: Disk<V>, x: Part<V>, p: Path, k: Path, v: V, d: Disk<V>): Disk<V>
    requires x.Held?
    decreases |k|
  {
    if k == [] || k[0] >= |x.kids| || InsertPart(st, x, p, k, v).None? then d
    else
      var r := InsertPart(st, x, p, k, v).value;
      if x.kids[k[0]].Free? then PutPart(PutPart(d, r), HeldLeaf(Hex(p + k), k, v, Zero(), true))
      else
        var kid := Fetch(st, x.kids[k[0]]);
        if kid.None? || kid.value.sub == [] then d
        else
          var y := kid.value;
          var c := Common(y.sub, k);
          if c == |k| then d
          else if c < |y.sub| then
            var moved := PutPart(d, y.(sub := y.sub[c..]));
            PutPart(PutPart(PutPart(moved, SplitPart(y, p, c, k, v)), r), HeldLeaf(Hex(p + k), k[c..], v, Zero(), true))
          else if y.HeldLeaf? then d
          else LogInsertPart(st, y, p + y.sub, k[c..], v, d)
  }

  predicate MergesPart<V>(st: Disk<V>, x: Part<V>, k: Path)
    requires x.Held?
  {
    && k != [] && k[0] < |x.kids|
    && var kid := Fetch(st, x.kids[k[0]]);
       kid.Some? && kid.value.HeldLeaf? && CountParts(x.kids[k[0] := Free]) == 1
  }

  function LogErasePart<V>(st: Disk<V>, x: Part<V>, k: Path, isRoot: bool, d: Disk<V>): Disk<V>
    requires x.Held?
    decreases |k|
  {
    if k == [] || k[0] >= |x.kids| || x.kids[k[0]].Free? then d
    else
      var kid, r := Fetch(st, x.kids[k[0]]), ErasePart(st, x, k, isRoot);
      if kid.None? || r.None? then d
      else
        match kid.value
        case HeldLeaf(_, _, _, _, _) =>
          var gone := DeletePart(d, kid.value);
          if isRoot then PutPart(gone, r.value)
          else if MergesPart(st, x, k) then
            (if r.value.HeldLeaf? || r.value.Held? then PutPart(DeletePart(gone, x), r.value) else gone)
          else gone
        case Held(_, sub, _, _, _) =>
          if sub == [] || |sub| >= |k| then d
          else
            var below := LogErasePart(st, kid.value, k[|sub|..], false, d);
            if MergesPart(st, kid.value, k[|sub|..]) && r.value.Held? then PutPart(below, r.value) else below
  }

  function LogLeafPart<V>(d: Disk<V>, x: Part<V>): Disk<V>
    requires x.HeldLeaf?
  {
    if x.key in d.log then RefreshPart(d, x) else d
  }

  function LogTopPart<V>(d: Disk<V>, x: Part<V>): Disk<V>
    requires x.Held?
  {
    if x.key in d.log then RefreshPart(d, x) else PutPart(d, x)
  }

  function LogHashPart<V>(hs: Hashing<V>, st: Disk<V>, x: Part<V>, d: Disk<V>): Disk<V>
    decreases x, 1
  {
    var r := HashPart(hs, st, x);
    if r.None? then d
    else
      match x
      case Free => d
      case Stub(_) => if r.value.HeldLeaf? then LogLeafPart(d, r.value) else d
      case HeldLeaf(_, _, _, _, _) => if r.value.HeldLeaf? then LogLeafPart(d, r.value) else d
      case Held(_, _, kids, _, modified) =>
        if modified && r.value.Held? then LogTopPart(LogHashParts(hs, st, kids, d), r.value) else d
  }

  function LogHashParts<V>(hs: Hashing<V>, st: Disk<V>, kids: seq<Part<V>>, d: Disk<V>): Disk<V>
    decreases kids, 0
  {
    if kids == [] then d
    else LogHashPart(hs, st, kids[|kids| - 1], LogHashParts(hs, st, kids[..|kids| - 1], d))
  }

  // ---- the logs agree ----

  /** The same entry, up to the cached hash in the record of a leaf. */
  ghost predicate AlikeEntry(key: string, a: Option<Record>, b: Option<Record>)
  {
    if a.None? || b.None? then a.None? && b.None?
    else a == b || (|key| == KEY_LENGTH && key != ROOT_KEY && a.value == b.value.(hash := a.value.hash))
  }

  ghost predicate AlikeDisks<V>(d: Disk<V>, e: Disk<V>)
  {
    d.accounts == e.accounts && forall key :: AlikeAt(d, e, key)
  }

  ghost predicate AlikeAt<V>(d: Disk<V>, e: Disk<V>, key: string)
  {
    (key in d.log <==> key in e.log) && AlikeEntry(key, At(d, key), At(e, key))
  }

  /** A loaded node that shows `t`, so that its record is the same. */
  ghost predicate SameNode<V>(x: Part<V>, t: Tree<V>)
  {
    && (x.HeldLeaf? || x.Held?) && !t.Absent? && x.key == t.key
    && AlikeEntry(x.key, Some(PartRecord(x)), Some(RecordOf(t)))
  }

  lemma AlikePut<V>(d: Disk<V>, e: Disk<V>, x: Part<V>, t: Tree<V>)
    requires AlikeDisks(d, e) && SameNode(x, t)
    ensures AlikeDisks(PutPart(d, x), Put(e, t)) && AlikeDisks(DeletePart(d, x), Delete(e, t))
  {
    hide AlikeEntry, PartRecord, RecordOf;
    NoneAlike(x.key);
    AlikeWith(d, e, x.key, Some(PartRecord(x)), Some(RecordOf(t)));
    AlikeWith(d, e, x.key, None, None);
  }

  lemma AlikeWith<V>(d: Disk<V>, e: Disk<V>, name: string, a: Option<Record>, b: Option<Record>)
    requires AlikeDisks(d, e) && AlikeEntry(name, a, b)
    ensures AlikeDisks(d.(log := d.log[name := a]), e.(log := e.log[name := b]))
  {
    hide AlikeEntry;
    var d', e' := d.(log := d.log[name := a]), e.(log := e.log[name := b]);
    forall key
      ensures AlikeAt(d', e', key)
    {
      assert AlikeAt(d, e, key);
    }
  }

  lemma NoneAlike(key: string)
    ensures AlikeEntry(key, None, None)
  {
  }

  lemma AlikeRefresh<V>(d: Disk<V>, e: Disk<V>, x: Part<V>, t: Tree<V>)
    requires AlikeDisks(d, e) && (x.HeldLeaf? || x.Held?) && !t.Absent? && x.key == t.key && x.hash == t.hash
    ensures x.key in d.log <==> t.key in e.log
    ensures x.key in d.log ==> AlikeDisks(RefreshPart(d, x), Refresh(e, t))
  {
    assert AlikeAt(d, e, x.key);
    if x.key in d.log {
      forall key
        ensures AlikeAt(RefreshPart(d, x), Refresh(e, t), key)
      {
        assert AlikeAt(d, e, key);
      }
    }
  }

  lemma HeldSame<V>(st: Disk<V>, x: Part<V>, t: Tree<V>)
    requires x.Held? && Shows(st, x, t)
    ensures SameNode(x, t)
  {
    SameRecord(st, x, t);
  }

  /** A leaf: its name has full length and is not that of the root. */
  lemma LeafSame<V>(st: Disk<V>, x: Part<V>, t: Tree<V>)
    requires x.HeldLeaf? && Shows(st, x, t) && |t.key| == KEY_LENGTH && t.key != ROOT_KEY
    ensures SameNode(x, t)
  {
  }

  lemma NodeSame<V>(st: Disk<V>, e: Disk<V>, x: Part<V>, t: Tree<V>, p: Path)
    requires (x.HeldLeaf? || x.Held?) && Shows(st, x, t) && NodeOk(t, p) && Kept(e, t, true)
    ensures SameNode(x, t)
  {
    if x.Held? { HeldSame(st, x, t); } else { LeafSame(st, x, t); }
  }

  lemma NewLeafSame<V>(p: Path, k: Path, v: V)
    ensures SameNode(HeldLeaf(Hex(p + k), k, v, Zero(), true), NewLeaf(p, k, v))
  {
  }

  lemma {:induction false} InsertLogAlike<V>(st: Disk<V>, x: Part<V>, t: Tree<V>, p: Path, k: Path, v: V, d: Disk<V>,
      e: Disk<V>)
    requires Named(st) && x.Held? && Shows(st, x, t) && KidsOk(t.kids, p) && Kept(e, t, true) && AlikeDisks(d, e)
    ensures AlikeDisks(LogInsertPart(st, x, p, k, v, d), LogInsert(t, p, k, v, e))
    decreases |k|
  {
    hide Named, NodeOk, AlikeDisks, SameNode, PutPart, Put, InsertPart, InsertBranch, Split, SplitPart, Common, Kept;
    if k != [] && k[0] < |x.kids| {
      InsertShows(st, x, t, p, k, v);
      var r, s := InsertPart(st, x, p, k, v).value, InsertBranch(t, p, k, v);
      HeldSame(st, r, s);
      var i := k[0];
      UsedSlot(st, x.kids[i], t.kids[i]);
      if x.kids[i].Free? {
        AlikePut(d, e, r, s);
        NewLeafSame(p, k, v);
        AlikePut(PutPart(d, r), Put(e, s), HeldLeaf(Hex(p + k), k, v, Zero(), true), NewLeaf(p, k, v));
      } else {
        FetchShows(st, x.kids[i], t.kids[i]);
        var y, u := Fetch(st, x.kids[i]).value, t.kids[i];
        KeptParts(e, t, true);
        ShownSub(st, y, u);
        KidOk(t.kids, p, i);
        var c := Common(y.sub, k);
        if c < |k| && c < |y.sub| {
          SplitLogAlike(st, y, u, p, c, k, v, d, e, r, s);
        } else if c < |k| && y.Held? {
          BelowOk(u, p);
          InsertLogAlike(st, y, u, p + u.sub, k[c..], v, d, e);
        }
      }
    }
  }

  lemma ShownSub<V>(st: Disk<V>, x: Part<V>, t: Tree<V>)
    requires Shows(st, x, t) && (x.HeldLeaf? || x.Held?)
    ensures !t.Absent? && x.sub == t.sub && x.key == t.key && (x.HeldLeaf? <==> t.Leaf?)
  {
  }

  lemma KidOk<V>(kids: seq<Tree<V>>, p: Path, i: nat)
    requires KidsOk(kids, p) && i < |kids| && !kids[i].Absent?
    ensures NodeOk(kids[i], p) && kids[i].sub != [] && kids[i].sub[0] == i
  {
  }

  lemma BelowOk<V>(t: Tree<V>, p: Path)
    requires NodeOk(t, p) && t.Branch?
    ensures KidsOk(t.kids, p + t.sub)
  {
  }

  lemma SplitLogAlike<V>(st: Disk<V>, y: Part<V>, u: Tree<V>, p: Path, c: nat, k: Path, v: V, d: Disk<V>, e: Disk<V>,
      r: Part<V>, s: Tree<V>)
    requires (y.HeldLeaf? || y.Held?) && Shows(st, y, u) && NodeOk(u, p) && Kept(e, u, true) && AlikeDisks(d, e)
    requires 0 < c < |y.sub| && c < |k| && y.sub[..c] == k[..c]
    requires (r.HeldLeaf? || r.Held?) && !s.Absent? && SameNode(r, s)
    ensures var lower, low := y.(sub := y.sub[c..]), u.(sub := u.sub[c..]);
      var part, tree := SplitPart(y, p, c, k, v), Split(u, p, c, k, v);
      var leaf := HeldLeaf(Hex(p + k), k[c..], v, Zero(), true);
      && tree.Branch?
      && AlikeDisks(PutPart(PutPart(PutPart(PutPart(d, lower), part), r), leaf),
                    Put(Put(Put(Put(e, low), tree), s), NewLeaf(p + k[..c], k[c..], v)))
  {
    hide NodeOk, AlikeDisks, SameNode, PutPart, Put;
    ShownSub(st, y, u);
    var lower, low := y.(sub := y.sub[c..]), u.(sub := u.sub[c..]);
    var part, tree := SplitPart(y, p, c, k, v), Split(u, p, c, k, v);
    LowerSame(st, e, y, u, p, c);
    SplitShows(st, y, u, p, c, k, v);
    HeldSame(st, part, tree);
    assert (p + k[..c]) + k[c..] == p + k;
    NewLeafSame(p + k[..c], k[c..], v);
    AlikePut(d, e, lower, low);
    var d1, e1 := PutPart(d, lower), Put(e, low);
    AlikePut(d1, e1, part, tree);
    var d2, e2 := PutPart(d1, part), Put(e1, tree);
    AlikePut(d2, e2, r, s);
    AlikePut(PutPart(d2, r), Put(e2, s), HeldLeaf(Hex(p + k), k[c..], v, Zero(), true), NewLeaf(p + k[..c], k[c..], v));
  }

  lemma LowerSame<V>(st: Disk<V>, e: Disk<V>, y: Part<V>, u: Tree<V>, p: Path, c: nat)
    requires (y.HeldLeaf? || y.Held?) && Shows(st, y, u) && NodeOk(u, p) && Kept(e, u, true) && c < |y.sub|
      && |y.sub| == |u.sub|
    ensures SameNode(y.(sub := y.sub[c..]), u.(sub := u.sub[c..]))
  {
    var lower, low := y.(sub := y.sub[c..]), u.(sub := u.sub[c..]);
    assert Shows(st, lower, low);
    if y.Held? { HeldSame(st, lower, low); } else { LeafSame(st, lower, low); }
  }

  lemma MergesAlike<V>(st: Disk<V>, x: Part<V>, t: Tree<V>, k: Path)
    requires Named(st) && x.Held? && Shows(st, x, t)
    ensures MergesPart(st, x, k) <==> Merges(t, k)
  {
    if k != [] && k[0] < |x.kids| {
      var i := k[0];
      FetchShows(st, x.kids[i], t.kids[i]);
      ShowsWith(st, x.kids, t.kids, i, Free, Absent);
      SameCounts(st, x.kids[i := Free], t.kids[i := Absent]);
    }
  }

  lemma {:induction false} EraseLogAlike<V>(st: Disk<V>, x: Part<V>, t: Tree<V>, p: Path, k: Path, isRoot: bool,
      d: Disk<V>,
      e: Disk<V>)
    requires Named(st) && x.Held? && Shows(st, x, t) && KidsOk(t.kids, p) && Kept(e, t, true) && AlikeDisks(d, e)
    requires isRoot || (|t.sub| <= |p| && NodeOk(t, p[..|p| - |t.sub|]) && p == p[..|p| - |t.sub|] + t.sub)
    ensures AlikeDisks(LogErasePart(st, x, k, isRoot, d), LogErase(t, k, isRoot, e))
    decreases |k|
  {
    hide Named, NodeOk, KidsOk, AlikeDisks, SameNode, PutPart, Put, DeletePart, Delete, ErasePart, EraseBranch, Kept,
         Merges,
         MergesPart;
    if k != [] && k[0] < |x.kids| {
      var i := k[0];
      UsedSlot(st, x.kids[i], t.kids[i]);
      if !x.kids[i].Free? {
        FetchShows(st, x.kids[i], t.kids[i]);
        EraseShows(st, x, t, p, k, isRoot);
        var y, u := Fetch(st, x.kids[i]).value, t.kids[i];
        var r, s := ErasePart(st, x, k, isRoot).value, EraseBranch(t, k, isRoot);
        KeptParts(e, t, true);
        KidOk(t.kids, p, i);
        ShownSub(st, y, u);
        if y.HeldLeaf? {
          EraseLeafLogAlike(st, x, t, p, k, isRoot, d, e);
        } else if |y.sub| < |k| {
          var rest := k[|y.sub|..];
          BelowOk(u, p);
          assert (p + u.sub)[..|p + u.sub| - |u.sub|] == p;
          EraseLogAlike(st, y, u, p + u.sub, rest, false, d, e);
          EraseDeepLogAlike(st, x, t, p, k, isRoot, d, e);
        }
      }
    }
  }

  lemma EraseDeepLogAlike<V>(st: Disk<V>, x: Part<V>, t: Tree<V>, p: Path, k: Path, isRoot: bool, d: Disk<V>,
      e: Disk<V>)
    requires Named(st) && x.Held? && Shows(st, x, t) && KidsOk(t.kids, p)
    requires k != [] && k[0] < |x.kids| && !x.kids[k[0]].Free? && t.kids[k[0]].Branch? && |t.kids[k[0]].sub| < |k|
    requires var kid := Fetch(st, x.kids[k[0]]);
      && kid.Some? && kid.value.Held? && kid.value.sub == t.kids[k[0]].sub != [] && Shows(st, kid.value, t.kids[k[0]])
      && var rest := k[|kid.value.sub|..];
         AlikeDisks(LogErasePart(st, kid.value, rest, false, d), LogErase(t.kids[k[0]], rest, false, e))
    ensures AlikeDisks(LogErasePart(st, x, k, isRoot, d), LogErase(t, k, isRoot, e))
  {
    hide Named, NodeOk, KidsOk, AlikeDisks, SameNode, PutPart, Put, ErasePart, EraseBranch, LogErase, Merges,
         MergesPart;
    var y, u := Fetch(st, x.kids[k[0]]).value, t.kids[k[0]];
    var rest := k[|y.sub|..];
    EraseShows(st, x, t, p, k, isRoot);
    var r, s := ErasePart(st, x, k, isRoot).value, EraseBranch(t, k, isRoot);
    MergesAlike(st, y, u, rest);
    DeepErased(st, x, k, isRoot);
    EraseDeeper(t, k, isRoot, e);
    HeldSame(st, r, s);
    AlikePut(LogErasePart(st, y, rest, false, d), LogErase(u, rest, false, e), r, s);
  }

  lemma EraseLeafLogAlike<V>(st: Disk<V>, x: Part<V>, t: Tree<V>, p: Path, k: Path, isRoot: bool, d: Disk<V>,
      e: Disk<V>)
    requires Named(st) && x.Held? && Shows(st, x, t) && KidsOk(t.kids, p) && Kept(e, t, true) && AlikeDisks(d, e)
    requires isRoot || (|t.sub| <= |p| && NodeOk(t, p[..|p| - |t.sub|]) && p == p[..|p| - |t.sub|] + t.sub)
    requires k != [] && k[0] < |x.kids| && !x.kids[k[0]].Free? && t.kids[k[0]].Leaf?
    ensures AlikeDisks(LogErasePart(st, x, k, isRoot, d), LogErase(t, k, isRoot, e))
  {
    hide Named, NodeOk, KidsOk, AlikeDisks, SameNode, PutPart, Put, DeletePart, Delete, ErasePart, EraseBranch, Kept,
         Merges, MergesPart;
    var i := k[0];
    FetchShows(st, x.kids[i], t.kids[i]);
    EraseShows(st, x, t, p, k, isRoot);
    var y, u := Fetch(st, x.kids[i]).value, t.kids[i];
    var r, s := ErasePart(st, x, k, isRoot).value, EraseBranch(t, k, isRoot);
    KeptParts(e, t, true);
    KidOk(t.kids, p, i);
    ShownSub(st, y, u);
    NodeSame(st, e, y, u, p);
    MergesAlike(st, x, t, k);
    AlikePut(d, e, y, u);
    var gone, gone' := DeletePart(d, y), Delete(e, u);
    if isRoot {
      HeldSame(st, r, s);
      AlikePut(gone, gone', r, s);
    } else if Merges(t, k) {
      MergeLog(t, p[..|p| - |t.sub|], k, e);
      MergedSame(st, e, x, t, p[..|p| - |t.sub|], k, r, s);
      HeldSame(st, x, t);
      AlikePut(gone, gone', x, t);
      AlikePut(DeletePart(gone, x), Delete(gone', t), r, s);
    }
  }

  lemma DeepErased<V>(st: Disk<V>, x: Part<V>, k: Path, isRoot: bool)
    requires x.Held? && k != [] && k[0] < |x.kids| && !x.kids[k[0]].Free?
    requires Fetch(st, x.kids[k[0]]).Some? && Fetch(st, x.kids[k[0]]).value.Held?
    ensures ErasePart(st, x, k, isRoot).Some? ==> ErasePart(st, x, k, isRoot).value.Held?
  {
  }

  /** The last brother, moved up: it is loaded, and its record is the same. */
  lemma MergedSame<V>(st: Disk<V>, e: Disk<V>, x: Part<V>, t: Tree<V>, p: Path, k: Path, r: Part<V>, s: Tree<V>)
    requires Named(st) && x.Held? && Shows(st, x, t) && NodeOk(t, p) && Kept(e, t, true) && Merges(t, k)
    requires ErasePart(st, x, k, false) == Some(r) && s == EraseBranch(t, k, false) && Shows(st, r, s)
    ensures SameNode(r, s)
  {
    MergeLog(t, p, k, e);
    MergesAlike(st, x, t, k);
    FetchedLast(st, x, k, r);
    var rest := t.kids[k[0] := Absent];
    var last := rest[First(rest)];
    assert s == last.(sub := t.sub + last.sub, modified := true) && Kept(e, last, true);
    if r.Held? {
      HeldSame(st, r, s);
    } else {
      UsedSlot(st, r, s);
      LeafName64(e, last, t, p, First(rest));
      LeafSame(st, r, s);
    }
  }

  lemma LeafName64<V>(e: Disk<V>, leaf: Tree<V>, t: Tree<V>, p: Path, i: nat)
    requires t.Branch? && NodeOk(t, p) && i < |t.kids| && leaf == t.kids[i] && leaf.Leaf? && Kept(e, leaf, true)
    ensures |leaf.key| == KEY_LENGTH && leaf.key != ROOT_KEY
  {
  }

  lemma FetchedLast<V>(st: Disk<V>, x: Part<V>, k: Path, r: Part<V>)
    requires x.Held? && MergesPart(st, x, k) && ErasePart(st, x, k, false) == Some(r)
    ensures !r.Stub?
  {
  }

  lemma {:induction false} HashLogAlike<V>(hs: Hashing<V>, st: Disk<V>, x: Part<V>, t: Tree<V>, d: Disk<V>, e: Disk<V>)
    requires Named(st) && Shows(st, x, t) && AlikeDisks(d, e)
    ensures AlikeDisks(LogHashPart(hs, st, x, d), LogHash(hs, t, e))
    decreases x, 1
  {
    hide Named, AlikeDisks, SameNode, RefreshPart, Refresh, PutPart, Put, RehashKids, CachedSum, LogHashParts,
         LogHashKids;
    HashShows(hs, st, x, t);
    HashedLeaf(hs, st, x, t);
    var r, s := HashPart(hs, st, x).value, RehashKid(hs, t);
    if x.Held? {
      if x.modified {
        HashLogsAlike(hs, st, x.kids, t.kids, d, e);
        var d1, e1 := LogHashParts(hs, st, x.kids, d), LogHashKids(hs, t.kids, e);
        HeldSame(st, r, s);
        AlikePut(d1, e1, r, s);
        AlikeRefresh(d1, e1, r, s);
      }
    } else if r.HeldLeaf? {
      ShownSub(st, r, s);
      AlikeRefresh(d, e, r, s);
      FetchKind(st, x, t);
    } else {
      FetchKind(st, x, t);
    }
  }

  /** What is loaded now is unmarked, and a leaf exactly if the whole trie has one there. */
  lemma FetchKind<V>(st: Disk<V>, x: Part<V>, t: Tree<V>)
    requires Named(st) && Shows(st, x, t)
    ensures x.Stub? ==> Fetch(st, x).Some? && (Fetch(st, x).value.HeldLeaf? <==> t.Leaf?) && (t.Branch? ==> !t.modified)
  {
    FetchShows(st, x, t);
  }

  lemma {:induction false} HashLogsAlike<V>(hs: Hashing<V>, st: Disk<V>, kids: seq<Part<V>>, whole: seq<Tree<V>>,
      d: Disk<V>,
      e: Disk<V>)
    requires Named(st) && ShowsAll(st, kids, whole) && AlikeDisks(d, e)
    ensures AlikeDisks(LogHashParts(hs, st, kids, d), LogHashKids(hs, whole, e))
    decreases kids, 0
  {
    hide Named, AlikeDisks, Shows, LogHashPart, LogHash;
    if kids != [] {
      var n := |kids| - 1;
      HashLogsAlike(hs, st, kids[..n], whole[..n], d, e);
      HashLogAlike(hs, st, kids[n], whole[n], LogHashParts(hs, st, kids[..n], d), LogHashKids(hs, whole[..n], e));
    }
  }

  /** What the whole trie's disk describes, the part's disk describes. */
  lemma {:induction false} KeptAlike<V>(d: Disk<V>, e: Disk<V>, t: Tree<V>, p: Path)
    requires AlikeDisks(d, e) && Kept(e, t, true) && !t.Absent? && NodeOk(t, p)
    ensures Kept(d, t, true)
    decreases t, 1
  {
    assert AlikeAt(d, e, t.key);
    if t.Branch? {
      BelowOk(t, p);
      KidsKeptAlike(d, e, t, p + t.sub);
    }
  }

  lemma {:induction false} KidsKeptAlike<V>(d: Disk<V>, e: Disk<V>, t: Tree<V>, p: Path)
    requires AlikeDisks(d, e) && Kept(e, t, true) && t.Branch? && KidsOk(t.kids, p)
    ensures forall i | 0 <= i < |t.kids| :: Kept(d, t.kids[i], true)
    decreases t, 0
  {
    forall i | 0 <= i < |t.kids|
      ensures Kept(d, t.kids[i], true)
    {
      if !t.kids[i].Absent? { KeptAlike(d, e, t.kids[i], p); }
    }
  }

  lemma RootKeptAlike<V>(d: Disk<V>, e: Disk<V>, t: Tree<V>)
    requires AlikeDisks(d, e) && Kept(e, t, true) && RootOk(t)
    ensures Kept(d, t, true)
  {
    hide KidsOk, NodeOk;
    assert AlikeAt(d, e, t.key);
    KidsKeptAlike(d, e, t, []);
  }

  lemma NamedAlike<V>(d: Disk<V>, e: Disk<V>)
    requires AlikeDisks(d, e) && Named(e)
    ensures Named(d)
  {
    forall key | At(d, key).Some?
      ensures At(d, key).value.key == key
    {
      assert AlikeAt(d, e, key);
    }
  }

  lemma SavedAlike<V>(d: Disk<V>, e: Disk<V>)
    requires AlikeDisks(d, e)
    ensures AlikeDisks(Saved(d), Saved(e))
  {
    forall key
      ensures AlikeAt(Saved(d), Saved(e), key)
    {
      assert AlikeAt(d, e, key);
      SavedAt(d, key);
      SavedAt(e, key);
    }
  }

  /** An operation, or the writing of the log. */
  datatype Event<V> = Do(op: Op<V>) | Commit

  function Written<V>(hs: Hashing<V>, s: Session<V>): Session<V>
    requires s.trie.Branch?
  {
    var done := Act(hs, s, HashOp);
    done.(disk := Saved(done.disk))
  }

  function SessionStep<V>(hs: Hashing<V>, s: Session<V>, e: Event<V>): (r: Session<V>)
    requires s.trie.Branch?
    ensures r.trie.Branch?
  {
    if e.Do? then Act(hs, s, e.op) else Written(hs, s)
  }

  function SessionRun<V>(hs: Hashing<V>, s: Session<V>, events: seq<Event<V>>): (r: Session<V>)
    requires s.trie.Branch?
    ensures r.trie.Branch?
  {
    if events == [] then s else SessionStep(hs, SessionRun(hs, s, events[..|events| - 1]), events[|events| - 1])
  }

  /** A partly loaded trie, the stores it loads from, and these with the log and accounts written since. */
  datatype Lazily<V> = Lazily(part: Part<V>, stores: Disk<V>, disk: Disk<V>)

  /** What an operation on a partly loaded trie writes. */
  function WritePart<V>(hs: Hashing<V>, y: Lazily<V>, op: Op<V>): Disk<V>
    requires y.part.Held?
  {
    var st, d := y.stores, y.disk;
    if op.HashOp? then LogHashPart(hs, st, y.part, d)
    else
      var f := FindPart(st, y.part.kids, op.k);
      if f.None? then d
      else
        var x := y.part.(kids := f.value.kids);
        match op
        case InsertOp(k, v) =>
          if f.value.value.Some? then d
          else LogInsertPart(st, x, [], k, v, d).(accounts := d.accounts[Hex(k) := v])
        case UpdateOp(k, v) => if f.value.value.Some? then d.(accounts := d.accounts[Hex(k) := v]) else d
        case EraseOp(k) => if f.value.value.Some? then LogErasePart(st, x, k, true, d) else d
  }

  /** Writing the log hashes the trie and changes the stores; what is not loaded stays so. */
  function LazyStep<V>(hs: Hashing<V>, y: Lazily<V>, e: Event<V>): Option<Lazily<V>>
  {
    if !y.part.Held? then None
    else
      var op := if e.Do? then e.op else HashOp;
      var part, disk := StepPart(hs, y.stores, y.part, op), WritePart(hs, y, op);
      if part.None? then None
      else if e.Do? then Some(Lazily(part.value, y.stores, disk))
      else Some(Lazily(part.value, Saved(disk), Saved(disk)))
  }

  function LazyRun<V>(hs: Hashing<V>, y: Lazily<V>, events: seq<Event<V>>): Option<Lazily<V>>
  {
    if events == [] then Some(y)
    else
      var before := LazyRun(hs, y, events[..|events| - 1]);
      if before.None? then None else LazyStep(hs, before.value, events[|events| - 1])
  }

  ghost predicate EventsRecorded<V>(hs: Hashing<V>, s: Session<V>, events: seq<Event<V>>)
    requires s.trie.Branch?
  {
    forall i | 0 <= i < |events| && events[i].Do? :: Recorded(SessionRun(hs, s, events[..i]), events[i].op)
  }

  /** The part in memory and the stores stand for the trie of the session, and what has been written since
      is what the session has written. */
  ghost predicate InStep<V>(hs: Hashing<V>, y: Lazily<V>, s: Session<V>)
  {
    && Sound(hs, s) && Named(s.disk) && Named(y.stores) && AlikeDisks(y.disk, s.disk)
    && y.part.Held? && Shows(y.stores, y.part, s.trie)
  }

  lemma WritesAlike<V>(hs: Hashing<V>, y: Lazily<V>, s: Session<V>, op: Op<V>)
    requires InStep(hs, y, s) && s.trie.Branch?
    ensures AlikeDisks(WritePart(hs, y, op), Act(hs, s, op).disk)
  {
    hide Named, AlikeDisks, Kept, KidsOk, Coherent, Step, LogInsertPart, LogInsert, LogErasePart, LogErase,
         LogHashPart, LogHash,
         LookupKids, Hex, FindPart;
    var st, d, t := y.stores, y.disk, s.trie;
    if op.HashOp? {
      HashLogAlike(hs, st, y.part, t, d, s.disk);
    } else {
      FindShows(st, y.part.kids, t.kids, [], op.k);
      var x := y.part.(kids := FindPart(st, y.part.kids, op.k).value.kids);
      match op
      case InsertOp(k, v) =>
        InsertLogAlike(st, x, t, [], k, v, d, s.disk);
        WithAccount(LogInsertPart(st, x, [], k, v, d), LogInsert(t, [], k, v, s.disk), d, s.disk, Hex(k), v);
      case UpdateOp(k, v) => WithAccount(d, s.disk, d, s.disk, Hex(k), v);
      case EraseOp(k) => EraseLogAlike(st, x, t, [], k, true, d, s.disk);
    }
  }

  lemma WithAccount<V>(d: Disk<V>, e: Disk<V>, d0: Disk<V>, e0: Disk<V>, key: string, v: V)
    requires AlikeDisks(d, e) && AlikeDisks(d0, e0)
    ensures AlikeDisks(d.(accounts := d0.accounts[key := v]), e.(accounts := e0.accounts[key := v]))
  {
    hide AlikeEntry;
    var d', e' := d.(accounts := d0.accounts[key := v]), e.(accounts := e0.accounts[key := v]);
    forall x
      ensures AlikeAt(d', e', x)
    {
      assert AlikeAt(d, e, x);
    }
  }

  lemma StaysInStep<V>(hs: Hashing<V>, y: Lazily<V>, s: Session<V>, e: Event<V>)
    requires InStep(hs, y, s) && s.trie.Branch? && (e.Do? ==> Recorded(s, e.op))
    ensures LazyStep(hs, y, e).Some? && InStep(hs, LazyStep(hs, y, e).value, SessionStep(hs, s, e))
  {
    hide Named, AlikeDisks, Kept, KidsOk, Coherent, StepPart, WritePart, Shows, Act, Step, Saved, Erasable, Hex,
         Reload, ComesBack,
         RehashBranch;
    var op := if e.Do? then e.op else HashOp;
    StepShows(hs, y.stores, y.part, s.trie, op);
    WritesAlike(hs, y, s, op);
    ActNamed(hs, s, op);
    ActStep(hs, s, op);
    if e.Do? {
      ActSound(hs, s, e.op);
    } else {
      var done := Act(hs, s, HashOp);
      SoundComesBack(hs, s);
      SavedNamed(done.disk);
      GetHashCorrect(hs, s.trie);
      HashStep(hs, s);
      CommitShows(hs, y, Written(hs, s), WritePart(hs, y, HashOp), done.disk,
        StepPart(hs, y.stores, y.part, HashOp).value);
    }
  }

  lemma ActStep<V>(hs: Hashing<V>, s: Session<V>, op: Op<V>)
    requires s.trie.Branch?
    ensures Act(hs, s, op).trie == Step(hs, s.trie, op)
  {
  }

  lemma CommitShows<V>(hs: Hashing<V>, y: Lazily<V>, s: Session<V>, d: Disk<V>, e: Disk<V>, x: Part<V>)
    requires Sound(hs, s) && Clean(s.trie) && x.Held? && Shows(y.stores, x, s.trie)
    requires s.disk == Saved(e) && AlikeDisks(d, e) && Named(s.disk)
    ensures AlikeDisks(Saved(d), s.disk) && Named(Saved(d)) && Shows(Saved(d), x, s.trie)
  {
    hide Kept, KidsOk, Coherent, AlikeDisks, Saved, Named;
    SavedAlike(d, e);
    NamedAlike(Saved(d), s.disk);
    RootKeptAlike(Saved(d), s.disk, s.trie);
    NewStoresShowKids(y.stores, Saved(d), x.kids, s.trie, []);
  }

  /** Whatever is done and whenever the log is written, recorded operations on a partly loaded trie
      succeed, write what the session writes, and leave the part in memory of the trie they leave on the
      whole, over the stores as they then are; so every search answers alike. */
  lemma {:induction false} LazyRunsInStep<V>(hs: Hashing<V>, y: Lazily<V>, s: Session<V>, events: seq<Event<V>>)
    requires InStep(hs, y, s) && s.trie.Branch? && EventsRecorded(hs, s, events)
    ensures var r, w := LazyRun(hs, y, events), SessionRun(hs, s, events);
      && r.Some? && InStep(hs, r.value, w) && r.value.part.Held?
      && forall k: Key ::
           var f := FindPart(r.value.stores, r.value.part.kids, k); f.Some? && f.value.value == Lookup(w.trie, k)
  {
    hide LazyStep, SessionStep, Recorded, FindPart, LookupKids, InStep;
    if events != [] {
      var n := |events| - 1;
      forall i | 0 <= i < n && events[..n][i].Do?
        ensures Recorded(SessionRun(hs, s, events[..n][..i]), events[..n][i].op)
      {
        assert events[..n][..i] == events[..i];
      }
      LazyRunsInStep(hs, y, s, events[..n]);
      StaysInStep(hs, LazyRun(hs, y, events[..n]).value, SessionRun(hs, s, events[..n]), events[n]);
    }
    var r, w := LazyRun(hs, y, events).value, SessionRun(hs, s, events);
    IsHeld(hs, r, w);
    forall k: Key
      ensures var f := FindPart(r.stores, r.part.kids, k); f.Some? && f.value.value == Lookup(w.trie, k)
    {
      SameAnswer(hs, r, w, k);
    }
  }

  lemma IsHeld<V>(hs: Hashing<V>, y: Lazily<V>, s: Session<V>)
    requires InStep(hs, y, s)
    ensures y.part.Held? && s.trie.Branch?
  {
  }

  lemma SameAnswer<V>(hs: Hashing<V>, y: Lazily<V>, s: Session<V>, k: Key)
    requires InStep(hs, y, s)
    ensures y.part.Held? && s.trie.Branch?
    ensures var f := FindPart(y.stores, y.part.kids, k); f.Some? && f.value.value == Lookup(s.trie, k)
  {
    hide Named, Kept, FindPart, LookupKids;
    FindShows(y.stores, y.part.kids, s.trie.kids, [], k);
  }

  /** A trie opened from the stores starts in step. */
  lemma OpensInStep<V>(hs: Hashing<V>, s: Session<V>)
    requires Sound(hs, s) && s.trie.Branch? && Named(s.disk)
    ensures var d := Saved(Act(hs, s, HashOp).disk);
      && Reload(hs, s).Some? && OpenRoot(d).Some?
      && InStep(hs, Lazily(OpenRoot(d).value, d, d), Session(Reload(hs, s).value, d))
  {
    hide Named, Sound, Act, Shows, Saved, OpenRoot, LoadRoot, AlikeDisks;
    SoundComesBack(hs, s);
    ActNamed(hs, s, HashOp);
    SavedNamed(Act(hs, s, HashOp).disk);
    OpenShows(Saved(Act(hs, s, HashOp).disk));
    AlikeItself(Saved(Act(hs, s, HashOp).disk));
  }

  lemma AlikeItself<V>(d: Disk<V>)
    ensures AlikeDisks(d, d)
  {
    forall key
      ensures AlikeAt(d, d, key)
    {
    }
  }

  // ---- searching again ----

  /** A search loads every node it passes: the same search afterwards needs no store, whatever the stores
      hold by then, answers alike and loads nothing. */
  lemma {:induction false} FindLoadsItsPath<V>(d: Disk<V>, d': Disk<V>, kids: seq<Part<V>>, k: Path)
    requires FindPart(d, kids, k).Some?
    ensures var f := FindPart(d, kids, k).value; FindPart(d', f.kids, k) == Some(f)
    decreases |k|
  {
    if k != [] && k[0] < |kids| && !kids[k[0]].Free? {
      var x := Fetch(d, kids[k[0]]).value;
      hide Fetch;
      LoadedOnce(d', x);
      if x.Held? && |x.sub| < |k| && x.sub == k[..|x.sub|] {
        FindLoadsItsPath(d, d', x.kids, k[|x.sub|..]);
        var y := x.(kids := FindPart(d, x.kids, k[|x.sub|..]).value.kids);
        LoadedOnce(d', y);
        assert kids[k[0] := y][k[0] := y] == kids[k[0] := y];
      } else {
        assert kids[k[0] := x][k[0] := x] == kids[k[0] := x];
      }
    }
  }

  lemma LoadedOnce<V>(d: Disk<V>, x: Part<V>)
    requires !x.Stub?
    ensures Fetch(d, x) == Some(x)
  {
  }
}
