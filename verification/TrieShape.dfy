/**
 Every operation keeps the shape of the trie and changes exactly the one key it is asked to change.
 */
module TrieShape {
  import opened Options
  import opened Uint256
  import opened TrieModel

  // ---- child tables ----

  lemma {:induction false} CountUpdate<V>(kids: seq<Tree<V>>, i: nat, t: Tree<V>)
    requires i < |kids|
    ensures Count(kids[i := t]) ==
            Count(kids) - (if kids[i].Absent? then 0 else 1) + (if t.Absent? then 0 else 1)
  {
    var n := |kids| - 1;
    if i == n {
      assert kids[i := t][..n] == kids[..n];
    } else {
      assert kids[i := t][..n] == kids[..n][i := t];
      CountUpdate(kids[..n], i, t);
    }
  }

  lemma {:induction false} CountNone<V>(kids: seq<Tree<V>>)
    requires forall i | 0 <= i < |kids| :: kids[i].Absent?
    ensures Count(kids) == 0
  {
    if kids != [] { CountNone(kids[..|kids| - 1]); }
  }

  lemma {:induction false} CountSome<V>(kids: seq<Tree<V>>) returns (i: nat)
    requires Count(kids) >= 1
    ensures i < |kids| && !kids[i].Absent?
  {
    if kids[|kids| - 1].Absent? { i := CountSome(kids[..|kids| - 1]); } else { i := |kids| - 1; }
  }

  lemma CountTwo<V>(kids: seq<Tree<V>>) returns (i: nat, j: nat)
    requires Count(kids) >= 2
    ensures i < |kids| && j < |kids| && i != j && !kids[i].Absent? && !kids[j].Absent?
  {
    i := CountSome(kids);
    CountUpdate(kids, i, Absent);
    j := CountSome(kids[i := Absent]);
  }

  /** With one slot in use, `first()` finds that slot and every other slot is empty. */
  lemma CountOne<V>(kids: seq<Tree<V>>)
    requires Count(kids) == 1
    ensures First(kids) < |kids|
    ensures forall i | 0 <= i < |kids| :: !kids[i].Absent? <==> i == First(kids)
  {
    var f := CountSome(kids);
    var g := First(kids);
    forall i | 0 <= i < |kids| && !kids[i].Absent? && i != g
      ensures false
    {
      CountUpdate(kids, i, Absent);
      CountUpdate(kids[i := Absent], g, Absent);
    }
  }

  // ---- insert ----

  lemma CutOk<V>(t: Tree<V>, p: Path, c: nat)
    requires NodeOk(t, p) && c < |t.sub|
    ensures NodeOk(t.(sub := t.sub[c..]), p + t.sub[..c])
  {
    assert p + t.sub == (p + t.sub[..c]) + t.sub[c..];
  }

  lemma PairCount<V>(i: Nibble, a: Tree<V>, j: Nibble, b: Tree<V>)
    requires i != j && !a.Absent? && !b.Absent?
    ensures Count(NoKids<V>()[i := a][j := b]) == 2
  {
    CountNone(NoKids<V>());
    CountUpdate(NoKids<V>(), i, a);
    CountUpdate(NoKids<V>()[i := a], j, b);
  }

  lemma SplitOk<V>(t: Tree<V>, p: Path, c: nat, k: Path, v: V)
    requires NodeOk(t, p) && |p| + |k| == KEY_LENGTH
    requires 0 < c < |t.sub| && c < |k| && t.sub[..c] == k[..c] && t.sub[c] != k[c]
    ensures NodeOk(Split(t, p, c, k, v), p)
  {
    hide Count;
    var leaf, lower := NewLeaf(p + k[..c], k[c..], v), t.(sub := t.sub[c..]);
    CutOk(t, p, c);
    PairCount(k[c], leaf, t.sub[c], lower);
    assert NodeOk(leaf, p + k[..c]);
  }

  lemma {:induction false} InsertNodeOk<V>(t: Tree<V>, p: Path, k: Path, v: V)
    requires NodeOk(t, p) && |p| + |k| == KEY_LENGTH && k != [] && k[0] == t.sub[0]
    requires LookupNode(t, k) == None
    ensures var r := InsertNode(t, p, k, v); NodeOk(r, p) && r.sub[0] == t.sub[0]
    decreases t, 1
  {
    var c := Common(t.sub, k);
    assert t.sub == t.sub[..|t.sub|] && k == k[..|k|] && c >= 1;
    if c < |t.sub| && c < |k| {
      SplitOk(t, p, c, k, v);
    } else if t.Leaf? {
    } else {
      assert t.sub[..c] == t.sub;
      InsertBranchOk(t, p + t.sub, k[c..], v);
    }
  }

  /** Inserting an absent key below a branch keeps every child in shape and empties no slot. */
  lemma {:induction false} InsertBranchOk<V>(t: Tree<V>, p: Path, k: Path, v: V)
    requires t.Branch? && KidsOk(t.kids, p) && |p| + |k| == KEY_LENGTH && k != []
    requires LookupKids(t.kids, k) == None
    ensures var r := InsertBranch(t, p, k, v);
            && r.Branch? && r.key == t.key && r.sub == t.sub
            && KidsOk(r.kids, p) && Count(r.kids) >= Count(t.kids)
    decreases t, 0
  {
    var r := InsertBranch(t, p, k, v);
    if !t.kids[k[0]].Absent? { InsertNodeOk(t.kids[k[0]], p, k, v); }
    CountUpdate(t.kids, k[0], r.kids[k[0]]);
  }

  /** Cutting `c` nibbles off a prefix and off the key searched for leaves the search unchanged. */
  lemma CutLookup<V>(t: Tree<V>, c: nat, q: Path)
    requires !t.Absent? && c < |t.sub| && c <= |q| && t.sub[..c] == q[..c]
    ensures LookupNode(t.(sub := t.sub[c..]), q[c..]) == LookupNode(t, q)
  {
    assert q == q[..c] + q[c..] && t.sub == t.sub[..c] + t.sub[c..];
    if t.Branch? && |t.sub| < |q| {
      assert q[..|t.sub|] == q[..c] + q[c..][..|t.sub| - c];
      assert q[|t.sub|..] == q[c..][|t.sub| - c..];
      assert q[..|t.sub|][c..] == q[c..][..|t.sub| - c];
    }
  }

  lemma Miss<V>(t: Tree<V>, c: nat, q: Path)
    requires !t.Absent? && c <= |t.sub| && c <= |q| && t.sub[..c] != q[..c]
    ensures LookupNode(t, q) == None
  {
    if |t.sub| <= |q| { assert q[..|t.sub|][..c] == q[..c]; }
  }

  lemma SplitLookup<V>(t: Tree<V>, p: Path, c: nat, k: Path, v: V, q: Path)
    requires !t.Absent? && |q| == |k|
    requires 0 < c < |t.sub| && c < |k| && t.sub[..c] == k[..c] && t.sub[c] != k[c]
    ensures LookupNode(Split(t, p, c, k, v), q) == if q == k then Some(v) else LookupNode(t, q)
  {
    var s := Split(t, p, c, k, v);
    if q[..c] != k[..c] {
      Miss(t, c, q);
      Miss(s, c, q);
    } else {
      assert q == q[..c] + q[c..] && k == k[..c] + k[c..];
      assert LookupNode(s, q) == LookupNode(s.kids[q[c]], q[c..]);
      if q[c] == t.sub[c] {
        CutLookup(t, c, q);
      } else {
        assert t.sub[..c + 1][c] != q[..c + 1][c];
        Miss(t, c + 1, q);
      }
    }
  }

  lemma {:induction false} InsertNodeLookup<V>(t: Tree<V>, p: Path, k: Path, v: V, q: Path)
    requires NodeOk(t, p) && |p| + |k| == KEY_LENGTH && k != [] && k[0] == t.sub[0] && |q| == |k|
    requires LookupNode(t, k) == None
    ensures LookupNode(InsertNode(t, p, k, v), q) == if q == k then Some(v) else LookupNode(t, q)
    decreases t, 1
  {
    var c := Common(t.sub, k);
    assert t.sub == t.sub[..|t.sub|] && k == k[..|k|];
    if c < |t.sub| && c < |k| {
      SplitLookup(t, p, c, k, v, q);
    } else if t.Leaf? {
    } else {
      assert t.sub[..c] == t.sub;
      if q[..c] == t.sub {
        assert q == q[..c] + q[c..] && k == k[..c] + k[c..];
        InsertBranchLookup(t, p + t.sub, k[c..], v, q[c..]);
      }
    }
  }

  lemma {:induction false} InsertBranchLookup<V>(t: Tree<V>, p: Path, k: Path, v: V, q: Path)
    requires t.Branch? && KidsOk(t.kids, p) && |p| + |k| == KEY_LENGTH && k != [] && |q| == |k|
    requires LookupKids(t.kids, k) == None
    ensures LookupKids(InsertBranch(t, p, k, v).kids, q) == if q == k then Some(v) else LookupKids(t.kids, q)
    decreases t, 0
  {
    if !t.kids[k[0]].Absent? && q[0] == k[0] { InsertNodeLookup(t.kids[k[0]], p, k, v, q); }
  }

  // ---- in-place update ----

  lemma {:induction false} UpdateBranchOk<V>(t: Tree<V>, p: Path, k: Path, v: V)
    requires t.Branch? && KidsOk(t.kids, p) && |p| + |k| == KEY_LENGTH && k != []
    requires LookupKids(t.kids, k).Some?
    ensures var r := UpdateBranch(t, k, v);
            && r.Branch? && r.key == t.key && r.sub == t.sub
            && KidsOk(r.kids, p) && Count(r.kids) == Count(t.kids)
  {
    var kid := t.kids[k[0]];
    if kid.Branch? { UpdateBranchOk(kid, p + kid.sub, k[|kid.sub|..], v); }
    CountUpdate(t.kids, k[0], UpdateBranch(t, k, v).kids[k[0]]);
  }

  lemma {:induction false} UpdateBranchLookup<V>(t: Tree<V>, p: Path, k: Path, v: V, q: Path)
    requires t.Branch? && KidsOk(t.kids, p) && |p| + |k| == KEY_LENGTH && k != [] && |q| == |k|
    requires LookupKids(t.kids, k).Some?
    ensures LookupKids(UpdateBranch(t, k, v).kids, q) == if q == k then Some(v) else LookupKids(t.kids, q)
  {
    var kid := t.kids[k[0]];
    if kid.Branch? {
      var c := |kid.sub|;
      UpdateBranchOk(kid, p + kid.sub, k[c..], v);
      if q[..c] == k[..c] {
        assert q == q[..c] + q[c..] && k == k[..c] + k[c..];
        UpdateBranchLookup(kid, p + kid.sub, k[c..], v, q[c..]);
      }
    }
  }

  // ---- erase ----

  /** Merging keeps the path to every key below the last child. */
  lemma MergeOk<V>(t: Tree<V>, p: Path, rest: seq<Tree<V>>)
    requires t.Branch? && t.sub != [] && KidsOk(rest, p + t.sub) && Count(rest) == 1
    ensures var r := Merge(t, rest); NodeOk(r, p) && r.sub[0] == t.sub[0]
  {
    var f := First(rest);
    CountOne(rest);
    assert p + (t.sub + rest[f].sub) == (p + t.sub) + rest[f].sub;
  }

  lemma MergeLookup<V>(t: Tree<V>, p: Path, rest: seq<Tree<V>>, q: Path)
    requires t.Branch? && t.sub != [] && KidsOk(rest, p + t.sub) && Count(rest) == 1
    requires |p| + |q| == KEY_LENGTH && |t.sub| < |q|
    ensures LookupNode(Merge(t, rest), q) ==
            if t.sub == q[..|t.sub|] then LookupKids(rest, q[|t.sub|..]) else None
  {
    CountOne(rest);
    var f, c := First(rest), |t.sub|;
    var s := rest[f].sub;
    assert q == q[..c] + q[c..];
    if |s| <= |q| - c {
      assert q[..c + |s|] == q[..c] + q[c..][..|s|];
      assert q[c + |s|..] == q[c..][|s|..];
      assert (t.sub + s)[..c] == t.sub && (t.sub + s)[c..] == s;
    }
    if t.sub == q[..c] && q[c] != f { assert LookupKids(rest, q[c..]) == None; }
    if |t.sub + s| <= |q| && t.sub + s == q[..c + |s|] {
      assert q[..c] == t.sub && q[c..][..|s|] == s;
    }
  }

  lemma {:induction false} EraseBranchOk<V>(t: Tree<V>, p: Path, k: Path, isRoot: bool)
    requires t.Branch? && KidsOk(t.kids, p + t.sub) && |p + t.sub| + |k| == KEY_LENGTH && k != []
    requires LookupKids(t.kids, k).Some?
    requires !isRoot ==> NodeOk(t, p)
    ensures var r := EraseBranch(t, k, isRoot);
            if isRoot then r.Branch? && r.key == t.key && r.sub == t.sub && KidsOk(r.kids, p + t.sub)
            else NodeOk(r, p) && r.sub[0] == t.sub[0]
  {
    var kid := t.kids[k[0]];
    if kid.Leaf? {
      var rest := t.kids[k[0] := Absent];
      CountUpdate(t.kids, k[0], Absent);
      if !isRoot && Count(rest) == 1 { MergeOk(t, p, rest); }
    } else {
      EraseBranchOk(kid, p + t.sub, k[|kid.sub|..], false);
      CountUpdate(t.kids, k[0], EraseBranch(kid, k[|kid.sub|..], false));
    }
  }

  lemma EraseLeafLookup<V>(t: Tree<V>, p: Path, k: Path, isRoot: bool, q: Path)
    requires t.Branch? && KidsOk(t.kids, p + t.sub) && |p + t.sub| + |k| == KEY_LENGTH && k != [] && |q| == |k|
    requires LookupKids(t.kids, k).Some? && t.kids[k[0]].Leaf?
    requires !isRoot ==> t.sub != []
    ensures LookupNode(EraseBranch(t, k, isRoot), t.sub + q) == if q == k then None else LookupKids(t.kids, q)
  {
    var rest := t.kids[k[0] := Absent];
    var tq := t.sub + q;
    assert tq[..|t.sub|] == t.sub && tq[|t.sub|..] == q;
    CountUpdate(t.kids, k[0], Absent);
    assert LookupKids(rest, q) == if q == k then None else LookupKids(t.kids, q);
    if !isRoot && Count(rest) == 1 {
      MergeLookup(t, p, rest, tq);
    } else {
      assert LookupNode(t.(kids := rest, modified := true), tq) == LookupKids(rest, q);
    }
  }

  lemma {:induction false} EraseBranchLookup<V>(t: Tree<V>, p: Path, k: Path, isRoot: bool, q: Path)
    requires t.Branch? && KidsOk(t.kids, p + t.sub) && |p + t.sub| + |k| == KEY_LENGTH && k != [] && |q| == |k|
    requires LookupKids(t.kids, k).Some?
    requires !isRoot ==> NodeOk(t, p)
    ensures LookupNode(EraseBranch(t, k, isRoot), t.sub + q) == if q == k then None else LookupKids(t.kids, q)
  {
    hide Count;
    var kid := t.kids[k[0]];
    var tq := t.sub + q;
    assert tq[..|t.sub|] == t.sub && tq[|t.sub|..] == q;
    if kid.Leaf? {
      EraseLeafLookup(t, p, k, isRoot, q);
    } else if q[0] == k[0] {
      var c := |kid.sub|;
      assert k == k[..c] + k[c..] && q == q[..c] + q[c..];
      EraseBranchOk(kid, p + t.sub, k[c..], false);
      if q[..c] == k[..c] {
        EraseBranchLookup(kid, p + t.sub, k[c..], false, q[c..]);
        assert kid.sub + q[c..] == q;
      } else {
        EraseElsewhere(kid, p + t.sub, k[c..], q);
      }
    }
  }

  /** Erasing below `t` makes no key appear that does not pass through `t`. */
  lemma EraseElsewhere<V>(t: Tree<V>, p: Path, k: Path, q: Path)
    requires t.Branch? && NodeOk(t, p) && |p + t.sub| + |k| == KEY_LENGTH && k != []
    requires LookupKids(t.kids, k).Some? && |t.sub| < |q| && q[..|t.sub|] != t.sub && |p| + |q| == KEY_LENGTH
    ensures LookupNode(EraseBranch(t, k, false), q) == None
  {
    if t.kids[k[0]].Leaf? {
      var rest := t.kids[k[0] := Absent];
      CountUpdate(t.kids, k[0], Absent);
      if Count(rest) == 1 { MergeLookup(t, p, rest, q); }
    }
  }
}
