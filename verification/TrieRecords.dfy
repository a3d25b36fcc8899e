/**
 Which records the stores hold: those of the nodes of the trie and no others, so that erasing leaves
 nothing behind, and the hash that hashing writes for a leaf.
 */
module TrieRecords {
  import opened Options
  import opened Uint256
  import opened TrieModel
  import opened TrieShape
  import opened TrieTheory
  import opened TriePersist

  /** The trie has a node of this name. */
  ghost predicate HasNode<V>(t: Tree<V>, key: string)
  {
    !t.Absent? && (t.key == key || (t.Branch? && exists i :: 0 <= i < |t.kids| && HasNode(t.kids[i], key)))
  }

  /** Every record, written or logged, is that of a node. */
  ghost predicate OnlyNodes<V>(d: Disk<V>, t: Tree<V>)
  {
    forall key | At(d, key).Some? :: HasNode(t, key)
  }

  // ---- insertion ----

  lemma {:induction false} InsertNodes<V>(t: Tree<V>, p: Path, k: Path, v: V, key: string)
    requires t.Branch? && HasNode(t, key)
    ensures HasNode(InsertBranch(t, p, k, v), key)
    decreases t
  {
    var r := InsertBranch(t, p, k, v);
    if t.key != key {
      var i :| 0 <= i < |t.kids| && HasNode(t.kids[i], key);
      if k != [] && i == k[0] {
        var kid := t.kids[i];
        var c := Common(kid.sub, k);
        if c < |k| && c < |kid.sub| {
          SplitNodes(kid, p, c, k, v, key);
        } else if c < |k| && kid.Branch? {
          InsertNodes(kid, p + kid.sub, k[c..], v, key);
        }
        assert HasNode(r.kids[i], key);
      } else {
        assert HasNode(r.kids[i], key);
      }
    }
  }

  lemma SplitNodes<V>(t: Tree<V>, p: Path, c: nat, k: Path, v: V, key: string)
    requires !t.Absent? && c < |t.sub| && c < |k| && t.sub[..c] == k[..c] && t.sub[c] != k[c]
    ensures var r := Split(t, p, c, k, v);
      && (HasNode(t, key) ==> HasNode(r, key))
      && HasNode(r, r.key) && HasNode(r, t.key) && HasNode(r, Hex(p + k[..c] + k[c..]))
  {
    var r, lower := Split(t, p, c, k, v), t.(sub := t.sub[c..]);
    CutNodes(t, t.sub[c..], t.modified, key);
    CutNodes(t, t.sub[c..], t.modified, t.key);
    assert r.kids[t.sub[c]] == lower;
    assert HasNode(r.kids[k[c]], Hex(p + k[..c] + k[c..]));
  }

  lemma CutNodes<V>(t: Tree<V>, sub: Path, modified: bool, key: string)
    requires !t.Absent?
    ensures HasNode(t.(sub := sub, modified := modified), key) <==> HasNode(t, key)
  {
  }

  /** What insertion logs are nodes of the trie that results. */
  lemma {:induction false} InsertLogsNodes<V>(t: Tree<V>, p: Path, k: Path, v: V, d: Disk<V>, key: string)
    requires t.Branch? && At(LogInsert(t, p, k, v, d), key).Some?
    ensures At(d, key).Some? || HasNode(InsertBranch(t, p, k, v), key)
    decreases t
  {
    if k != [] && k[0] < |t.kids| {
      var r, kid := InsertBranch(t, p, k, v), t.kids[k[0]];
      if kid.Absent? {
        if key == Hex(p + k) { assert HasNode(r.kids[k[0]], key); }
      } else {
        var c := Common(kid.sub, k);
        if c < |k| && c < |kid.sub| {
          SplitNodes(kid, p, c, k, v, key);
          var split := Split(kid, p, c, k, v);
          assert r.kids[k[0]] == split;
          assert forall x :: HasNode(split, x) ==> HasNode(r, x);
        } else if c < |k| && kid.Branch? {
          InsertLogsNodes(kid, p + kid.sub, k[c..], v, d, key);
          assert r.kids[k[0]] == InsertNode(kid, p, k, v) == InsertBranch(kid, p + kid.sub, k[c..], v);
        }
      }
    }
  }

  // ---- erasure ----

  lemma OtherKids<V>(t: Tree<V>, r: Tree<V>, i: nat, key: string)
    requires t.Branch? && r.Branch? && r.key == t.key && i < |t.kids| == |r.kids| && HasNode(t, key)
    requires forall j | 0 <= j < |t.kids| && j != i :: r.kids[j] == t.kids[j]
    ensures HasNode(r, key) || HasNode(t.kids[i], key)
  {
    if t.key != key {
      var j :| 0 <= j < |t.kids| && HasNode(t.kids[j], key);
      if j != i { assert HasNode(r.kids[j], key); }
    }
  }

  lemma MergedNodes<V>(t: Tree<V>, i: nat, key: string)
    requires t.Branch? && i < |t.kids| && t.kids[i].Leaf? && Count(t.kids[i := Absent]) == 1
    ensures var r := Merge(t, t.kids[i := Absent]);
      !r.Absent? && (HasNode(t, key) ==> HasNode(r, key) || key == t.key || key == t.kids[i].key)
  {
    var rest := t.kids[i := Absent];
    CountOne(rest);
    var f := First(rest);
    CutNodes(rest[f], t.sub + rest[f].sub, true, key);
    if HasNode(t, key) && key != t.key {
      var j :| 0 <= j < |t.kids| && HasNode(t.kids[j], key);
      if j != i { assert !rest[j].Absent? && j == f; }
    }
  }

  /** What erasing leaves under a name is a node that is left, or was there and is no node at all. */
  lemma EraseLeafLogs<V>(t: Tree<V>, k: Path, isRoot: bool, d: Disk<V>, key: string)
    requires t.Branch? && k != [] && k[0] < |t.kids| && t.kids[k[0]].Leaf?
    requires At(LogErase(t, k, isRoot, d), key).Some?
    ensures HasNode(EraseBranch(t, k, isRoot), key) || (At(d, key).Some? && !HasNode(t, key))
  {
    var r, i := EraseBranch(t, k, isRoot), k[0];
    if !isRoot && Merges(t, k) {
      MergedNodes(t, i, key);
    } else if HasNode(t, key) {
      OtherKids(t, r, i, key);
    }
  }

  lemma {:induction false} EraseLogs<V>(t: Tree<V>, k: Path, isRoot: bool, d: Disk<V>, key: string)
    requires t.Branch? && At(LogErase(t, k, isRoot, d), key).Some?
    ensures HasNode(EraseBranch(t, k, isRoot), key) || (At(d, key).Some? && !HasNode(t, key))
    decreases t
  {
    if k != [] && k[0] < |t.kids| {
      var r, i := EraseBranch(t, k, isRoot), k[0];
      var kid := t.kids[i];
      if kid.Leaf? {
        EraseLeafLogs(t, k, isRoot, d, key);
      } else if kid.Branch? && |kid.sub| < |k| {
        var rest := k[|kid.sub|..];
        assert r.kids[i] == EraseBranch(kid, rest, false);
        if At(LogErase(kid, rest, false, d), key).Some? { EraseLogs(kid, rest, false, d, key); }
        if HasNode(t, key) { OtherKids(t, r, i, key); }
      }
    }
  }

  // ---- hashing ----

  lemma {:induction false} HashLogs<V>(hs: Hashing<V>, t: Tree<V>, d: Disk<V>, key: string)
    requires At(LogHash(hs, t, d), key).Some?
    ensures At(d, key).Some? || HasNode(t, key)
    decreases t, 1
  {
    if t.Branch? && t.modified && t.key != key && At(d, key).None? {
      RehashName(hs, t);
      hide RehashBranch;
      var i := KidsHashLogs(hs, t.kids, d, key);
    }
  }

  lemma RehashName<V>(hs: Hashing<V>, t: Tree<V>)
    requires t.Branch?
    ensures RehashBranch(hs, t).key == t.key
  {
  }

  lemma {:induction false} KidsHashLogs<V>(hs: Hashing<V>, kids: seq<Tree<V>>, d: Disk<V>, key: string) returns (i: nat)
    requires At(LogHashKids(hs, kids, d), key).Some? && At(d, key).None?
    ensures i < |kids| && HasNode(kids[i], key)
    decreases kids, 0
  {
    var n := |kids| - 1;
    var before := LogHashKids(hs, kids[..n], d);
    if At(before, key).Some? {
      i := KidsHashLogs(hs, kids[..n], d, key);
    } else {
      HashLogs(hs, kids[n], before, key);
      i := n;
    }
  }

  lemma {:induction false} SameNodes<V>(t: Tree<V>, r: Tree<V>, key: string)
    requires SameShape(t, r) && HasNode(t, key)
    ensures HasNode(r, key)
  {
    if t.key != key {
      var i :| 0 <= i < |t.kids| && HasNode(t.kids[i], key);
      SameNodes(t.kids[i], r.kids[i], key);
    }
  }

  lemma {:induction false} UpdateNodes<V>(t: Tree<V>, k: Path, v: V, key: string)
    requires t.Branch? && HasNode(t, key)
    ensures HasNode(UpdateBranch(t, k, v), key)
    decreases t
  {
    if k != [] && k[0] < |t.kids| {
      var r, kid := UpdateBranch(t, k, v), t.kids[k[0]];
      OtherKids(t, r, k[0], key);
      if HasNode(kid, key) {
        if kid.Branch? && |kid.sub| < |k| { UpdateNodes(kid, k[|kid.sub|..], v, key); }
        assert HasNode(r.kids[k[0]], key);
      }
    }
  }

  // ---- runs ----

  lemma ActOnlyNodes<V>(hs: Hashing<V>, s: Session<V>, op: Op<V>)
    requires s.trie.Branch? && OnlyNodes(s.disk, s.trie)
    ensures OnlyNodes(Act(hs, s, op).disk, Act(hs, s, op).trie)
  {
    hide InsertBranch, EraseBranch, UpdateBranch, RehashBranch, LogInsert, LogErase, LogHash, HasNode, Lookup;
    var t, r := s.trie, Act(hs, s, op);
    forall key | At(r.disk, key).Some?
      ensures HasNode(r.trie, key)
    {
      match op {
        case InsertOp(k, v) =>
          if Lookup(t, k).None? {
            InsertLogsNodes(t, [], k, v, s.disk, key);
            if HasNode(t, key) { InsertNodes(t, [], k, v, key); }
          }
        case UpdateOp(k, v) => if Lookup(t, k).Some? { UpdateNodes(t, k, v, key); }
        case EraseOp(k) => if Lookup(t, k).Some? { EraseLogs(t, k, true, s.disk, key); }
        case HashOp =>
          HashLogs(hs, t, s.disk, key);
          RehashRoot(hs, t);
          SameNodes(t, RehashBranch(hs, t), key);
      }
    }
  }

  lemma RehashRoot<V>(hs: Hashing<V>, t: Tree<V>)
    requires t.Branch?
    ensures SameShape(t, RehashBranch(hs, t))
  {
    RehashShape(hs, t);
  }

  lemma {:induction false} RunOnlyNodes<V>(hs: Hashing<V>, s: Session<V>, ops: seq<Op<V>>)
    requires s.trie.Branch? && OnlyNodes(s.disk, s.trie)
    ensures OnlyNodes(ActAll(hs, s, ops).disk, ActAll(hs, s, ops).trie)
  {
    hide Act, OnlyNodes;
    if ops != [] {
      RunOnlyNodes(hs, s, ops[..|ops| - 1]);
      ActOnlyNodes(hs, ActAll(hs, s, ops[..|ops| - 1]), ops[|ops| - 1]);
    }
  }

  /** A hashed trie that the stores describe has a record for every node. */
  lemma {:induction false} NodesKept<V>(d: Disk<V>, t: Tree<V>, key: string)
    requires Kept(d, t, true) && Clean(t) && HasNode(t, key)
    ensures At(d, key).Some?
  {
    if t.key != key {
      var i :| 0 <= i < |t.kids| && HasNode(t.kids[i], key);
      NodesKept(d, t.kids[i], key);
    }
  }

  /** Nothing is ever left over: after any run from a new store the records are those of nodes of the
      trie. After any recorded run, once the log is written, the store holds the nodes of the trie,
      all of them, and nothing else. */
  lemma StoreHoldsTheTrie<V>(hs: Hashing<V>, ops: seq<Op<V>>)
    ensures var s := ActAll(hs, NewSession(hs), ops);
      && OnlyNodes(s.disk, s.trie)
      && (AllRecorded(hs, NewSession(hs), ops) ==>
            var done := Act(hs, s, HashOp);
            forall key :: key in Saved(done.disk).store <==> HasNode(done.trie, key))
  {
    hide ActAll, Act, Kept, HasNode, Saved, AllRecorded;
    var new' := NewSession(hs);
    NewOnlyNodes(hs);
    RunOnlyNodes(hs, new', ops);
    var s := ActAll(hs, new', ops);
    if AllRecorded(hs, new', ops) {
      NewStoreIsSound(hs);
      ActAllSound(hs, new', ops);
      var done := Act(hs, s, HashOp);
      ActSound(hs, s, HashOp);
      ActOnlyNodes(hs, s, HashOp);
      HashStep(hs, s);
      GetHashCorrect(hs, s.trie);
      forall key
        ensures key in Saved(done.disk).store <==> HasNode(done.trie, key)
      {
        InStore(done.disk, key);
        if HasNode(done.trie, key) { NodesKept(done.disk, done.trie, key); }
      }
    }
  }

  lemma InStore<V>(d: Disk<V>, key: string)
    ensures key in Saved(d).store <==> At(d, key).Some?
  {
  }

  lemma NewOnlyNodes<V>(hs: Hashing<V>)
    ensures OnlyNodes(NewSession(hs).disk, NewSession(hs).trie)
  {
  }

  // ---- what hashing writes for a leaf ----

  /** A leaf with an entry in the log has its digest written there; nothing is added for another. */
  ghost predicate LeafLogged<V>(hs: Hashing<V>, d: Disk<V>, d': Disk<V>, leaf: Tree<V>)
    requires leaf.Leaf?
  {
    && (leaf.key in d'.log <==> leaf.key in d.log)
    && (leaf.key in d.log ==>
          d'.log[leaf.key] == if d.log[leaf.key].None? then None
                              else Some(d.log[leaf.key].value.(hash := hs.digest(leaf.value))))
  }

  /** That is so of the leaves below marked branches. */
  ghost predicate LeavesLogged<V>(hs: Hashing<V>, d: Disk<V>, d': Disk<V>, t: Tree<V>)
  {
    match t
    case Absent => true
    case Leaf(_, _, _, _, _) => LeafLogged(hs, d, d', t)
    case Branch(_, _, kids, _, modified) =>
      modified ==> forall i | 0 <= i < |kids| :: LeavesLogged(hs, d, d', kids[i])
  }

  ghost predicate SameEntries<V>(d: Disk<V>, e: Disk<V>, t: Tree<V>)
  {
    forall key | HasNode(t, key) :: SameLogged(d, e, key)
  }

  predicate SameLogged<V>(d: Disk<V>, e: Disk<V>, key: string)
  {
    (key in d.log <==> key in e.log) && (key in d.log ==> d.log[key] == e.log[key])
  }

  /** Every name in a subtree starts with the path to its node. */
  lemma {:induction false} NodeNames<V>(t: Tree<V>, p: Path, key: string)
    requires NodeOk(t, p) && HasNode(t, key)
    ensures |p| + |t.sub| <= |key| && key[..|p| + |t.sub|] == Hex(p + t.sub)
  {
    if t.key != key {
      var i :| 0 <= i < |t.kids| && HasNode(t.kids[i], key);
      var q, sub := p + t.sub, t.kids[i].sub;
      NodeNames(t.kids[i], q, key);
      assert Hex(q + sub)[..|q|] == Hex(q);
      assert key[..|q|] == key[..|q| + |sub|][..|q|];
    }
  }

  lemma SlotName<V>(kids: seq<Tree<V>>, p: Path, i: nat, key: string)
    requires KidsOk(kids, p) && i < |kids| && HasNode(kids[i], key)
    ensures |p| < |key| && key[|p|] == HexDigit(i)
  {
    NodeNames(kids[i], p, key);
    var sub := kids[i].sub;
    assert key[|p|] == key[..|p| + |sub|][|p|] == HexDigit((p + sub)[|p|]);
  }

  /** Different slots have no name in common, nor has a branch with what is below it. */
  lemma NamesApart<V>(kids: seq<Tree<V>>, p: Path, i: nat, j: nat, key: string)
    requires KidsOk(kids, p) && i < |kids| && j < |kids| && i != j && HasNode(kids[i], key)
    ensures !HasNode(kids[j], key)
  {
    hide HasNode, NodeOk;
    SlotName(kids, p, i, key);
    if HasNode(kids[j], key) { SlotName(kids, p, j, key); }
  }

  lemma OwnName<V>(t: Tree<V>, p: Path, i: nat, key: string)
    requires BranchAt(t, p) && NoZeroLeaf(t) && i < |t.kids| && HasNode(t.kids[i], key)
    ensures key != t.key
  {
    NodeNames(t.kids[i], p, key);
  }

  /** No leaf has the name of the root: no account has the zero address. */
  ghost predicate NoZeroLeaf<V>(t: Tree<V>)
    requires t.Branch?
  {
    forall i | 0 <= i < |t.kids| :: !HasNode(t.kids[i], ROOT_KEY)
  }

  /** Hashing leaves the entries of other names as they are. */
  lemma {:induction false} HashLogsOwn<V>(hs: Hashing<V>, t: Tree<V>, d: Disk<V>, key: string)
    requires !HasNode(t, key)
    ensures SameLogged(d, LogHash(hs, t, d), key)
    decreases t, 1
  {
    if t.Branch? && t.modified {
      RehashName(hs, t);
      hide RehashBranch;
      KidsHashLogsOwn(hs, t.kids, d, key);
    }
  }

  lemma {:induction false} KidsHashLogsOwn<V>(hs: Hashing<V>, kids: seq<Tree<V>>, d: Disk<V>, key: string)
    requires forall i | 0 <= i < |kids| :: !HasNode(kids[i], key)
    ensures SameLogged(d, LogHashKids(hs, kids, d), key)
    decreases kids, 0
  {
    if kids != [] {
      var n := |kids| - 1;
      KidsHashLogsOwn(hs, kids[..n], d, key);
      HashLogsOwn(hs, kids[n], LogHashKids(hs, kids[..n], d), key);
    }
  }

  lemma {:induction false} LoggedElsewhere<V>(hs: Hashing<V>, d: Disk<V>, d': Disk<V>, e: Disk<V>, e': Disk<V>,
      t: Tree<V>)
    requires LeavesLogged(hs, d, d', t) && SameEntries(d, e, t) && SameEntries(d', e', t)
    ensures LeavesLogged(hs, e, e', t)
  {
    if t.Leaf? {
      assert SameLogged(d, e, t.key) && SameLogged(d', e', t.key);
    } else if t.Branch? && t.modified {
      forall i | 0 <= i < |t.kids|
        ensures LeavesLogged(hs, e, e', t.kids[i])
      {
        assert forall key | HasNode(t.kids[i], key) :: HasNode(t, key);
        LoggedElsewhere(hs, d, d', e, e', t.kids[i]);
      }
    }
  }

  /** After hashing, the logged record of every leaf below marked branches has the digest of its value. */
  lemma {:induction false} LeafHashesLogged<V>(hs: Hashing<V>, t: Tree<V>, p: Path, d: Disk<V>)
    requires BranchAt(t, p) && NoZeroLeaf(t)
    ensures LeavesLogged(hs, d, LogHash(hs, t, d), t)
    decreases t, 1
  {
    if t.modified {
      var d1, d', n := LogHashKids(hs, t.kids, d), LogHash(hs, t, d), |t.kids|;
      KidsHashesLogged(hs, t.kids, p, d, n);
      assert t.kids[..n] == t.kids;
      RehashName(hs, t);
      hide RehashBranch, LogHashKids, NodeOk, Hex;
      forall i | 0 <= i < n
        ensures LeavesLogged(hs, d, d', t.kids[i])
      {
        forall key | HasNode(t.kids[i], key)
          ensures SameLogged(d1, d', key)
        {
          OwnName(t, p, i, key);
        }
        LoggedElsewhere(hs, d, d1, d, d', t.kids[i]);
      }
    }
  }

  lemma {:induction false} KidsHashesLogged<V>(hs: Hashing<V>, kids: seq<Tree<V>>, p: Path, d: Disk<V>, n: nat)
    requires KidsOk(kids, p) && n <= |kids| && forall i | 0 <= i < |kids| :: !HasNode(kids[i], ROOT_KEY)
    ensures forall i | 0 <= i < n :: LeavesLogged(hs, d, LogHashKids(hs, kids[..n], d), kids[i])
    decreases kids, 0, n
  {
    hide NodeOk, HasNode, LeavesLogged, LogHash;
    if n > 0 {
      var m := n - 1;
      KidsHashesLogged(hs, kids, p, d, m);
      var d1, d' := LogHashKids(hs, kids[..m], d), LogHashKids(hs, kids[..n], d);
      assert kids[..n][..m] == kids[..m] && d' == LogHash(hs, kids[m], d1);
      forall i | 0 <= i < n
        ensures LeavesLogged(hs, d, d', kids[i])
      {
        if i < m {
          forall key | HasNode(kids[i], key)
            ensures SameLogged(d1, d', key)
          {
            NamesApart(kids, p, i, m, key);
            HashLogsOwn(hs, kids[m], d1, key);
          }
          LoggedElsewhere(hs, d, d1, d, d', kids[i]);
        } else {
          forall key | HasNode(kids[m], key)
            ensures SameLogged(d1, d, key)
          {
            forall j | 0 <= j < m
              ensures !HasNode(kids[..m][j], key)
            {
              NamesApart(kids, p, m, j, key);
            }
            KidsHashLogsOwn(hs, kids[..m], d, key);
          }
          KidHashLogged(hs, kids, p, d1, m);
          LoggedElsewhere(hs, d1, d', d, d', kids[m]);
        }
      }
    }
  }

  lemma {:induction false} KidHashLogged<V>(hs: Hashing<V>, kids: seq<Tree<V>>, p: Path, d: Disk<V>, m: nat)
    requires KidsOk(kids, p) && m < |kids| && !HasNode(kids[m], ROOT_KEY)
    ensures LeavesLogged(hs, d, LogHash(hs, kids[m], d), kids[m])
    decreases kids, 0, 0
  {
    if kids[m].Branch? {
      assert NoZeroLeaf(kids[m]);
      assert BranchAt(kids[m], p + kids[m].sub);
      LeafHashesLogged(hs, kids[m], p + kids[m].sub, d);
    }
  }

  // ---- what writing changes ----

  /** Writing the log keeps every record and takes the log away: whatever was erased or refreshed
      before, the next erasure is recorded, so that the trie comes back after it. */
  lemma WrittenForgetsTheLog<V>(hs: Hashing<V>, s: Session<V>, k: Key)
    requires Sound(hs, s) && s.trie.Branch?
    ensures var done := Act(hs, s, HashOp);
      var written := done.(disk := Saved(done.disk));
      && (forall key :: At(written.disk, key) == At(done.disk, key)) && written.disk.accounts == done.disk.accounts
      && ComesBack(hs, Act(hs, written, EraseOp(k)))
  {
    hide Kept, Act, ComesBack, Erasable, Sound, Saved;
    var done := Act(hs, s, HashOp);
    var d := Saved(done.disk);
    forall key
      ensures At(d, key) == At(done.disk, key)
    {
      SavedAt(done.disk, key);
    }
    SoundComesBack(hs, s);
    SavedIsClear(done.disk, done.trie, k);
    RecordedExact(hs, done.(disk := d), EraseOp(k));
  }

  lemma SavedIsClear<V>(d: Disk<V>, t: Tree<V>, k: Path)
    requires t.Branch?
    ensures Erasable(Saved(d), t, k) && Saved(d).accounts == d.accounts
  {
  }
}
