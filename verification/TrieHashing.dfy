/**
 `get_hash`: one stack walks the marked branches, a second stack keeps them in the order they were
 found, and taking them off that second stack hashes every branch after the branches below it.
 */
module TrieHashing {
  import opened Options
  import opened Uint256
  import opened TrieModel
  import opened TrieShape
  import opened TrieTheory
  import opened TrieNodes

  // ---- collecting the marked branches ----

  /** Every marked branch in slots `0 .. i` of `n` is among `found`. */
  ghost predicate Closed<V>(n: Node<V>, i: nat, found: set<Node<V>>, abs: Trees<V>)
    reads n`slots
  {
    |n.slots| == CHILDREN_COUNT && i <= CHILDREN_COUNT &&
    forall x | 0 <= x < i && n.slots[x] != null ::
      n.slots[x] in abs && (abs[n.slots[x]].Branch? && abs[n.slots[x]].modified ==> n.slots[x] in found)
  }

  /** A stack without repetitions, as a set. */
  ghost predicate StackOf<V>(stack: seq<Node<V>>, nodes: set<Node<V>>)
  {
    nodes == (set n | n in stack) && forall a, b | 0 <= a < b < |stack| :: stack[a] != stack[b]
  }

  lemma StackPush<V>(stack: seq<Node<V>>, nodes: set<Node<V>>, c: Node<V>)
    requires StackOf(stack, nodes) && c !in nodes
    ensures StackOf(stack + [c], nodes + {c})
  {}

  lemma StackPop<V>(stack: seq<Node<V>>, nodes: set<Node<V>>)
    requires StackOf(stack, nodes) && stack != []
    ensures var c := stack[|stack| - 1]; c in nodes && StackOf(stack[..|stack| - 1], nodes - {c})
  {
    var c, rest := stack[|stack| - 1], stack[..|stack| - 1];
    assert stack == rest + [c];
  }

  /** Each node on the second stack lies above its parent. */
  ghost predicate ParentsFirst<V>(root: Node<V>, cache: seq<Node<V>>, up: Parents<V>)
  {
    && |cache| > 0 && cache[0] == root
    && forall a | 0 < a < |cache| :: cache[a] in up && up[cache[a]] in cache[..a]
  }

  lemma ParentsPush<V>(root: Node<V>, cache: seq<Node<V>>, up: Parents<V>, c: Node<V>)
    requires ParentsFirst(root, cache, up) && c in up && up[c] in cache
    ensures ParentsFirst(root, cache + [c], up)
  {
    var cache' := cache + [c];
    forall a | 0 < a < |cache'|
      ensures cache'[a] in up && up[cache'[a]] in cache'[..a]
    {
      if a == |cache| { assert cache'[..a] == cache; } else { assert cache'[..a] == cache[..a]; }
    }
  }

  /** The marked branches below the root, parents before children. */
  ghost predicate Collected<V>(root: Node<V>, cache: seq<Node<V>>, found: set<Node<V>>, abs: Trees<V>, up: Parents<V>)
    reads found`slots
  {
    && StackOf(cache, found) && ParentsFirst(root, cache, up)
    && forall n | n in found :: n in abs && abs[n].Branch? && abs[n].modified && Closed(n, CHILDREN_COUNT, found, abs)
  }

  /** The walk so far: of the nodes found, `visited` are done, `open` are on the first stack, and `cur`
      is done up to slot `i`. */
  ghost predicate Walking<V>(root: Node<V>, found: set<Node<V>>, open: set<Node<V>>, visited: set<Node<V>>,
      cur: Node<V>, i: nat, abs: Trees<V>, up: Parents<V>)
    reads found`slots
  {
    && found == visited + open + {cur} && visited !! open && cur !in visited && cur !in open && root in found
    && (forall n | n in found :: n in abs && abs[n].Branch? && abs[n].modified)
    && (forall n | n in visited :: Closed(n, CHILDREN_COUNT, found, abs)) && Closed(cur, i, found, abs)
    && (forall n | n in found && n != root ::
          n in up && (up[n] in visited || (up[n] == cur && abs[n].sub != [] && abs[n].sub[0] < i)))
  }

  lemma StartWalk<V>(root: Node<V>, abs: Trees<V>, up: Parents<V>)
    requires root in abs && abs[root].Branch? && abs[root].modified && |root.slots| == CHILDREN_COUNT
    ensures Walking(root, {root}, {}, {}, root, 0, abs, up) && StackOf([root], {root}) && ParentsFirst(root, [root], up)
    ensures var none: seq<Node<V>> := []; StackOf(none, {})
  {}

  /** Slot `i` of `cur` holds no marked branch. */
  lemma SkipSlot<V>(root: Node<V>, found: set<Node<V>>, open: set<Node<V>>, visited: set<Node<V>>, cur: Node<V>, i: nat,
      abs: Trees<V>, up: Parents<V>)
    requires Walking(root, found, open, visited, cur, i, abs, up) && i < CHILDREN_COUNT && |cur.slots| == CHILDREN_COUNT
    requires cur.slots[i] != null ==> cur.slots[i] in abs && !(abs[cur.slots[i]].Branch? && abs[cur.slots[i]].modified)
    ensures Walking(root, found, open, visited, cur, i + 1, abs, up)
  {}

  lemma ClosedMore<V>(n: Node<V>, i: nat, found: set<Node<V>>, abs: Trees<V>, c: Node<V>)
    requires Closed(n, i, found, abs)
    ensures Closed(n, i, found + {c}, abs)
  {}

  lemma PushFound<V>(root: Node<V>, found: set<Node<V>>, open: set<Node<V>>, visited: set<Node<V>>, cur: Node<V>,
      i: nat, abs: Trees<V>, up: Parents<V>, c: Node<V>)
    requires Walking(root, found, open, visited, cur, i, abs, up) && i < CHILDREN_COUNT && |cur.slots| == CHILDREN_COUNT
    requires cur.slots[i] == c && Child(cur, i, c, abs, up) && abs[c].Branch? && abs[c].modified && root !in up
    ensures Walking(root, found + {c}, open + {c}, visited, cur, i + 1, abs, up)
    ensures c !in found && c in up && up[c] in found
  {
    assert Closed(cur, i + 1, found + {c}, abs) by { ClosedMore(cur, i, found, abs, c); }
    hide Closed;
    forall n | n in visited
      ensures Closed(n, CHILDREN_COUNT, found + {c}, abs)
    {
      ClosedMore(n, CHILDREN_COUNT, found, abs, c);
    }
  }

  lemma NextFound<V>(root: Node<V>, found: set<Node<V>>, open: set<Node<V>>, visited: set<Node<V>>, cur: Node<V>,
      next: Node<V>, abs: Trees<V>, up: Parents<V>)
    requires Walking(root, found, open, visited, cur, CHILDREN_COUNT, abs, up) && next in open
      && |next.slots| == CHILDREN_COUNT
    ensures Walking(root, found, open - {next}, visited + {cur}, next, 0, abs, up) && cur in abs && cur !in visited
      && next in abs
  {
    assert Closed(next, 0, found, abs);
    hide Closed;
  }

  lemma LastFound<V>(root: Node<V>, cache: seq<Node<V>>, found: set<Node<V>>, visited: set<Node<V>>, cur: Node<V>,
      abs: Trees<V>, up: Parents<V>)
    requires Walking(root, found, {}, visited, cur, CHILDREN_COUNT, abs, up) && StackOf(cache, found)
      && ParentsFirst(root, cache, up)
    ensures Collected(root, cache, found, abs, up)
  {
    hide Closed;
  }

  lemma StepSlot<V>(root: Node<V>, found: set<Node<V>>, open: set<Node<V>>, visited: set<Node<V>>, cur: Node<V>, i: nat,
      abs: Trees<V>, up: Parents<V>)
    requires Walking(root, found, open, visited, cur, i, abs, up) && i < CHILDREN_COUNT && RestOk({}, abs, up)
    ensures cur in abs && |cur.slots| == CHILDREN_COUNT == 16 && abs[cur].Branch?
    ensures cur.slots[i] != null ==>
              var c := cur.slots[i];
              c in abs && Child(cur, i, c, abs, up) && c.modified == abs[c].modified && c.leaf == abs[c].Leaf?
                && !abs[c].Absent?
  {
    hide Count;
    assert Shows(cur, abs, up);
    if cur.slots[i] != null { assert Shows(cur.slots[i], abs, up); }
  }

  lemma OpenSlots<V>(root: Node<V>, found: set<Node<V>>, open: set<Node<V>>, visited: set<Node<V>>, cur: Node<V>,
      i: nat, next: Node<V>, abs: Trees<V>, up: Parents<V>)
    requires Walking(root, found, open, visited, cur, i, abs, up) && next in open && RestOk({}, abs, up)
    ensures |next.slots| == CHILDREN_COUNT
  {
    assert Shows(next, abs, up);
  }

  /** The first loop of `get_hash`. */
  method Collect<V>(root: Node<V>, ghost abs: Trees<V>, ghost up: Parents<V>)
    returns (cache: seq<Node<V>>, ghost found: set<Node<V>>)
    requires RestOk({}, abs, up) && root in abs && abs[root].Branch? && root !in up && abs[root].modified
      && |root.slots| == CHILDREN_COUNT
    ensures Collected(root, cache, found, abs, up)
  {
    hide *;
    var todo: seq<Node<V>> := [];
    cache, found := [root], {root};
    var cur: Node<V> := root;
    ghost var visited: set<Node<V>>, open: set<Node<V>> := {}, {};
    StartWalk(root, abs, up);
    while true
      invariant Walking(root, found, open, visited, cur, 0, abs, up) && visited <= abs.Keys && cur in abs
      invariant StackOf(todo, open) && StackOf(cache, found) && ParentsFirst(root, cache, up)
      decreases abs.Keys - visited
    {
      todo, cache, found, open := CollectChildren(root, todo, cache, found, open, visited, cur, abs, up);
      if todo == [] {
        EmptyStack(todo, open);
        LastFound(root, cache, found, visited, cur, abs, up);
        return;
      }
      StackPop(todo, open);
      OpenSlots(root, found, open, visited, cur, CHILDREN_COUNT, todo[|todo| - 1], abs, up);
      NextFound(root, found, open, visited, cur, todo[|todo| - 1], abs, up);
      visited := visited + {cur};
      cur := todo[|todo| - 1];
      todo, open := todo[..|todo| - 1], open - {cur};
    }
  }

  lemma EmptyStack<V>(stack: seq<Node<V>>, nodes: set<Node<V>>)
    requires StackOf(stack, nodes) && stack == []
    ensures nodes == {}
  {}

  lemma Sixteen()
    ensures CHILDREN_COUNT == 16
  {}

  /** Push the marked branches among the children of `cur` on both stacks. */
  method CollectChildren<V>(ghost root: Node<V>, todo: seq<Node<V>>, cache: seq<Node<V>>, ghost found: set<Node<V>>,
      ghost open: set<Node<V>>, ghost visited: set<Node<V>>, cur: Node<V>, ghost abs: Trees<V>, ghost up: Parents<V>)
    returns (todo': seq<Node<V>>, cache': seq<Node<V>>, ghost found': set<Node<V>>, ghost open': set<Node<V>>)
    requires Walking(root, found, open, visited, cur, 0, abs, up) && RestOk({}, abs, up) && root !in up
    requires StackOf(todo, open) && StackOf(cache, found) && ParentsFirst(root, cache, up)
    ensures Walking(root, found', open', visited, cur, CHILDREN_COUNT, abs, up)
    ensures StackOf(todo', open') && StackOf(cache', found') && ParentsFirst(root, cache', up)
  {
    hide *;
    todo', cache', found', open' := todo, cache, found, open;
    Sixteen();
    var i := 0;
    while i < CHILDREN_COUNT
      invariant 0 <= i <= CHILDREN_COUNT && Walking(root, found', open', visited, cur, i, abs, up)
      invariant StackOf(todo', open') && StackOf(cache', found') && ParentsFirst(root, cache', up)
    {
      StepSlot(root, found', open', visited, cur, i, abs, up);
      if cur.slots[i] != null && cur.slots[i].modified && !cur.slots[i].leaf {
        var c := cur.slots[i];
        PushFound(root, found', open', visited, cur, i, abs, up, c);
        NotOpen(root, found', open', visited, cur, i, abs, up, c);
        StackPush(todo', open', c);
        StackPush(cache', found', c);
        InStack(cache', found', up[c]);
        ParentsPush(root, cache', up, c);
        todo', cache', found', open' := todo' + [c], cache' + [c], found' + {c}, open' + {c};
      } else {
        SkipSlot(root, found', open', visited, cur, i, abs, up);
      }
      i := i + 1;
    }
  }

  lemma NotOpen<V>(root: Node<V>, found: set<Node<V>>, open: set<Node<V>>, visited: set<Node<V>>, cur: Node<V>, i: nat,
      abs: Trees<V>, up: Parents<V>, c: Node<V>)
    requires Walking(root, found, open, visited, cur, i, abs, up) && c !in found
    ensures c !in open
  {}

  lemma InStack<V>(stack: seq<Node<V>>, nodes: set<Node<V>>, n: Node<V>)
    requires StackOf(stack, nodes) && n in nodes
    ensures n in stack
  {}

  // ---- hashing them ----

  /** A node shows its tree but for the hash and the mark, which hashing changes. */
  ghost predicate ShapeOf<V>(n: Node<V>, abs: Trees<V>, up: Parents<V>)
    reads n`leaf, n`key, n`subKey, n`value, n`slots, n`count
  {
    n in abs &&
    match abs[n]
    case Absent => false
    case Leaf(key, sub, value, _, _) => n.leaf && n.key == key && n.subKey == sub && n.value == Some(value)
    case Branch(key, sub, kids, _, _) =>
      && !n.leaf && n.key == key && n.subKey == sub && |n.slots| == |kids| == CHILDREN_COUNT && n.count == Count(kids)
      && forall i | 0 <= i < CHILDREN_COUNT ::
           if n.slots[i] == null then kids[i].Absent? else
                 Child(n, i, n.slots[i], abs, up) && abs[n.slots[i]] == kids[i]
  }

  ghost predicate Shapes<V>(abs: Trees<V>, up: Parents<V>)
    reads abs.Keys`leaf, abs.Keys`key, abs.Keys`subKey, abs.Keys`value, abs.Keys`slots, abs.Keys`count
  {
    forall n | n in abs.Keys :: ShapeOf(n, abs, up)
  }

  /** The nodes in `hashed` carry the hash of a rehashed tree and no mark; the others are as they were. */
  ghost predicate Marks<V>(hs: Hashing<V>, hashed: set<Node<V>>, abs: Trees<V>)
    reads abs.Keys`valueHash, abs.Keys`modified
  {
    forall n | n in abs.Keys :: !abs[n].Absent? && MarkOf(hs, n, n in hashed, abs[n])
  }

  ghost predicate MarkOf<V>(hs: Hashing<V>, n: Node<V>, isHashed: bool, t: Tree<V>)
    requires !t.Absent?
    reads n`valueHash, n`modified
  {
    var r := if isHashed then RehashKid(hs, t) else t;
    !r.Absent? && n.valueHash == r.hash && n.modified == (if isHashed then false else t.modified)
  }

  /** Which nodes are hashed: the branches in `done`, and leaves below them, among them all leaves that
      hang below a node in `done` or in slots `0 .. i` of `cur`. */
  ghost predicate Freshness<V>(hashed: set<Node<V>>, done: set<Node<V>>, cur: Node<V>, i: nat, abs: Trees<V>,
      up: Parents<V>)
    reads (done + {cur})`slots
  {
    && done <= hashed <= abs.Keys && cur in abs && |cur.slots| == CHILDREN_COUNT && i <= CHILDREN_COUNT
    && (forall n | n in hashed && abs[n].Branch? :: n in done)
    && (forall n | n in hashed && !abs[n].Branch? :: n in up && (up[n] in done || up[n] == cur))
    && (forall p | p in done :: |p.slots| == CHILDREN_COUNT && LeavesIn(p, CHILDREN_COUNT, hashed, abs))
    && LeavesIn(cur, i, hashed, abs)
  }

  ghost predicate LeavesIn<V>(p: Node<V>, i: nat, hashed: set<Node<V>>, abs: Trees<V>)
    requires |p.slots| == CHILDREN_COUNT && i <= CHILDREN_COUNT
    reads p`slots
  {
    forall x | 0 <= x < i && p.slots[x] != null :: p.slots[x] in abs && (abs[p.slots[x]].Leaf? ==> p.slots[x] in hashed)
  }

  lemma {:induction false} CachedStep<V>(hs: Hashing<V>, kids: seq<Tree<V>>, i: nat)
    requires i < |kids|
    ensures var r := RehashKids(hs, kids);
            CachedSum(r[..i + 1]) == if kids[i].Absent? then CachedSum(r[..i])
              else Plus(CachedSum(r[..i]), RehashKid(hs, kids[i]).hash)
    ensures !kids[i].Absent? ==> !RehashKid(hs, kids[i]).Absent?
  {
    hide RehashKid;
    var r := RehashKids(hs, kids);
    assert r[..i + 1][..i] == r[..i] && r[..i + 1][i] == RehashKid(hs, kids[i]);
  }

  /** `cur` is the next branch to hash: all marked branches right below it are `done`. */
  ghost predicate Next<V>(cur: Node<V>, done: set<Node<V>>, found: set<Node<V>>, abs: Trees<V>, up: Parents<V>)
    reads cur`slots
  {
    && cur in found && cur !in done && done <= found && Closed(cur, CHILDREN_COUNT, found, abs)
    && (forall n | n in found :: n in abs && abs[n].Branch? && abs[n].modified)
    && (forall n | n in found && n in up && up[n] == cur :: n in done)
  }

  /** Slot `i` of `cur` is empty, or holds a leaf, or a branch whose hash is up to date. */
  ghost predicate SlotView<V>(hs: Hashing<V>, cur: Node<V>, i: nat, abs: Trees<V>, up: Parents<V>)
    reads cur, abs.Keys
  {
    && cur in abs && abs[cur].Branch? && |cur.slots| == |abs[cur].kids| == CHILDREN_COUNT && i < CHILDREN_COUNT
    && (cur.slots[i] == null <==> abs[cur].kids[i].Absent?)
    && (cur.slots[i] != null ==>
          var c := cur.slots[i];
          && c in abs.Keys && abs[cur].kids[i] == abs[c] && c != cur && c in up && up[c] == cur
            && c.leaf == abs[c].Leaf?
          && (abs[c].Leaf? ==> c.value == Some(abs[c].value))
          && (abs[c].Branch? ==> c.valueHash == RehashKid(hs, abs[c]).hash && !c.modified))
  }

  lemma HashSlot<V>(hs: Hashing<V>, cur: Node<V>, i: nat, hashed: set<Node<V>>, done: set<Node<V>>, found: set<Node<V>>,
      abs: Trees<V>, up: Parents<V>)
    requires Shapes(abs, up) && Marks(hs, hashed, abs) && Freshness(hashed, done, cur, i, abs, up)
      && i < CHILDREN_COUNT && Next(cur, done, found, abs, up)
    ensures SlotView(hs, cur, i, abs, up)
  {
    hide Count, RehashKid, LeavesIn;
    assert ShapeOf(cur, abs, up);
    if cur.slots[i] != null {
      var c := cur.slots[i];
      assert ShapeOf(c, abs, up) && MarkOf(hs, c, c in hashed, abs[c]);
      if abs[c].Branch? && c !in hashed { UnmarkedKid(hs, abs[c]); }
    }
  }

  lemma UnmarkedKid<V>(hs: Hashing<V>, t: Tree<V>)
    requires t.Branch? && !t.modified
    ensures RehashKid(hs, t) == t
  {}

  lemma ViewFacts<V>(hs: Hashing<V>, cur: Node<V>, i: nat, abs: Trees<V>, up: Parents<V>)
    requires SlotView(hs, cur, i, abs, up)
    ensures |cur.slots| == |abs[cur].kids| == CHILDREN_COUNT == 16 && i < 16
    ensures cur.slots[i] == null <==> abs[cur].kids[i].Absent?
    ensures cur.slots[i] != null ==>
              var c := cur.slots[i];
              && c in abs && abs[cur].kids[i] == abs[c] && c in up && up[c] == cur && c.leaf == abs[c].Leaf?
                && !abs[c].Absent?
              && (abs[c].Leaf? ==> c.value == Some(abs[c].value))
              && (abs[c].Branch? ==> c.valueHash == RehashKid(hs, abs[c]).hash && !c.modified)
  {
    hide RehashKid;
  }

  lemma MarkFresh<V>(hs: Hashing<V>, hashed: set<Node<V>>, abs: Trees<V>, c: Node<V>)
    requires c in abs && !abs[c].Absent? && MarkOf(hs, c, true, abs[c])
    requires forall n | n in abs && n != c :: !abs[n].Absent? && MarkOf(hs, n, n in hashed, abs[n])
    ensures Marks(hs, hashed + {c}, abs)
  {
    hide MarkOf;
    forall n | n in abs.Keys
      ensures !abs[n].Absent? && MarkOf(hs, n, n in hashed + {c}, abs[n])
    {
      assert n in hashed + {c} <==> n == c || n in hashed;
    }
  }

  lemma LeafFresh<V>(hashed: set<Node<V>>, done: set<Node<V>>, cur: Node<V>, i: nat, abs: Trees<V>, up: Parents<V>,
      c: Node<V>)
    requires Freshness(hashed, done, cur, i, abs, up) && i < CHILDREN_COUNT && cur.slots[i] == c && c in abs
      && abs[c].Leaf? && c in up && up[c] == cur
    ensures Freshness(hashed + {c}, done, cur, i + 1, abs, up)
  {}

  lemma SlotPassed<V>(hashed: set<Node<V>>, done: set<Node<V>>, cur: Node<V>, i: nat, abs: Trees<V>, up: Parents<V>)
    requires Freshness(hashed, done, cur, i, abs, up) && i < CHILDREN_COUNT
    requires cur.slots[i] != null ==> cur.slots[i] in abs && abs[cur.slots[i]].Branch?
    ensures Freshness(hashed, done, cur, i + 1, abs, up)
  {}

  /** The hash sum over the children of `cur`, which rehashes its leaves. */
  method HashChildren<V>(hs: Hashing<V>, cur: Node<V>, ghost hashed: set<Node<V>>, ghost done: set<Node<V>>,
      ghost found: set<Node<V>>, ghost abs: Trees<V>, ghost up: Parents<V>)
    returns (sum: Hash, ghost hashed': set<Node<V>>)
    requires Shapes(abs, up) && Marks(hs, hashed, abs) && Freshness(hashed, done, cur, 0, abs, up)
      && Next(cur, done, found, abs, up)
    requires cur in abs && abs[cur].Branch?
    modifies abs.Keys`valueHash, abs.Keys`modified
    ensures Shapes(abs, up) && Marks(hs, hashed', abs) && Freshness(hashed', done, cur, CHILDREN_COUNT, abs, up)
    ensures sum == CachedSum(RehashKids(hs, abs[cur].kids))
  {
    hide *;
    SumStart(hs, cur, abs, up);
    sum, hashed' := Zero(), hashed;
    var i := 0;
    while i < CHILDREN_COUNT
      invariant 0 <= i <= CHILDREN_COUNT && |RehashKids(hs, abs[cur].kids)| == CHILDREN_COUNT
      invariant Shapes(abs, up) && Marks(hs, hashed', abs) && Freshness(hashed', done, cur, i, abs, up)
      invariant sum == CachedSum(RehashKids(hs, abs[cur].kids)[..i])
    {
      HashSlot(hs, cur, i, hashed', done, found, abs, up);
      ViewFacts(hs, cur, i, abs, up);
      CachedStep(hs, abs[cur].kids, i);
      if cur.slots[i] != null {
        var c := cur.slots[i];
        if c.leaf {
          MarksBut(hs, hashed', abs, c);
          c.valueHash := hs.digest(c.value.value);
          c.modified := false;
          LeafMark(hs, c, abs[c]);
          MarkFresh(hs, hashed', abs, c);
          LeafFresh(hashed', done, cur, i, abs, up, c);
          hashed' := hashed' + {c};
        } else {
          MarksBut(hs, hashed', abs, c);
          c.modified := false;
          MarksAgain(hs, hashed', abs, c);
          SlotPassed(hashed', done, cur, i, abs, up);
        }
        sum := Plus(sum, c.valueHash);
      } else {
        SlotPassed(hashed', done, cur, i, abs, up);
      }
      i := i + 1;
    }
    assert RehashKids(hs, abs[cur].kids)[..CHILDREN_COUNT] == RehashKids(hs, abs[cur].kids);
  }

  lemma SumStart<V>(hs: Hashing<V>, cur: Node<V>, abs: Trees<V>, up: Parents<V>)
    requires Shapes(abs, up) && cur in abs && abs[cur].Branch?
    ensures var r := RehashKids(hs, abs[cur].kids); |r| == CHILDREN_COUNT == 16 && CachedSum(r[..0]) == Zero()
  {
    assert ShapeOf(cur, abs, up);
  }

  lemma LeafMark<V>(hs: Hashing<V>, c: Node<V>, t: Tree<V>)
    requires t.Leaf? && c.valueHash == hs.digest(t.value) && !c.modified
    ensures MarkOf(hs, c, true, t) && RehashKid(hs, t).Leaf? && RehashKid(hs, t).hash == c.valueHash
  {}

  lemma MarksBut<V>(hs: Hashing<V>, hashed: set<Node<V>>, abs: Trees<V>, c: Node<V>)
    requires Marks(hs, hashed, abs) && c in abs
    ensures forall n | n in abs && n != c :: !abs[n].Absent? && MarkOf(hs, n, n in hashed, abs[n])
    ensures !abs[c].Absent? && MarkOf(hs, c, c in hashed, abs[c])
  {}

  lemma MarksAgain<V>(hs: Hashing<V>, hashed: set<Node<V>>, abs: Trees<V>, c: Node<V>)
    requires c in abs && !abs[c].Absent? && MarkOf(hs, c, c in hashed, abs[c])
    requires forall n | n in abs && n != c :: !abs[n].Absent? && MarkOf(hs, n, n in hashed, abs[n])
    ensures Marks(hs, hashed, abs)
  {}

  /** The nodes with fresh hashes, when no branch is half done. */
  ghost predicate Settled<V>(hashed: set<Node<V>>, done: set<Node<V>>, abs: Trees<V>, up: Parents<V>)
    reads done`slots
  {
    && done <= hashed <= abs.Keys
    && (forall n | n in hashed && abs[n].Branch? :: n in done)
    && (forall n | n in hashed && !abs[n].Branch? :: n in up && up[n] in done)
    && (forall p | p in done :: |p.slots| == CHILDREN_COUNT && LeavesIn(p, CHILDREN_COUNT, hashed, abs))
  }

  lemma Unsettle<V>(hashed: set<Node<V>>, done: set<Node<V>>, cur: Node<V>, abs: Trees<V>, up: Parents<V>)
    requires Settled(hashed, done, abs, up) && cur in abs && |cur.slots| == CHILDREN_COUNT
    ensures Freshness(hashed, done, cur, 0, abs, up)
  {}

  lemma Settle<V>(hashed: set<Node<V>>, done: set<Node<V>>, cur: Node<V>, abs: Trees<V>, up: Parents<V>)
    requires Freshness(hashed, done, cur, CHILDREN_COUNT, abs, up) && abs[cur].Branch?
    ensures Settled(hashed + {cur}, done + {cur}, abs, up)
  {
    hide LeavesIn;
    forall p | p in done + {cur}
      ensures |p.slots| == CHILDREN_COUNT && LeavesIn(p, CHILDREN_COUNT, hashed + {cur}, abs)
    {
      MoreLeaves(p, hashed, cur, abs);
    }
  }

  lemma MoreLeaves<V>(p: Node<V>, hashed: set<Node<V>>, c: Node<V>, abs: Trees<V>)
    requires |p.slots| == CHILDREN_COUNT && LeavesIn(p, CHILDREN_COUNT, hashed, abs)
    ensures LeavesIn(p, CHILDREN_COUNT, hashed + {c}, abs)
  {}

  ghost function Members<V>(nodes: seq<Node<V>>): set<Node<V>>
  {
    set n | n in nodes
  }

  /** The branch on top of the second stack comes after all branches below it. */
  lemma NextUp<V>(root: Node<V>, cache: seq<Node<V>>, a: nat, found: set<Node<V>>, done: set<Node<V>>, abs: Trees<V>,
      up: Parents<V>)
    requires Collected(root, cache, found, abs, up) && a < |cache| && done == Members(cache[a + 1..]) && root !in up
    ensures Next(cache[a], done, found, abs, up) && cache[a] in abs && abs[cache[a]].Branch? && abs[cache[a]].modified
      && |cache[a].slots| == CHILDREN_COUNT
  {
    var cur := cache[a];
    assert cur in found;
    hide Closed;
    forall n | n in found && n in up && up[n] == cur
      ensures n in done
    {
      var b :| 0 <= b < |cache| && cache[b] == n;
      var c :| 0 <= c < b && cache[c] == cur;
      assert cache[a + 1..][b - a - 1] == n;
    }
    forall b | a + 1 <= b < |cache|
      ensures cache[b] != cur
    {
      assert cache[a] == cur;
    }
  }

  lemma BranchMark<V>(hs: Hashing<V>, c: Node<V>, t: Tree<V>)
    requires t.Branch? && t.modified && c.valueHash == hs.sha(CachedSum(RehashKids(hs, t.kids))) && !c.modified
    ensures MarkOf(hs, c, true, t)
  {}

  lemma StackTail<V>(cache: seq<Node<V>>, a: nat)
    requires a < |cache|
    ensures Members(cache[a..]) == Members(cache[a + 1..]) + {cache[a]}
  {
    assert cache[a..] == [cache[a]] + cache[a + 1..];
  }

  lemma AllDone<V>(root: Node<V>, cache: seq<Node<V>>, found: set<Node<V>>, abs: Trees<V>, up: Parents<V>)
    requires Collected(root, cache, found, abs, up)
    ensures Members(cache[0..]) == found
  {
    assert cache[0..] == cache;
  }

  lemma NothingDone<V>(cache: seq<Node<V>>, abs: Trees<V>, up: Parents<V>)
    ensures Settled({}, {}, abs, up) && Members(cache[|cache|..]) == {}
  {}

  /** The second loop of `get_hash`. */
  method HashAll<V>(hs: Hashing<V>, root: Node<V>, cache: seq<Node<V>>, ghost found: set<Node<V>>, ghost abs: Trees<V>,
      ghost up: Parents<V>)
    returns (ghost hashed: set<Node<V>>)
    requires Shapes(abs, up) && Marks(hs, {}, abs) && Collected(root, cache, found, abs, up) && root !in up
    modifies abs.Keys`valueHash, abs.Keys`modified
    ensures Shapes(abs, up) && Marks(hs, hashed, abs) && Settled(hashed, found, abs, up)
  {
    hide *;
    hashed := {};
    ghost var done: set<Node<V>> := {};
    var a := |cache|;
    NothingDone(cache, abs, up);
    while a > 0
      invariant 0 <= a <= |cache| && done == Members(cache[a..])
      invariant Shapes(abs, up) && Marks(hs, hashed, abs) && Settled(hashed, done, abs, up)
        && Collected(root, cache, found, abs, up)
    {
      a := a - 1;
      var top := cache[a];
      NextUp(root, cache, a, found, done, abs, up);
      Unsettle(hashed, done, top, abs, up);
      var sum;
      sum, hashed := HashChildren(hs, top, hashed, done, found, abs, up);
      MarksBut(hs, hashed, abs, top);
      top.modified := false;
      top.valueHash := hs.sha(sum);
      BranchMark(hs, top, abs[top]);
      MarkFresh(hs, hashed, abs, top);
      Settle(hashed, done, top, abs, up);
      StackTail(cache, a);
      hashed, done := hashed + {top}, done + {top};
    }
    AllDone(root, cache, found, abs, up);
  }

  // ---- the trees afterwards ----

  ghost function NewTrees<V>(hs: Hashing<V>, hashed: set<Node<V>>, abs: Trees<V>): (r: Trees<V>)
    ensures r.Keys == abs.Keys
  {
    map n | n in abs :: if n in hashed then RehashKid(hs, abs[n]) else abs[n]
  }

  lemma {:induction false} RehashCount<V>(hs: Hashing<V>, kids: seq<Tree<V>>)
    ensures Count(RehashKids(hs, kids)) == Count(kids)
  {
    if kids != [] {
      RehashCount(hs, kids[..|kids| - 1]);
      assert RehashKids(hs, kids)[..|kids| - 1] == RehashKids(hs, kids[..|kids| - 1]);
    }
  }

  lemma RehashSub<V>(hs: Hashing<V>, t: Tree<V>)
    requires !t.Absent?
    ensures RehashKid(hs, t).sub == t.sub
  {}

  /** The kid in a slot of a hashed branch is hashed, or needs no hashing. */
  lemma KidHashed<V>(hs: Hashing<V>, n: Node<V>, i: nat, hashed: set<Node<V>>, found: set<Node<V>>, abs: Trees<V>,
      up: Parents<V>)
    requires Shapes(abs, up) && Settled(hashed, found, abs, up) && n in found && n in abs && abs[n].Branch?
      && Closed(n, CHILDREN_COUNT, found, abs)
    requires i < CHILDREN_COUNT && |n.slots| == CHILDREN_COUNT && n.slots[i] != null && n.slots[i] in abs
    ensures var c := n.slots[i]; NewTrees(hs, hashed, abs)[c] == RehashKid(hs, abs[c])
  {
    hide RehashKid;
    var c := n.slots[i];
    assert ShapeOf(c, abs, up);
    if c !in hashed {
      assert abs[c].Branch? && !abs[c].modified;
      UnmarkedKid(hs, abs[c]);
    }
  }

  lemma NewChild<V>(hs: Hashing<V>, n: Node<V>, i: nat, c: Node<V>, hashed: set<Node<V>>, abs: Trees<V>, up: Parents<V>)
    requires Child(n, i, c, abs, up)
    ensures Child(n, i, c, NewTrees(hs, hashed, abs), up)
  {
    RehashSub(hs, abs[c]);
  }

  lemma HashedShows<V>(hs: Hashing<V>, n: Node<V>, hashed: set<Node<V>>, found: set<Node<V>>, abs: Trees<V>,
      up: Parents<V>)
    requires Shapes(abs, up) && Marks(hs, hashed, abs) && Settled(hashed, found, abs, up) && n in hashed && n in abs
    requires forall p | p in found ::
        p in abs && abs[p].Branch? && abs[p].modified && Closed(p, CHILDREN_COUNT, found, abs)
    ensures Shows(n, NewTrees(hs, hashed, abs), up)
  {
    assert ShapeOf(n, abs, up) && MarkOf(hs, n, true, abs[n]);
    if abs[n].Branch? {
      hide RehashKid, Count;
      RehashedBranch(hs, abs[n]);
      RehashCount(hs, abs[n].kids);
      forall i | 0 <= i < CHILDREN_COUNT && n.slots[i] != null
        ensures NewTrees(hs, hashed, abs)[n.slots[i]] == RehashKid(hs, abs[n].kids[i])
          && Child(n, i, n.slots[i], NewTrees(hs, hashed, abs), up)
      {
        KidHashed(hs, n, i, hashed, found, abs, up);
        NewChild(hs, n, i, n.slots[i], hashed, abs, up);
      }
    }
  }

  lemma RehashedBranch<V>(hs: Hashing<V>, t: Tree<V>)
    requires t.Branch? && t.modified
    ensures var kids := RehashKids(hs, t.kids);
      RehashKid(hs, t) == Branch(t.key, t.sub, kids, hs.sha(CachedSum(kids)), false)
  {}

  lemma OtherShows<V>(hs: Hashing<V>, n: Node<V>, hashed: set<Node<V>>, found: set<Node<V>>, abs: Trees<V>,
      up: Parents<V>)
    requires Shapes(abs, up) && Marks(hs, hashed, abs) && Settled(hashed, found, abs, up) && n !in hashed && n in abs
    requires forall p | p in found && p in up :: up[p] in found
    ensures Shows(n, NewTrees(hs, hashed, abs), up)
  {
    hide RehashKid, Count;
    assert ShapeOf(n, abs, up) && MarkOf(hs, n, false, abs[n]);
    if abs[n].Branch? {
      forall i | 0 <= i < CHILDREN_COUNT && n.slots[i] != null
        ensures NewTrees(hs, hashed, abs)[n.slots[i]] == abs[n.slots[i]]
      {
        assert n.slots[i] !in hashed;
      }
    }
  }

  lemma FoundParents<V>(root: Node<V>, cache: seq<Node<V>>, found: set<Node<V>>, abs: Trees<V>, up: Parents<V>)
    requires Collected(root, cache, found, abs, up) && root !in up
    ensures forall p | p in found && p in up :: up[p] in found
    ensures root in found && forall p | p in found ::
        p in abs && abs[p].Branch? && abs[p].modified && Closed(p, CHILDREN_COUNT, found, abs)
  {
    hide Closed;
    forall p | p in found && p in up
      ensures up[p] in found
    {
      var b :| 0 <= b < |cache| && cache[b] == p;
    }
  }

  /** After both loops the nodes show the trees that rehashing yields. */
  lemma HashedTrie<V>(hs: Hashing<V>, root: Node<V>, cache: seq<Node<V>>, hashed: set<Node<V>>, found: set<Node<V>>,
      abs: Trees<V>, up: Parents<V>)
    requires Shapes(abs, up) && Marks(hs, hashed, abs) && Settled(hashed, found, abs, up)
      && Collected(root, cache, found, abs, up) && root !in up
    ensures RestOk({}, NewTrees(hs, hashed, abs), up)
    ensures root in abs && root in hashed && abs[root].Branch?
  {
    hide *;
    FoundParents(root, cache, found, abs, up);
    SettledFound(hashed, found, abs, up);
    forall n | n in abs
      ensures Shows(n, NewTrees(hs, hashed, abs), up)
    {
      if n in hashed { HashedShows(hs, n, hashed, found, abs, up); } else { OtherShows(hs, n, hashed, found, abs, up); }
    }
    AllShown(NewTrees(hs, hashed, abs), up);
  }

  lemma SettledFound<V>(hashed: set<Node<V>>, found: set<Node<V>>, abs: Trees<V>, up: Parents<V>)
    requires Settled(hashed, found, abs, up)
    ensures found <= hashed
  {}

  lemma StartShapes<V>(hs: Hashing<V>, abs: Trees<V>, up: Parents<V>)
    requires RestOk({}, abs, up)
    ensures Shapes(abs, up) && Marks(hs, {}, abs)
  {
    hide Count;
    forall n | n in abs.Keys
      ensures ShapeOf(n, abs, up) && !abs[n].Absent? && MarkOf(hs, n, false, abs[n])
    {
      assert Shows(n, abs, up);
    }
  }

  lemma UnmarkedRoot<V>(hs: Hashing<V>, t: Tree<V>)
    requires t.Branch?
    ensures !t.modified ==> RehashBranch(hs, t) == t
  {}

  lemma NewRoot<V>(hs: Hashing<V>, root: Node<V>, hashed: set<Node<V>>, abs: Trees<V>)
    requires root in abs && root in hashed
    ensures NewTrees(hs, hashed, abs)[root] == RehashKid(hs, abs[root])
  {}
}
