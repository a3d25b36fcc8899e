/**
 The nodes of the trie as objects, what a node shows of the tree below it, and what remains of that
 when one node of a path from the root is changed.
 */
module TrieNodes {
  import opened Options
  import opened Uint256
  import opened TrieModel
  import opened TrieShape
  import opened TrieTheory

  lemma {:induction false} CommonUnique(a: Path, b: Path, n: nat)
    requires n <= |a| && n <= |b| && forall m | 0 <= m < n :: a[m] == b[m]
    requires n == |a| || n == |b| || a[n] != b[n]
    ensures Common(a, b) == n
  {
    var c := Common(a, b);
    assert c >= n;
    assert forall m | 0 <= m < c :: a[m] == a[..c][m] == b[..c][m] == b[m];
  }

  /** Where a search goes after it has compared the prefix of a node with the rest of its key. */
  lemma LookupStep<V>(t: Tree<V>, p: Path, k: Path)
    requires NodeOk(t, p) && |p| + |k| == KEY_LENGTH
    ensures !t.Absent? && t.sub != [] && |t.key| == |p| + |t.sub|
    ensures var c := Common(t.sub, k);
            && (c < |t.sub| ==> LookupNode(t, k) == None)
            && (c == |t.sub| ==> k[..c] == t.sub)
            && (c == |t.sub| && c == |k| ==> t.Leaf? && LookupNode(t, k) == Some(t.value))
            && (c == |t.sub| && c < |k| ==>
                  t.Branch? && KidsOk(t.kids, p + t.sub) && LookupNode(t, k) == LookupKids(t.kids, k[c..]))
  {
    var c := Common(t.sub, k);
    assert t.sub == t.sub[..|t.sub|] && k == k[..|k|];
    if c < |t.sub| && c < |k| {
      if |t.sub| <= |k| { assert k[..|t.sub|][c] == k[c]; }
    }
  }

  /** Where a search goes at a branch: into the slot of the next nibble. */
  lemma SlotStep<V>(kids: seq<Tree<V>>, p: Path, k: Path)
    requires KidsOk(kids, p) && |p| + |k| == KEY_LENGTH && k != []
    ensures |kids| == CHILDREN_COUNT
    ensures kids[k[0]].Absent? ==> LookupKids(kids, k) == None
    ensures !kids[k[0]].Absent? ==> NodeOk(kids[k[0]], p) && LookupKids(kids, k) == LookupNode(kids[k[0]], k)
  {}

  /** A node together with its 16-slot child table. */
  class Node<V> {
    var leaf: bool
    var modified: bool
    var valueHash: Hash
    var key: string
    var subKey: Path
    var value: Option<V>
    var slots: seq<Node?<V>>
    var count: nat

    constructor Extension(key: string, subKey: Path)
      ensures !leaf && modified && valueHash == Zero() && this.key == key && this.subKey == subKey && value == None
      ensures slots == seq(CHILDREN_COUNT, _ => null) && count == 0
    {
      leaf, modified, valueHash, this.key, this.subKey, value := false, true, Zero(), key, subKey, None;
      slots, count := seq(CHILDREN_COUNT, _ => null), 0;
    }

    constructor LeafNode(key: string, subKey: Path, v: V)
      ensures leaf && modified && valueHash == Zero() && this.key == key && this.subKey == subKey && value == Some(v)
      ensures slots == [] && count == 0
    {
      leaf, modified, valueHash, this.key, this.subKey, value := true, true, Zero(), key, subKey, Some(v);
      slots, count := [], 0;
    }

    /** Does nothing when the slot is taken. */
    method InsertChild(i: Nibble, node: Node<V>) returns (done: bool)
      requires |slots| == CHILDREN_COUNT
      modifies this`slots, this`count
      ensures done == (old(slots)[i] == null)
      ensures done ==> slots == old(slots)[i := node] && count == old(count) + 1
      ensures !done ==> slots == old(slots) && count == old(count)
    {
      if slots[i] != null { return false; }
      slots, count := slots[i := node], count + 1;
      return true;
    }

    method EraseChild(i: Nibble) returns (done: bool)
      requires |slots| == CHILDREN_COUNT && (slots[i] != null ==> count > 0)
      modifies this`slots, this`count
      ensures done == (old(slots)[i] != null)
      ensures done ==> slots == old(slots)[i := null] && count == old(count) - 1
      ensures !done ==> slots == old(slots) && count == old(count)
    {
      if slots[i] == null { return false; }
      slots, count := slots[i := null], count - 1;
      return true;
    }

    /** Replaces the node in a slot that is taken and returns the one it held. */
    method ReplaceChild(i: Nibble, node: Node<V>) returns (prev: Node?<V>)
      requires |slots| == CHILDREN_COUNT
      modifies this`slots
      ensures prev == old(slots)[i]
      ensures slots == if prev != null then old(slots)[i := node] else old(slots)
    {
      prev := slots[i];
      if prev != null { slots := slots[i := node]; }
    }

    method FirstChild() returns (f: int)
      ensures f == -1 ==> forall i | 0 <= i < |slots| :: slots[i] == null
      ensures f != -1 ==> 0 <= f < |slots| && slots[f] != null && forall i | 0 <= i < f :: slots[i] == null
    {
      var i := 0;
      while i < |slots|
        invariant 0 <= i <= |slots|
        invariant forall j | 0 <= j < i :: slots[j] == null
      {
        if slots[i] != null { return i; }
        i := i + 1;
      }
      return -1;
    }
  }

  /** The tree below each node of a trie. */
  type Trees<!V> = map<Node<V>, Tree<V>>

  /** The parent of each node but the root. */
  type Parents<!V> = map<Node<V>, Node<V>>

  ghost predicate Shows<V>(n: Node<V>, abs: Trees<V>, up: Parents<V>)
    reads n
  {
    n in abs &&
    match abs[n]
    case Absent => false
    case Leaf(key, sub, value, hash, modified) =>
      && n.leaf && n.key == key && n.subKey == sub && n.value == Some(value)
      && n.valueHash == hash && n.modified == modified
    case Branch(key, sub, kids, hash, modified) =>
      && !n.leaf && n.key == key && n.subKey == sub && n.valueHash == hash && n.modified == modified
      && |n.slots| == |kids| == CHILDREN_COUNT && n.count == Count(kids)
      && forall i | 0 <= i < CHILDREN_COUNT ::
           if n.slots[i] == null then kids[i].Absent? else
                 Child(n, i, n.slots[i], abs, up) && abs[n.slots[i]] == kids[i]
  }

  /** `c` is the child of `n` in slot `i`. */
  ghost predicate Child<V>(n: Node<V>, i: nat, c: Node<V>, abs: Trees<V>, up: Parents<V>)
  {
    && c in abs && !abs[c].Absent? && abs[c].sub != [] && abs[c].sub[0] == i
    && c in up && up[c] == n
  }

  /** Node `n` shows its tree but for its mark, its count and what slot `x` holds. */
  ghost predicate ShowsRest<V>(n: Node<V>, x: Nibble, abs: Trees<V>, up: Parents<V>)
    reads n`leaf, n`key, n`subKey, n`valueHash, n`slots
  {
    && n in abs && abs[n].Branch? && !n.leaf && n.key == abs[n].key && n.subKey == abs[n].sub
    && n.valueHash == abs[n].hash && |n.slots| == |abs[n].kids| == CHILDREN_COUNT
    && forall i | 0 <= i < CHILDREN_COUNT && i != x ::
         if n.slots[i] == null then abs[n].kids[i].Absent?
         else Child(n, i, n.slots[i], abs, up) && abs[n.slots[i]] == abs[n].kids[i]
  }

  /** Node `n` shows its tree but for its mark and for which child slot `x` holds. */
  ghost predicate ShowsBut<V>(n: Node<V>, x: Nibble, abs: Trees<V>, up: Parents<V>)
    reads n`leaf, n`key, n`subKey, n`valueHash, n`slots, n`count
  {
    && ShowsRest(n, x, abs, up)
    && n.count == Count(abs[n].kids) - (if abs[n].kids[x].Absent? then 0 else 1) + (if n.slots[x] == null then 0 else 1)
    && (n.slots[x] != null ==> Child(n, x, n.slots[x], abs, up))
  }

  /** The inner loop of every walk: `j` runs along the prefix of a node, `i` along the key. It stops
      at the first nibble that differs, at the end of the key, or at the end of the prefix. */
  method MatchPrefix(sub: Path, k: Key, start: nat) returns (j: nat)
    requires sub != [] && start < KEY_LENGTH
    ensures j == Common(sub, k[start..])
  {
    var last, subLast := KEY_LENGTH - 1, |sub| - 1;
    var i := start;
    j := 0;
    while j <= subLast
      invariant 0 <= j <= subLast && i == start + j <= last
      invariant forall m | 0 <= m < j :: sub[m] == k[start..][m]
      decreases subLast - j
    {
      if sub[j] == k[i] {
        if i == last || j == subLast {
          j := j + 1;
          CommonUnique(sub, k[start..], j);
          return;
        }
      } else {
        CommonUnique(sub, k[start..], j);
        return;
      }
      j, i := j + 1, i + 1;
    }
  }

  /** `path` leads from the root along `k`; node `path[j]` is reached after `at[j]` nibbles. */
  ghost predicate Along<V>(path: seq<Node<V>>, at: seq<nat>, k: Key, abs: Trees<V>)
    reads (set n | n in path)`slots
  {
    && |path| == |at| > 0 && at[0] == 0
    && (forall j | 0 <= j < |path| ::
          && path[j] in abs && abs[path[j]].Branch? && |path[j].slots| == CHILDREN_COUNT
          && at[j] < KEY_LENGTH && KidsOk(abs[path[j]].kids, k[..at[j]])
          && |abs[path[j]].key| == if j == 0 then KEY_LENGTH else at[j])
    && (forall j | 0 <= j < |path| - 1 :: path[j].slots[k[at[j]]] == path[j + 1])
    && (forall j | 0 < j < |path| :: at[j - 1] < at[j] && abs[path[j]].sub == k[at[j - 1]..at[j]])
    && (forall i, j | 0 <= i < j < |path| :: at[i] < at[j])
  }

  lemma AlongOne<V>(root: Node<V>, k: Key, abs: Trees<V>)
    requires root in abs && RootOk(abs[root]) && |root.slots| == CHILDREN_COUNT
    ensures Along([root], [0], k, abs)
  {
    assert k[..0] == [];
  }

  lemma AlongNext<V>(path: seq<Node<V>>, at: seq<nat>, k: Key, abs: Trees<V>, next: Node<V>, i: nat)
    requires Along(path, at, k, abs) && next in abs && abs[next].Branch? && |next.slots| == CHILDREN_COUNT
    requires at[|at| - 1] < i < KEY_LENGTH && path[|path| - 1].slots[k[at[|at| - 1]]] == next
    requires KidsOk(abs[next].kids, k[..i]) && |abs[next].key| == i && abs[next].sub == k[at[|at| - 1]..i]
    ensures Along(path + [next], at + [i], k, abs)
  {
    hide KidsOk, Count;
  }

  lemma KeyFacts(k: Key, i: nat)
    requires i < KEY_LENGTH
    ensures KEY_LENGTH == 64 && CHILDREN_COUNT == 16 && |k[..i]| + |k[i..]| == KEY_LENGTH && k[i..] != []
      && k[i..][0] == k[i]
  {}

  lemma KeyShift(k: Key, i: nat, c: nat)
    requires i + c <= KEY_LENGTH
    ensures k[i..][c..] == k[i + c..] && k[..i] + k[i..][..c] == k[..i + c] && k[i..][..c] == k[i..i + c]
  {}

  lemma SlotFacts<V>(n: Node<V>, x: Nibble, abs: Trees<V>, up: Parents<V>)
    requires Shows(n, abs, up) && abs[n].Branch?
    ensures |n.slots| == |abs[n].kids| == CHILDREN_COUNT == 16 && n.count == Count(abs[n].kids)
    ensures n.slots[x] == null ==> abs[n].kids[x].Absent?
    ensures n.slots[x] != null ==>
        Child(n, x, n.slots[x], abs, up) && n.slots[x] in abs && abs[n.slots[x]] == abs[n].kids[x]
    ensures n.slots[x] != null ==> !abs[n].kids[x].Absent?
  {}

  lemma NodeFacts<V>(n: Node<V>, abs: Trees<V>, up: Parents<V>)
    requires Shows(n, abs, up)
    ensures !abs[n].Absent? && n.subKey == abs[n].sub && (abs[n].Branch? ==> |n.slots| == CHILDREN_COUNT)
  {}

  /** The kid a marked node has in slot `x` now. */
  ghost function Kid<V>(n: Node<V>, x: Nibble, abs: Trees<V>): Tree<V>
    reads n`slots
    requires |n.slots| == CHILDREN_COUNT && (n.slots[x] != null ==> n.slots[x] in abs)
  {
    if n.slots[x] == null then Absent else abs[n.slots[x]]
  }

  lemma FinishNode<V>(n: Node<V>, x: Nibble, abs: Trees<V>, up: Parents<V>, g: Tree<V>)
    requires ShowsBut(n, x, abs, up) && n.modified && (n in up ==> up[n] != n)
    requires g == abs[n].(kids := abs[n].kids[x := Kid(n, x, abs)], modified := true)
    ensures Shows(n, abs[n := g], up)
  {
    hide Count;
    CountUpdate(abs[n].kids, x, Kid(n, x, abs));
  }

  lemma KeepShows<V>(o: Node<V>, n: Node<V>, abs: Trees<V>, up: Parents<V>, g: Tree<V>)
    requires Shows(o, abs, up) && o != n && (n in up ==> up[n] != o)
    ensures Shows(o, abs[n := g], up)
  {
    hide Count;
  }

  /** A node that is no child of `o` may change its tree and its parent. */
  lemma KeepMoved<V>(o: Node<V>, n: Node<V>, abs: Trees<V>, up: Parents<V>, g: Tree<V>, p: Node<V>)
    requires Shows(o, abs, up) && o != n && (n in up ==> up[n] != o)
    ensures Shows(o, abs[n := g], up[n := p])
  {
    hide Count;
  }

  lemma KeepRest<V>(o: Node<V>, y: Nibble, n: Node<V>, abs: Trees<V>, up: Parents<V>, g: Tree<V>, p: Node<V>)
    requires ShowsRest(o, y, abs, up) && o != n
    requires n in up && up[n] == o ==> n in abs && !abs[n].Absent? && abs[n].sub != [] && abs[n].sub[0] == y
    ensures ShowsRest(o, y, abs[n := g], up[n := p])
  {}

  lemma KeepShowsBut<V>(o: Node<V>, y: Nibble, n: Node<V>, abs: Trees<V>, up: Parents<V>, g: Tree<V>)
    requires ShowsBut(o, y, abs, up) && o != n
    requires n in up && up[n] == o ==> n in abs && !abs[n].Absent? && abs[n].sub != [] && abs[n].sub[0] == y
    requires o.slots[y] == n ==> !g.Absent? && g.sub != [] && g.sub[0] == y
    ensures ShowsBut(o, y, abs[n := g], up)
  {
    hide Count;
  }

  /** The nodes of a path from the root down, each held by the one before it. */
  ghost predicate Linked<V>(stack: seq<Node<V>>, at: seq<nat>, k: Key, abs: Trees<V>)
    reads (set n | n in stack)`slots
  {
    && |stack| == |at| > 0
    && (forall i, j | 0 <= i < j < |stack| :: stack[i] != stack[j])
    && (forall j | 0 <= j < |stack| ::
          && at[j] < KEY_LENGTH && stack[j] in abs && abs[stack[j]].Branch?
          && |stack[j].slots| == |abs[stack[j]].kids| == CHILDREN_COUNT
          && (stack[j].slots[k[at[j]]] != null ==> stack[j].slots[k[at[j]]] in abs))
    && (forall j | 0 <= j < |stack| - 1 :: stack[j].slots[k[at[j]]] == stack[j + 1])
  }

  ghost function Replace<V>(t: Tree<V>, x: Nibble, kid: Tree<V>): Tree<V>
    requires t.Branch? && |t.kids| == CHILDREN_COUNT
  {
    t.(kids := t.kids[x := kid], modified := true)
  }

  /** `goal[j]` is the tree of `stack[j]`, marked, once the path holds `kid` at its end. */
  ghost predicate Goals<V>(stack: seq<Node<V>>, at: seq<nat>, k: Key, abs: Trees<V>, kid: Tree<V>, goal: seq<Tree<V>>)
  {
    && |stack| == |at| == |goal| > 0
    && (forall j | 0 <= j < |stack| ::
          at[j] < KEY_LENGTH && stack[j] in abs && abs[stack[j]].Branch? && |abs[stack[j]].kids| == CHILDREN_COUNT)
    && (forall j | 0 <= j < |stack| - 1 :: goal[j] == Replace(abs[stack[j]], k[at[j]], goal[j + 1]))
    && (var j := |stack| - 1; goal[j] == Replace(abs[stack[j]], k[at[j]], kid))
  }

  lemma GoalsLast<V>(stack: seq<Node<V>>, at: seq<nat>, k: Key, abs: Trees<V>, kid: Tree<V>, goal: seq<Tree<V>>)
    requires Goals(stack, at, k, abs, kid, goal)
    ensures |goal| == |stack| == |at| > 0 && KEY_LENGTH == 64 && CHILDREN_COUNT == 16
    ensures var j := |stack| - 1;
            && at[j] < KEY_LENGTH && stack[j] in abs && abs[stack[j]].Branch? && |abs[stack[j]].kids| == CHILDREN_COUNT
            && goal[j] == Replace(abs[stack[j]], k[at[j]], kid)
  {}

  lemma GoalsPrefix<V>(stack: seq<Node<V>>, at: seq<nat>, k: Key, abs: Trees<V>, kid: Tree<V>, goal: seq<Tree<V>>,
      t: Tree<V>)
    requires Goals(stack, at, k, abs, kid, goal) && |stack| > 1 && Linked(stack, at, k, abs)
    ensures var j := |stack| - 1; Goals(stack[..j], at[..j], k, abs[stack[j] := t], goal[j], goal[..j])
  {
    var l := |stack| - 1;
    assert goal[l - 1] == Replace(abs[stack[l - 1]], k[at[l - 1]], goal[l - 1 + 1]);
  }

  lemma KeepGoals<V>(stack: seq<Node<V>>, at: seq<nat>, k: Key, abs: Trees<V>, kid: Tree<V>, goal: seq<Tree<V>>,
      c: Node<V>, t: Tree<V>)
    requires Goals(stack, at, k, abs, kid, goal) && c !in stack
    ensures Goals(stack, at, k, abs[c := t], kid, goal)
  {}

  /** The trees of the marked nodes of a path, brought up to date from the last node up to the root. */
  lemma FinishPath<V>(stack: seq<Node<V>>, at: seq<nat>, k: Key, goal: seq<Tree<V>>, abs: Trees<V>, up: Parents<V>,
      kid: Tree<V>)
    returns (done: Trees<V>)
    requires Linked(stack, at, k, abs) && stack[0] !in up && (forall n | n in stack :: n.modified)
    requires forall j | 0 <= j < |stack| :: ShowsBut(stack[j], k[at[j]], abs, up)
    requires forall n | n in abs && n !in stack :: Shows(n, abs, up)
    requires Kid(stack[|stack| - 1], k[at[|at| - 1]], abs) == kid && Goals(stack, at, k, abs, kid, goal)
    ensures done.Keys == abs.Keys && (forall n | n in done :: Shows(n, done, up))
    ensures forall j | 0 <= j < |stack| :: done[stack[j]] == goal[j]
    ensures forall n | n in abs && n !in stack :: done[n] == abs[n]
  {
    hide *;
    LinkedLast(stack, at, k, abs);
    GoalsLast(stack, at, k, abs, kid, goal);
    var j := |stack| - 1;
    FinishStep(stack, at, k, goal[j], abs, up);
    done := abs[stack[j] := goal[j]];
    if j > 0 {
      LinkedPrefix(stack, at, k, abs, goal[j]);
      GoalsPrefix(stack, at, k, abs, kid, goal, goal[j]);
      HeldKid(stack[j - 1], k[at[j - 1]], stack[j], done);
      done := FinishPath(stack[..j], at[..j], k, goal[..j], done, up, goal[j]);
    }
    forall i | 0 <= i < |stack|
      ensures done[stack[i]] == goal[i]
    {
      if i < j { assert stack[i] == stack[..j][i] && goal[i] == goal[..j][i]; }
    }
  }

  lemma LinkedLast<V>(stack: seq<Node<V>>, at: seq<nat>, k: Key, abs: Trees<V>)
    requires Linked(stack, at, k, abs)
    ensures |stack| == |at| > 0 && KEY_LENGTH == 64 && CHILDREN_COUNT == 16
    ensures var j := |stack| - 1;
            && at[j] < KEY_LENGTH && stack[j] in abs && |stack[j].slots| == CHILDREN_COUNT && stack[j] !in stack[..j]
            && (stack[j].slots[k[at[j]]] != null ==> stack[j].slots[k[at[j]]] in abs)
            && (j > 0 ==>
                  at[j - 1] < KEY_LENGTH && |stack[j - 1].slots| == CHILDREN_COUNT
                  && stack[j - 1].slots[k[at[j - 1]]] == stack[j])
  {}

  /** Slot `x` of node `n` holds the tree `kid`. */
  ghost predicate Holds<V>(n: Node<V>, x: Nibble, abs: Trees<V>, kid: Tree<V>)
    reads n`slots
  {
    |n.slots| == CHILDREN_COUNT && if n.slots[x] == null then kid.Absent? else
          n.slots[x] in abs && abs[n.slots[x]] == kid
  }

  lemma MakeHolds<V>(n: Node<V>, x: Nibble, abs: Trees<V>, kid: Tree<V>)
    requires |n.slots| == CHILDREN_COUNT && if n.slots[x] == null then kid.Absent? else
        n.slots[x] in abs && abs[n.slots[x]] == kid
    ensures Holds(n, x, abs, kid)
  {}

  lemma HoldsKid<V>(n: Node<V>, x: Nibble, abs: Trees<V>, kid: Tree<V>)
    requires Holds(n, x, abs, kid) && |n.slots| == CHILDREN_COUNT && (n.slots[x] != null ==> n.slots[x] in abs)
    ensures Kid(n, x, abs) == kid
  {}

  lemma RestFacts<V>(skip: set<Node<V>>, abs: Trees<V>, up: Parents<V>)
    requires RestOk(skip, abs, up)
    ensures forall n | n in abs && n !in skip :: Shows(n, abs, up)
  {}

  lemma AllShown<V>(abs: Trees<V>, up: Parents<V>)
    requires forall n | n in abs :: Shows(n, abs, up)
    ensures RestOk({}, abs, up)
  {}

  lemma HeldKid<V>(n: Node<V>, x: Nibble, c: Node<V>, abs: Trees<V>)
    requires |n.slots| == CHILDREN_COUNT && n.slots[x] == c && c in abs
    ensures Kid(n, x, abs) == abs[c]
  {}

  lemma PathChild<V>(n: Node<V>, x: Nibble, c: Node<V>, abs: Trees<V>, up: Parents<V>)
    requires ShowsBut(n, x, abs, up) && n.slots[x] == c
    ensures Child(n, x, c, abs, up)
  {}

  lemma LinkedPrefix<V>(stack: seq<Node<V>>, at: seq<nat>, k: Key, abs: Trees<V>, g: Tree<V>)
    requires Linked(stack, at, k, abs) && |stack| > 1
    ensures var j := |stack| - 1; Linked(stack[..j], at[..j], k, abs[stack[j] := g])
  {}

  lemma FinishStep<V>(stack: seq<Node<V>>, at: seq<nat>, k: Key, g: Tree<V>, abs: Trees<V>, up: Parents<V>)
    requires Linked(stack, at, k, abs) && stack[0] !in up && (forall n | n in stack :: n.modified)
    requires forall j | 0 <= j < |stack| :: ShowsBut(stack[j], k[at[j]], abs, up)
    requires forall n | n in abs && n !in stack :: Shows(n, abs, up)
    requires var j := |stack| - 1; g == Replace(abs[stack[j]], k[at[j]], Kid(stack[j], k[at[j]], abs))
    ensures var j := |stack| - 1;
            && (forall n | n in abs && n !in stack[..j] :: Shows(n, abs[stack[j] := g], up))
            && (forall m | 0 <= m < j :: ShowsBut(stack[m], k[at[m]], abs[stack[j] := g], up))
  {
    var j := |stack| - 1;
    var n := stack[j];
    if j > 0 { PathChild(stack[j - 1], k[at[j - 1]], n, abs, up); }
    hide Shows, ShowsBut;
    FinishNode(n, k[at[j]], abs, up, g);
    forall o | o in abs && o !in stack[..j] && o != n
      ensures Shows(o, abs[n := g], up)
    {
      KeepShows(o, n, abs, up, g);
    }
    forall m | 0 <= m < j
      ensures ShowsBut(stack[m], k[at[m]], abs[n := g], up)
    {
      KeepShowsBut(stack[m], k[at[m]], n, abs, up, g);
    }
  }

  method MarkAll<V>(nodes: seq<Node<V>>)
    modifies (set n | n in nodes)`modified
    ensures forall n | n in nodes :: n.modified
  {
    var stack := nodes;
    while stack != []
      invariant stack <= nodes
      invariant forall n | n in nodes[|stack|..] :: n.modified
    {
      stack[|stack| - 1].modified := true;
      stack := stack[..|stack| - 1];
    }
  }

  /** The trees of a path: each holds the next one where the key goes on. */
  ghost predicate TreePath<V>(ts: seq<Tree<V>>, at: seq<nat>, k: Key)
  {
    && |ts| == |at| > 0 && at[0] == 0
    && (forall j | 0 <= j < |ts| :: at[j] < KEY_LENGTH && ts[j].Branch? && |ts[j].kids| == CHILDREN_COUNT)
    && (forall j | 0 <= j < |ts| - 1 ::
          at[j] < at[j + 1] && ts[j].kids[k[at[j]]] == ts[j + 1] && ts[j + 1].sub == k[at[j]..at[j + 1]])
  }

  /** `goal[j]` is `ts[j]` marked, with `kid` in place at the end of the path. */
  ghost predicate Grafted<V>(ts: seq<Tree<V>>, at: seq<nat>, k: Key, kid: Tree<V>, goal: seq<Tree<V>>)
    requires TreePath(ts, at, k)
  {
    && |goal| == |ts|
    && (forall j | 0 <= j < |ts| - 1 :: goal[j] == Replace(ts[j], k[at[j]], goal[j + 1]))
    && (var j := |ts| - 1; goal[j] == Replace(ts[j], k[at[j]], kid))
  }

  lemma GraftedPath<V>(ts: seq<Tree<V>>, at: seq<nat>, k: Key, kid: Tree<V>, goal: seq<Tree<V>>)
    requires TreePath(ts, at, k) && Grafted(ts, at, k, kid, goal)
    ensures TreePath(goal, at, k)
  {
    forall j | 0 <= j < |ts|
      ensures goal[j].Branch? && |goal[j].kids| == CHILDREN_COUNT && goal[j].sub == ts[j].sub
    {
      if j < |ts| - 1 { assert goal[j] == Replace(ts[j], k[at[j]], goal[j + 1]); }
    }
    forall j | 0 <= j < |ts| - 1
      ensures goal[j].kids[k[at[j]]] == goal[j + 1] && goal[j + 1].sub == k[at[j]..at[j + 1]]
    {
      assert goal[j] == Replace(ts[j], k[at[j]], goal[j + 1]) && ts[j + 1].sub == k[at[j]..at[j + 1]];
    }
  }

  lemma UpdateGoal<V>(ts: seq<Tree<V>>, at: seq<nat>, k: Key, v: V) returns (goal: seq<Tree<V>>)
    requires TreePath(ts, at, k) && ts[|ts| - 1].kids[k[at[|ts| - 1]]].Leaf?
    ensures Grafted(ts, at, k, ts[|ts| - 1].kids[k[at[|ts| - 1]]].(value := v), goal)
    ensures goal[0] == UpdateBranch(ts[0], k, v)
  {
    goal := seq(|ts|, j requires 0 <= j < |ts| => UpdateBranch(ts[j], k[at[j]..], v));
    forall j | 0 <= j < |ts| - 1
      ensures goal[j] == Replace(ts[j], k[at[j]], goal[j + 1])
    {
      assert k[at[j]..][at[j + 1] - at[j]..] == k[at[j + 1]..];
    }
    assert k[0..] == k;
  }

  lemma LeafShows<V>(n: Node<V>, t: Tree<V>, abs: Trees<V>, up: Parents<V>)
    requires n in abs && abs[n] == t && t.Leaf?
    requires n.leaf && n.key == t.key && n.subKey == t.sub && n.value == Some(t.value) && n.valueHash == t.hash
      && n.modified == t.modified
    ensures Shows(n, abs, up)
  {}

  lemma ShowsLeaf<V>(n: Node<V>, abs: Trees<V>, up: Parents<V>)
    requires n in abs && abs[n].Leaf? && Shows(n, abs, up)
    ensures var t := abs[n];
            n.leaf && n.key == t.key && n.subKey == t.sub && n.value == Some(t.value) && n.valueHash == t.hash
              && n.modified == t.modified
  {}

  // ---- insert ----

  lemma InsertStep<V>(t: Tree<V>, k: Key, d: nat, e: nat, v: V)
    requires t.Branch? && |t.kids| == CHILDREN_COUNT && d < e < KEY_LENGTH
    requires t.kids[k[d]].Branch? && t.kids[k[d]].sub == k[d..e]
    ensures InsertBranch(t, k[..d], k[d..], v) == Replace(t, k[d], InsertBranch(t.kids[k[d]], k[..e], k[e..], v))
  {
    KeyShift(k, d, e - d);
    var kid := t.kids[k[d]];
    CommonUnique(kid.sub, k[d..], e - d);
    assert InsertNode(kid, k[..d], k[d..], v) == InsertBranch(kid, k[..e], k[e..], v);
  }

  /** Inserting along a path changes the trees of the path, and replaces what its last slot holds. */
  lemma InsertGoal<V>(ts: seq<Tree<V>>, at: seq<nat>, k: Key, v: V, kid: Tree<V>) returns (goal: seq<Tree<V>>)
    requires TreePath(ts, at, k)
    requires var l := |ts| - 1; var i := at[l]; var was := ts[l].kids[k[i]];
             kid == if was.Absent? then NewLeaf(k[..i], k[i..], v) else InsertNode(was, k[..i], k[i..], v)
    ensures Grafted(ts, at, k, kid, goal) && goal[0] == InsertBranch(ts[0], [], k, v)
  {
    hide InsertNode;
    goal := seq(|ts|, j requires 0 <= j < |ts| => InsertBranch(ts[j], k[..at[j]], k[at[j]..], v));
    forall j | 0 <= j < |ts| - 1
      ensures goal[j] == Replace(ts[j], k[at[j]], goal[j + 1])
    {
      hide InsertBranch;
      InsertStep(ts[j], k, at[j], at[j + 1], v);
    }
    assert k[0..] == k && k[..0] == [];
  }

  lemma HexTake(p: Path, n: nat)
    requires n <= |p|
    ensures Hex(p)[..n] == Hex(p[..n])
  {}

  // ---- paths and the nodes beside them ----

  /** A path whose nodes show all but the end of the path. */
  ghost predicate PathOk<V>(stack: seq<Node<V>>, at: seq<nat>, k: Key, abs: Trees<V>, up: Parents<V>)
    reads (set n | n in stack)`leaf, (set n | n in stack)`key, (set n | n in stack)`subKey
    reads (set n | n in stack)`valueHash, (set n | n in stack)`slots, (set n | n in stack)`count
  {
    && |stack| == |at| > 0
    && (forall i, j | 0 <= i < j < |stack| :: stack[i] != stack[j])
    && (forall j | 0 <= j < |stack| :: at[j] < KEY_LENGTH && ShowsRest(stack[j], k[at[j]], abs, up))
    && (forall j | 0 <= j < |stack| - 1 :: Carries(stack[j], k[at[j]], stack[j + 1], abs, up))
  }

  /** Every node outside `skip` shows its tree. */
  ghost predicate RestOk<V>(skip: set<Node<V>>, abs: Trees<V>, up: Parents<V>)
    reads abs.Keys - skip
  {
    forall n | n in abs.Keys - skip :: Shows(n, abs, up)
  }

  lemma AddToPath<V>(stack: seq<Node<V>>, at: seq<nat>, k: Key, abs: Trees<V>, up: Parents<V>, c: Node<V>, t: Tree<V>,
      p: Node<V>)
    requires PathOk(stack, at, k, abs, up) && c !in stack && (c in up ==> up[c] !in stack)
    ensures PathOk(stack, at, k, abs[c := t], up[c := p])
  {
    hide ShowsRest, Carries;
    forall j | 0 <= j < |stack|
      ensures ShowsRest(stack[j], k[at[j]], abs[c := t], up[c := p])
    {
      KeepRest(stack[j], k[at[j]], c, abs, up, t, p);
    }
    forall j | 0 <= j < |stack| - 1
      ensures Carries(stack[j], k[at[j]], stack[j + 1], abs[c := t], up[c := p])
    {
      KeepCarries(stack[j], k[at[j]], stack[j + 1], c, abs, up, t, p);
    }
  }

  lemma AddToRest<V>(skip: set<Node<V>>, abs: Trees<V>, up: Parents<V>, c: Node<V>, t: Tree<V>, p: Node<V>)
    requires RestOk(skip, abs, up) && (c in up ==> up[c] in skip)
    ensures RestOk(skip + {c}, abs[c := t], up[c := p])
  {
    var abs', skip' := abs[c := t], skip + {c};
    forall n | n in abs'.Keys - skip'
      ensures Shows(n, abs', up[c := p])
    {
      assert n in abs.Keys - skip;
      KeepMoved(n, c, abs, up, t, p);
    }
  }

  lemma ShownToRest<V>(skip: set<Node<V>>, abs: Trees<V>, up: Parents<V>, c: Node<V>)
    requires RestOk(skip + {c}, abs, up) && Shows(c, abs, up)
    ensures RestOk(skip, abs, up)
  {}

  /** Moving the child `c` that the path ends at to another parent. */
  lemma MoveOnPath<V>(stack: seq<Node<V>>, at: seq<nat>, k: Key, abs: Trees<V>, up: Parents<V>, c: Node<V>, t: Tree<V>,
      p: Node<V>)
    requires PathOk(stack, at, k, abs, up) && c !in stack && Child(stack[|stack| - 1], k[at[|at| - 1]], c, abs, up)
    ensures PathOk(stack, at, k, abs[c := t], up[c := p])
  {
    hide ShowsRest, Carries;
    forall j | 0 <= j < |stack|
      ensures ShowsRest(stack[j], k[at[j]], abs[c := t], up[c := p])
    {
      KeepRest(stack[j], k[at[j]], c, abs, up, t, p);
    }
    forall j | 0 <= j < |stack| - 1
      ensures Carries(stack[j], k[at[j]], stack[j + 1], abs[c := t], up[c := p])
    {
      KeepCarries(stack[j], k[at[j]], stack[j + 1], c, abs, up, t, p);
    }
  }

  /** A node, what the nodes show, and the parent it gets. */
  datatype CutSite<!V> = CutSite(n: Node<V>, abs: Trees<V>, up: Parents<V>, p: Node<V>)

  /** A node with a new prefix and mark shows the tree with that prefix and mark, wherever it hangs. */
  twostate lemma CutShows<V>(a: CutSite<V>)
    requires
      var CutSite(n, abs, up, _) := a;
      && (old(Shows(n, abs, up)) && (n in up ==> up[n] != n))
      && n.leaf == old(n.leaf) && n.key == old(n.key) && n.value == old(n.value) && n.valueHash == old(n.valueHash)
      && n.slots == old(n.slots) && n.count == old(n.count)
    ensures
      var CutSite(n, abs, up, p) := a;
      && Shows(n, abs[n := abs[n].(sub := n.subKey, modified := n.modified)], up[n := p])
      && (n.modified == old(n.modified) ==>
            abs[n].(sub := n.subKey, modified := n.modified) == abs[n].(sub := n.subKey))
  {
    hide Count;
  }

  /** A slot of a node, and what the nodes show. */
  datatype SlotSite<!V> = SlotSite(n: Node<V>, x: Nibble, abs: Trees<V>, up: Parents<V>)

  twostate lemma SetSlot<V>(a: SlotSite<V>)
    requires
      var SlotSite(n, x, abs, up) := a;
      && old(ShowsRest(n, x, abs, up))
      && n.leaf == old(n.leaf) && n.key == old(n.key) && n.subKey == old(n.subKey) && n.valueHash == old(n.valueHash)
      && (|n.slots| == |old(n.slots)| && forall i | 0 <= i < |n.slots| && i != x :: n.slots[i] == old(n.slots)[i])
    ensures
      var SlotSite(n, x, abs, up) := a;
      && ShowsRest(n, x, abs, up)
  {}

  /** A path down a key, and what the nodes show. */
  datatype PathSite<!V> = PathSite(stack: seq<Node<V>>, at: seq<nat>, k: Key, abs: Trees<V>, up: Parents<V>)

  /** Setting the slot a path ends at leaves the path as it was. */
  twostate lemma SetPathSlot<V>(a: PathSite<V>)
    requires
      var PathSite(stack, at, k, abs, up) := a;
      && old(PathOk(stack, at, k, abs, up))
      && (forall n | n in stack ::
          && n.leaf == old(n.leaf) && n.key == old(n.key) && n.subKey == old(n.subKey)
            && n.valueHash == old(n.valueHash)
          && (n != stack[|stack| - 1] ==> n.slots == old(n.slots) && n.count == old(n.count)))
      && (var n, x := stack[|stack| - 1], k[at[|at| - 1]];
          |n.slots| == |old(n.slots)| && forall i | 0 <= i < |n.slots| && i != x :: n.slots[i] == old(n.slots)[i])
    ensures
      var PathSite(stack, at, k, abs, up) := a;
      && PathOk(stack, at, k, abs, up)
  {
    hide ShowsRest, Count;
    var PathSite(stack, at, k, abs, up) := a;
    forall j | 0 <= j < |stack|
      ensures ShowsRest(stack[j], k[at[j]], abs, up)
    {
      assert stack[j] in stack && (j < |stack| - 1 ==> stack[j] != stack[|stack| - 1]);
      SetSlot(SlotSite(stack[j], k[at[j]], abs, up));
    }
    forall j | 0 <= j < |stack| - 1
      ensures Carries(stack[j], k[at[j]], stack[j + 1], abs, up)
    {
      assert old(Carries(stack[j], k[at[j]], stack[j + 1], abs, up)) && stack[j] in stack
        && stack[j] != stack[|stack| - 1];
    }
  }

  /** Node `n` holds `c` in slot `x`, as its tree says. */
  ghost predicate Carries<V>(n: Node<V>, x: Nibble, c: Node<V>, abs: Trees<V>, up: Parents<V>)
    reads n`slots, n`count
  {
    && n in abs && abs[n].Branch? && |n.slots| == |abs[n].kids| == CHILDREN_COUNT && n.count == Count(abs[n].kids)
    && n.slots[x] == c && Child(n, x, c, abs, up) && !abs[n].kids[x].Absent?
  }

  lemma KeepCarries<V>(n: Node<V>, x: Nibble, c: Node<V>, d: Node<V>, abs: Trees<V>, up: Parents<V>, t: Tree<V>,
      p: Node<V>)
    requires Carries(n, x, c, abs, up) && n != d && c != d
    ensures Carries(n, x, c, abs[d := t], up[d := p])
  {
    hide Count;
  }

  /** Node `n` counts what slot `x` holds now, which may differ from what its tree says. */
  ghost predicate Counted<V>(n: Node<V>, x: Nibble, abs: Trees<V>, up: Parents<V>)
    reads n`slots, n`count
  {
    && n in abs && abs[n].Branch? && |n.slots| == |abs[n].kids| == CHILDREN_COUNT
    && (n.slots[x] != null ==> Child(n, x, n.slots[x], abs, up))
    && n.count == Count(abs[n].kids) - (if abs[n].kids[x].Absent? then 0 else 1) + (if n.slots[x] == null then 0 else 1)
  }

  lemma PathDistinct<V>(stack: seq<Node<V>>, at: seq<nat>, k: Key, base: Trees<V>, up: Parents<V>)
    requires PathOk(stack, at, k, base, up)
    ensures |stack| == |at| > 0 && forall j | 0 <= j < |stack| - 1 :: stack[j] != stack[|stack| - 1]
  {}

  lemma PathShown<V>(stack: seq<Node<V>>, at: seq<nat>, k: Key, base: Trees<V>, up: Parents<V>)
    requires PathOk(stack, at, k, base, up) && Counted(stack[|stack| - 1], k[at[|at| - 1]], base, up)
    ensures Linked(stack, at, k, base) && forall n | n in stack :: n in base
    ensures forall j | 0 <= j < |stack| :: ShowsBut(stack[j], k[at[j]], base, up)
  {
    hide Count;
    forall j | 0 <= j < |stack|
      ensures ShowsBut(stack[j], k[at[j]], base, up)
    {
      if j < |stack| - 1 { assert Carries(stack[j], k[at[j]], stack[j + 1], base, up); }
    }
    forall j | 0 <= j < |stack| - 1
      ensures stack[j].slots[k[at[j]]] == stack[j + 1]
    {
      assert Carries(stack[j], k[at[j]], stack[j + 1], base, up);
    }
  }

  lemma NewLeafFacts<V>(k: Key, i: nat, v: V)
    requires i < KEY_LENGTH
    ensures var t := NewLeaf(k[..i], k[i..], v);
            t == Leaf(Hex(k), k[i..], v, Zero(), true) && t.sub != [] && t.sub[0] == k[i]
  {
    assert k[..i] + k[i..] == k;
  }

  lemma AlongFacts<V>(path: seq<Node<V>>, at: seq<nat>, k: Key, abs: Trees<V>)
    requires Along(path, at, k, abs)
    ensures |path| == |at| > 0 && KEY_LENGTH == 64 && CHILDREN_COUNT == 16
    ensures forall j | 0 <= j < |path| ::
        at[j] < KEY_LENGTH && path[j] in abs && |path[j].slots| == CHILDREN_COUNT && abs[path[j]].Branch?
  {}

  lemma MakeCounted<V>(n: Node<V>, x: Nibble, abs: Trees<V>, up: Parents<V>)
    requires n in abs && abs[n].Branch? && |n.slots| == |abs[n].kids| == CHILDREN_COUNT
    requires n.slots[x] != null ==> Child(n, x, n.slots[x], abs, up)
    requires n.count == Count(abs[n].kids) - (if abs[n].kids[x].Absent? then 0 else 1) + (if n.slots[x] == null then 0
      else 1)
    ensures Counted(n, x, abs, up)
  {}

  lemma MakeGoals<V>(stack: seq<Node<V>>, at: seq<nat>, k: Key, abs: Trees<V>, ts: seq<Tree<V>>, kid: Tree<V>,
      goal: seq<Tree<V>>)
    requires TreePath(ts, at, k) && Grafted(ts, at, k, kid, goal)
    requires |stack| == |ts| && forall j | 0 <= j < |ts| :: stack[j] in abs && abs[stack[j]] == ts[j]
    ensures Goals(stack, at, k, abs, kid, goal)
  {}

  lemma UpdateRootOk<V>(t: Tree<V>, k: Key, v: V)
    requires RootOk(t) && Lookup(t, k).Some?
    ensures RootOk(UpdateBranch(t, k, v))
  {
    UpdateBranchOk(t, [], k, v);
  }

  lemma InsertRootOk<V>(t: Tree<V>, k: Key, v: V)
    requires RootOk(t) && Lookup(t, k) == None
    ensures RootOk(InsertBranch(t, [], k, v))
  {
    InsertBranchOk(t, [], k, v);
  }

  lemma ChildFacts<V>(n: Node<V>, i: nat, c: Node<V>, abs: Trees<V>, up: Parents<V>)
    requires Child(n, i, c, abs, up)
    ensures c in abs && !abs[c].Absent? && abs[c].sub != [] && abs[c].sub[0] == i && c in up && up[c] == n
  {}

  lemma ChildOf<V>(n: Node<V>, i: nat, c: Node<V>, abs: Trees<V>, up: Parents<V>)
    requires c in abs && !abs[c].Absent? && abs[c].sub != [] && abs[c].sub[0] == i && c in up && up[c] == n
    ensures Child(n, i, c, abs, up)
  {}

  /** The cut of a node whose prefix differs from the key after `c` nibbles. */
  lemma SplitFacts<V>(t: Tree<V>, k: Key, i: nat, c: nat, v: V)
    requires i < KEY_LENGTH && NodeOk(t, k[..i]) && c == Common(t.sub, k[i..]) && c < |t.sub| && t.sub[0] == k[i]
    ensures 0 < c && i + c < KEY_LENGTH && k[i + c] != t.sub[c]
    ensures var s, lower, leaf := Split(t, k[..i], c, k[i..], v), t.(sub := t.sub[c..]),
      NewLeaf(k[..i + c], k[i + c..], v);
            && InsertNode(t, k[..i], k[i..], v) == s && s.sub != [] && s.sub[0] == k[i]
            && s == Branch(Hex(k)[..i + c], t.sub[..c], NoKids<V>()[k[i + c] := leaf][t.sub[c] := lower], Zero(), true)
  {
    KeyShift(k, i, c);
    HexTake(k, i + c);
  }

  /** The new branch of a split shows its tree. */
  lemma SplitShows<V>(n: Node<V>, s: Tree<V>, a: Nibble, leaf: Node<V>, b: Nibble, lower: Node<V>, abs: Trees<V>,
      up: Parents<V>)
    requires n in abs && abs[n] == s && a != b
    requires Child(n, a, leaf, abs, up) && Child(n, b, lower, abs, up)
    requires s == Branch(n.key, n.subKey, NoKids<V>()[a := abs[leaf]][b := abs[lower]], Zero(), true)
    requires !n.leaf && n.modified && n.valueHash == Zero() && n.count == 2
    requires n.slots == seq(CHILDREN_COUNT, _ => null)[a := leaf][b := lower]
    ensures Shows(n, abs, up)
  {
    PairCount(a, abs[leaf], b, abs[lower]);
  }

  /** The nodes and trees of a split. */
  datatype SplitScene<!V> = SplitScene(
    next: Node<V>, leaf: Node<V>, child: Node<V>, top: Node<V>, abs: Trees<V>,
    up: Parents<V>, lower: Tree<V>, t: Tree<V>, s: Tree<V>, x: Nibble, y: Nibble)

  /** The three nodes of a split show their trees once they are linked up. */
  twostate lemma SplitNodes<V>(a: SplitScene<V>)
    requires
      var SplitScene(next, leaf, child, top, abs, up, lower, t, s, x, y) := a;
      && old(Shows(next, abs, up)) && next in up && up[next] == top && top != next
      && leaf !in abs && leaf !in up && child !in abs && child !in up && leaf != child && next in abs
      && next.leaf == old(next.leaf) && next.key == old(next.key) && next.value == old(next.value)
        && next.valueHash == old(next.valueHash)
      && next.modified == old(next.modified) && next.slots == old(next.slots) && next.count == old(next.count)
      && !abs[next].Absent? && lower == abs[next].(sub := next.subKey) && lower.sub != [] && lower.sub[0] != y
      && t.Leaf? && t == Leaf(leaf.key, leaf.subKey, t.value, Zero(), true) && t.sub != [] && t.sub[0] == y
      && leaf.leaf && leaf.value == Some(t.value) && leaf.valueHash == Zero() && leaf.modified
      && s == Branch(child.key, child.subKey, NoKids<V>()[y := t][lower.sub[0] := lower], Zero(), true) && s.sub != []
        && s.sub[0] == x
      && !child.leaf && child.modified && child.valueHash == Zero() && child.count == 2
      && child.slots == seq(CHILDREN_COUNT, _ => null)[y := leaf][lower.sub[0] := next]
    ensures
      var SplitScene(next, leaf, child, top, abs, up, lower, t, s, x, _) := a;
      && (var base, up' := abs[next := lower][leaf := t][child := s], up[next := child][leaf := child][child := top];
          && Shows(next, base, up') && Shows(leaf, base, up') && Shows(child, base, up')
            && Child(top, x, child, base, up'))
  {
    hide *;
    var SplitScene(next, leaf, child, top, abs, up, lower, t, s, x, y) := a;
    var base, up' := abs[next := lower][leaf := t][child := s], up[next := child][leaf := child][child := top];
    CutShows(CutSite(next, abs, up, child));
    KeepMoved(next, leaf, abs[next := lower], up[next := child], t, child);
    KeepMoved(next, child, abs[next := lower][leaf := t], up[next := child][leaf := child], s, top);
    LeafShows(leaf, t, base, up');
    ChildOf(child, y, leaf, base, up');
    ChildOf(child, lower.sub[0], next, base, up');
    ChildOf(top, x, child, base, up');
    SplitShows(child, s, y, leaf, lower.sub[0], next, base, up');
  }

  /** Puts the new branch `child` in place of `next` under `top`, and `leaf` and `next` below it. */
  method LinkSplit<V>(top: Node<V>, x: Nibble, next: Node<V>, j: nat, child: Node<V>, leaf: Node<V>)
    requires |top.slots| == CHILDREN_COUNT && top.slots[x] == next && j < |next.subKey| && leaf.subKey != []
    requires child.slots == seq(CHILDREN_COUNT, _ => null) && child.count == 0 && leaf.subKey[0] != next.subKey[j]
    requires child != top && child != next && child != leaf && leaf != next && leaf != top && next != top
    modifies top`slots, next`subKey, child`slots, child`count
    ensures next.subKey == old(next.subKey)[j..] && top.slots == old(top.slots)[x := child]
    ensures child.slots == old(child.slots)[leaf.subKey[0] := leaf][next.subKey[0] := next] && child.count == 2
  {
    next.subKey := next.subKey[j..];
    var prev := top.ReplaceChild(x, child);
    var first := child.InsertChild(leaf.subKey[0], leaf);
    var second := child.InsertChild(next.subKey[0], prev);
  }

  /** A path that ends at a split. */
  datatype LinkScene<!V> = LinkScene(
    stack: seq<Node<V>>, at: seq<nat>, k: Key, next: Node<V>, leaf: Node<V>,
    child: Node<V>, base: Trees<V>, up: Parents<V>, x: Nibble, s: Tree<V>)

  /** Slot `x` of the branch `top` held `next` and holds `child` now; its tree is still the old one. */
  twostate predicate Swapped<V>(top: Node<V>, x: Nibble, next: Node<V>, child: Node<V>, base: Trees<V>)
    reads top
  {
    && |old(top.slots)| == CHILDREN_COUNT && old(top.slots)[x] == next && top.slots == old(top.slots)[x := child]
    && top in base && base[top].Branch? && |base[top].kids| == CHILDREN_COUNT && top.count == Count(base[top].kids)
    && !base[top].kids[x].Absent?
  }

  /** After the nodes of a split are linked up, only the trees of the path itself are out of date. */
  twostate lemma SplitLinked<V>(a: LinkScene<V>)
    requires
      var LinkScene(stack, at, k, next, leaf, child, base, up, x, s) := a;
      && |stack| == |at| > 0 && at[|at| - 1] < |k| && x == k[at[|at| - 1]]
      && old(PathOk(stack, at, k, base, up))
      && old(RestOk((set n | n in stack) + {next} + {leaf} + {child}, base, up))
      && (forall n | n in base && n !in stack && n != next && n != leaf && n != child :: unchanged(n))
      && Shows(next, base, up) && Shows(leaf, base, up) && Shows(child, base, up)
        && Child(stack[|stack| - 1], x, child, base, up)
      && (forall n | n in stack ::
          && n.leaf == old(n.leaf) && n.key == old(n.key) && n.subKey == old(n.subKey)
            && n.valueHash == old(n.valueHash)
          && n.count == old(n.count) && (n != stack[|stack| - 1] ==> n.slots == old(n.slots)))
      && Swapped(stack[|stack| - 1], x, next, child, base) && child in base && base[child] == s
    ensures
      var LinkScene(stack, at, k, _, _, _, base, up, x, s) := a;
      && PathOk(stack, at, k, base, up) && RestOk((set n | n in stack), base, up)
      && (var top := stack[|stack| - 1]; Counted(top, x, base, up) && Holds(top, x, base, s))
  {
    hide *;
    var LinkScene(stack, at, k, next, leaf, child, base, up, x, s) := a;
    assert Swapped(stack[|stack| - 1], x, next, child, base);
    SwapFacts(SwapSite(stack[|stack| - 1], x, next, child, base));
    WasDistinct(PathSite(stack, at, k, base, up));
    var top := stack[|stack| - 1];
    var skip := set n | n in stack;
    RestStill(RestSite(skip + {next} + {leaf} + {child}, base, up));
    ShownToRest(skip + {next} + {leaf}, base, up, child);
    ShownToRest(skip + {next}, base, up, leaf);
    ShownToRest(skip, base, up, next);
    SetPathSlot(PathSite(stack, at, k, base, up));
    MakeHolds(top, x, base, s);
    MakeCounted(top, x, base, up);
  }

  /** Nodes to leave aside, and what the others show. */
  datatype RestSite<!V> = RestSite(skip: set<Node<V>>, abs: Trees<V>, up: Parents<V>)

  twostate lemma RestStill<V>(a: RestSite<V>)
    requires
      var RestSite(skip, abs, up) := a;
      && (old(RestOk(skip, abs, up)) && forall n | n in abs && n !in skip :: unchanged(n))
    ensures
      var RestSite(skip, abs, up) := a;
      && RestOk(skip, abs, up)
  {}

  twostate lemma WasDistinct<V>(a: PathSite<V>)
    requires
      var PathSite(stack, at, k, abs, up) := a;
      && old(PathOk(stack, at, k, abs, up))
    ensures
      var PathSite(stack, at, _, _, _) := a;
      && (|stack| == |at| > 0 && forall j | 0 <= j < |stack| - 1 :: stack[j] != stack[|stack| - 1])
  {}

  lemma SplitDepth<V>(next: Node<V>, k: Key, i: nat, j: nat, abs: Trees<V>, up: Parents<V>)
    requires i < KEY_LENGTH && next in abs && Shows(next, abs, up) && NodeOk(abs[next], k[..i])
      && j == Common(next.subKey, k[i..]) && j < |next.subKey|
    ensures !abs[next].Absent? && j < |abs[next].sub| && i + j < KEY_LENGTH
  {}

  /** What a split starts from. */
  lemma SplitStart<V>(top: Node<V>, next: Node<V>, k: Key, i: nat, j: nat, v: V, abs: Trees<V>, up: Parents<V>,
      s: Tree<V>, lower: Tree<V>, t: Tree<V>)
    requires i < KEY_LENGTH && Shows(top, abs, up) && abs[top].Branch? && |top.slots| == CHILDREN_COUNT
      && top.slots[k[i]] == next
    requires next in abs && Shows(next, abs, up) && NodeOk(abs[next], k[..i]) && j == Common(next.subKey, k[i..])
      && j < |next.subKey|
    requires !abs[next].Absent? && j < |abs[next].sub| && i + j < KEY_LENGTH
    requires lower == abs[next].(sub := abs[next].sub[j..]) && t == NewLeaf(k[..i + j], k[i + j..], v)
    requires s == InsertNode(abs[next], k[..i], k[i..], v)
    ensures 0 < j && KEY_LENGTH == 64 && CHILDREN_COUNT == 16 && next in up && up[next] == top
    ensures lower == abs[next].(sub := next.subKey[j..]) && lower.sub != []
      && lower.sub[0] == next.subKey[j] != k[i + j]
    ensures t == Leaf(Hex(k), k[i + j..], v, Zero(), true) && t.sub != [] && t.sub[0] == k[i + j]
    ensures s == Branch(Hex(k)[..i + j], next.subKey[..j], NoKids<V>()[k[i + j] := t][lower.sub[0] := lower], Zero(),
      true)
    ensures s.sub != [] && s.sub[0] == k[i]
    ensures |abs[top].kids| == CHILDREN_COUNT && top.count == Count(abs[top].kids) && !abs[top].kids[k[i]].Absent?
  {
    hide *;
    KeyFacts(k, i);
    NodeFacts(next, abs, up);
    SlotFacts(top, k[i], abs, up);
    ChildFacts(top, k[i], next, abs, up);
    SplitFacts(abs[next], k, i, j, v);
    NewLeafFacts(k, i + j, v);
  }

  /** Everything a split does, up to the marking of the path. */
  method Place<V>(top: Node<V>, ghost stack: seq<Node<V>>, ghost at: seq<nat>, ghost k: Key, x: Nibble, y: Nibble,
      next: Node<V>, j: nat, child: Node<V>, leaf: Node<V>, ghost abs: Trees<V>, ghost up: Parents<V>,
      ghost lower: Tree<V>, ghost t: Tree<V>, ghost s: Tree<V>, ghost base: Trees<V>, ghost up': Parents<V>)
    requires |stack| == |at| > 0 && at[|at| - 1] < KEY_LENGTH && x == k[at[|at| - 1]] && CHILDREN_COUNT == 16
      && top == stack[|stack| - 1]
    requires next in abs && leaf !in abs && leaf !in up && child !in abs && child !in up && leaf != child
    requires next !in stack && leaf !in stack && child !in stack
    requires && base == abs[next := lower][leaf := t][child := s]
      && up' == up[next := child][leaf := child][child := top]
             && next in up && up[next] == top && top in abs && abs[top].Branch?
               && |abs[top].kids| == |top.slots| == CHILDREN_COUNT
             && top.slots[x] == next && top.count == Count(abs[top].kids) && !abs[top].kids[x].Absent?
    requires PathOk(stack, at, k, base, up') && RestOk((set n | n in stack) + {next} + {leaf} + {child}, base, up')
      && Shows(next, abs, up)
    requires !abs[next].Absent? && j < |next.subKey| && lower == abs[next].(sub := next.subKey[j..])
      && lower.sub != [] && lower.sub[0] != y
    requires t.Leaf? && t == Leaf(leaf.key, leaf.subKey, t.value, Zero(), true) && t.sub != [] && t.sub[0] == y
    requires leaf.leaf && leaf.value == Some(t.value) && leaf.valueHash == Zero() && leaf.modified
    requires s == Branch(child.key, child.subKey, NoKids<V>()[y := t][lower.sub[0] := lower], Zero(), true)
      && s.sub != [] && s.sub[0] == x
    requires !child.leaf && child.modified && child.valueHash == Zero() && child.count == 0
      && child.slots == seq(CHILDREN_COUNT, _ => null)
    modifies top`slots, next`subKey, child`slots, child`count
    ensures PathOk(stack, at, k, base, up') && RestOk((set n | n in stack), base, up')
    ensures Counted(top, x, base, up') && Holds(top, x, base, s)
  {
    hide *;
    LinkSplit(top, x, next, j, child, leaf);
    SplitNodes(SplitScene(next, leaf, child, top, abs, up, lower, t, s, x, y));
    MakeSwapped(SwapSite(top, x, next, child, base));
    SplitLinked(LinkScene(stack, at, k, next, leaf, child, base, up', x, s));
  }

  datatype SwapSite<!V> = SwapSite(top: Node<V>, x: Nibble, next: Node<V>, child: Node<V>, base: Trees<V>)

  twostate lemma SwapFacts<V>(a: SwapSite<V>)
    requires Swapped(a.top, a.x, a.next, a.child, a.base)
    ensures
      var SwapSite(top, x, next, child, base) := a;
      && |old(top.slots)| == CHILDREN_COUNT && old(top.slots)[x] == next && top.slots == old(top.slots)[x := child]
      && top in base && base[top].Branch? && |base[top].kids| == CHILDREN_COUNT && top.count == Count(base[top].kids)
      && !base[top].kids[x].Absent?
  {}

  twostate lemma MakeSwapped<V>(a: SwapSite<V>)
    requires
      var SwapSite(top, x, next, child, base) := a;
      && |old(top.slots)| == CHILDREN_COUNT && old(top.slots)[x] == next && top.slots == old(top.slots)[x := child]
      && top in base && base[top].Branch? && |base[top].kids| == CHILDREN_COUNT && top.count == Count(base[top].kids)
      && !base[top].kids[x].Absent?
    ensures Swapped(a.top, a.x, a.next, a.child, a.base)
  {}

  /** Everything adding a leaf does, up to the marking of the path. */
  method PlaceLeaf<V>(top: Node<V>, x: Nibble, leaf: Node<V>, ghost stack: seq<Node<V>>, ghost at: seq<nat>,
      ghost k: Key, ghost base: Trees<V>, ghost up: Parents<V>, ghost t: Tree<V>)
    requires |stack| == |at| > 0 && at[|at| - 1] < |k| && top == stack[|stack| - 1] && x == k[at[|at| - 1]]
    requires PathOk(stack, at, k, base, up) && RestOk((set n | n in stack) + {leaf}, base, up) && Shows(leaf, base, up)
    requires Child(top, x, leaf, base, up) && leaf in base && base[leaf] == t
    requires top in base && base[top].Branch? && |top.slots| == |base[top].kids| == CHILDREN_COUNT
    requires top.slots[x] == null && base[top].kids[x].Absent? && top.count == Count(base[top].kids)
    modifies top`slots, top`count
    ensures PathOk(stack, at, k, base, up) && RestOk((set n | n in stack), base, up)
    ensures Counted(top, x, base, up) && Holds(top, x, base, t)
  {
    hide *;
    PathDistinct(stack, at, k, base, up);
    ShownToRest((set n | n in stack), base, up, leaf);
    var done := top.InsertChild(x, leaf);
    SetPathSlot(PathSite(stack, at, k, base, up));
    MakeHolds(top, x, base, t);
    MakeCounted(top, x, base, up);
  }

  // ---- erase ----

  lemma DropShows<V>(o: Node<V>, n: Node<V>, abs: Trees<V>, up: Parents<V>)
    requires Shows(o, abs, up) && o != n && (n in up ==> up[n] != o)
    ensures Shows(o, abs - {n}, up - {n})
  {
    hide Count;
  }

  lemma DropRest<V>(o: Node<V>, y: Nibble, n: Node<V>, abs: Trees<V>, up: Parents<V>)
    requires ShowsRest(o, y, abs, up) && o != n
    requires n in up && up[n] == o ==> n in abs && !abs[n].Absent? && abs[n].sub != [] && abs[n].sub[0] == y
    ensures ShowsRest(o, y, abs - {n}, up - {n})
  {}

  lemma DropCarries<V>(n: Node<V>, x: Nibble, c: Node<V>, d: Node<V>, abs: Trees<V>, up: Parents<V>)
    requires Carries(n, x, c, abs, up) && n != d && c != d
    ensures Carries(n, x, c, abs - {d}, up - {d})
  {
    hide Count;
  }

  /** A node that is not on the path, or hangs at its end, may go. */
  lemma DropFromPath<V>(stack: seq<Node<V>>, at: seq<nat>, k: Key, abs: Trees<V>, up: Parents<V>, c: Node<V>)
    requires PathOk(stack, at, k, abs, up) && c !in stack
    requires c in up && up[c] in stack ==> Child(stack[|stack| - 1], k[at[|at| - 1]], c, abs, up)
    ensures PathOk(stack, at, k, abs - {c}, up - {c})
  {
    hide ShowsRest, Carries;
    forall j | 0 <= j < |stack|
      ensures ShowsRest(stack[j], k[at[j]], abs - {c}, up - {c})
    {
      DropRest(stack[j], k[at[j]], c, abs, up);
    }
    forall j | 0 <= j < |stack| - 1
      ensures Carries(stack[j], k[at[j]], stack[j + 1], abs - {c}, up - {c})
    {
      DropCarries(stack[j], k[at[j]], stack[j + 1], c, abs, up);
    }
  }

  lemma DropFromRest<V>(skip: set<Node<V>>, abs: Trees<V>, up: Parents<V>, c: Node<V>)
    requires RestOk(skip, abs, up) && (c in up ==> up[c] in skip)
    ensures RestOk(skip, abs - {c}, up - {c})
  {
    forall n | n in (abs - {c}).Keys - skip
      ensures Shows(n, abs - {c}, up - {c})
    {
      assert n in abs.Keys - skip;
      DropShows(n, c, abs, up);
    }
  }

  lemma DropGoals<V>(stack: seq<Node<V>>, at: seq<nat>, k: Key, abs: Trees<V>, kid: Tree<V>, goal: seq<Tree<V>>,
      c: Node<V>)
    requires Goals(stack, at, k, abs, kid, goal) && c !in stack
    ensures Goals(stack, at, k, abs - {c}, kid, goal)
  {}

  lemma EraseStep<V>(t: Tree<V>, k: Key, d: nat, e: nat, isRoot: bool)
    requires t.Branch? && |t.kids| == CHILDREN_COUNT && d < e < KEY_LENGTH
    requires t.kids[k[d]].Branch? && t.kids[k[d]].sub == k[d..e]
    ensures EraseBranch(t, k[d..], isRoot) == Replace(t, k[d], EraseBranch(t.kids[k[d]], k[e..], false))
  {
    KeyShift(k, d, e - d);
  }

  /** Erasing along a path changes the trees of the path, and replaces what its last slot holds. */
  lemma EraseGoal<V>(ts: seq<Tree<V>>, at: seq<nat>, k: Key, kid: Tree<V>) returns (goal: seq<Tree<V>>)
    requires TreePath(ts, at, k)
    requires var l := |ts| - 1; EraseBranch(ts[l], k[at[l]..], l == 0) == Replace(ts[l], k[at[l]], kid)
    ensures Grafted(ts, at, k, kid, goal) && goal[0] == EraseBranch(ts[0], k, true)
  {
    hide EraseBranch;
    goal := seq(|ts|, j requires 0 <= j < |ts| => EraseBranch(ts[j], k[at[j]..], j == 0));
    forall j | 0 <= j < |ts| - 1
      ensures goal[j] == Replace(ts[j], k[at[j]], goal[j + 1])
    {
      EraseStep(ts[j], k, at[j], at[j + 1], j == 0);
    }
    assert k[0..] == k;
  }

  lemma TreePathPrefix<V>(ts: seq<Tree<V>>, at: seq<nat>, k: Key, m: nat)
    requires TreePath(ts, at, k) && 0 < m < |ts|
    ensures TreePath(ts[..m], at[..m], k) && at[m - 1] < at[m] && ts[m - 1].kids[k[at[m - 1]]] == ts[m]
      && ts[m].sub == k[at[m - 1]..at[m]]
  {
    assert at[m - 1] < at[m - 1 + 1];
  }

  lemma PathPrefix<V>(stack: seq<Node<V>>, at: seq<nat>, k: Key, abs: Trees<V>, up: Parents<V>)
    requires PathOk(stack, at, k, abs, up) && |stack| > 1
    ensures var m := |stack| - 1;
            && PathOk(stack[..m], at[..m], k, abs, up) && stack[m] !in stack[..m]
            && Carries(stack[m - 1], k[at[m - 1]], stack[m], abs, up)
  {
    var m := |stack| - 1;
    assert Carries(stack[m - 1], k[at[m - 1]], stack[m - 1 + 1], abs, up);
    hide ShowsRest, Carries;
    forall j | 0 <= j < m - 1
      ensures Carries(stack[..m][j], k[at[..m][j]], stack[..m][j + 1], abs, up)
    {
      assert Carries(stack[j], k[at[j]], stack[j + 1], abs, up);
    }
  }

  /** Taking the last leaf but one out of a branch, seen from the branch and from above it. */
  lemma EraseLast<V>(t: Tree<V>, k: Path, isRoot: bool)
    requires t.Branch? && |t.kids| == CHILDREN_COUNT && k != [] && t.kids[k[0]].Leaf?
    ensures var rest := t.kids[k[0] := Absent];
            && Count(rest) == Count(t.kids) - 1
            && (isRoot || Count(rest) != 1 ==> EraseBranch(t, k, isRoot) == Replace(t, k[0], Absent))
            && (!isRoot && Count(rest) == 1 ==> EraseBranch(t, k, isRoot) == Merge(t, rest))
  {
    hide Count;
    CountUpdate(t.kids, k[0], Absent);
  }

  /** The only child left in a branch: `first()` finds it, and it moves up with the longer prefix. */
  lemma OnlyChild<V>(n: Node<V>, x: Nibble, abs: Trees<V>, up: Parents<V>, p: Path)
    requires Shows(n, abs, up) && NodeOk(abs[n], p) && abs[n].Branch? && Count(abs[n].kids[x := Absent]) == 1
    ensures |n.slots| == |abs[n].kids| == CHILDREN_COUNT == 16
    ensures var f := First(abs[n].kids[x := Absent]);
            && f < CHILDREN_COUNT && f != x && n.slots[f] != null && Child(n, f, n.slots[f], abs, up)
            && (forall i | 0 <= i < CHILDREN_COUNT && i != f && i != x :: n.slots[i] == null)
            && Merge(abs[n], abs[n].kids[x := Absent])
              == abs[n.slots[f]].(sub := abs[n].sub + abs[n.slots[f]].sub, modified := true)
            && abs[n].sub != []
  {
    hide Count;
    var rest := abs[n].kids[x := Absent];
    CountOne(rest);
    forall i | 0 <= i < CHILDREN_COUNT && i != First(rest) && i != x
      ensures n.slots[i] == null
    {
      assert rest[i].Absent? && rest[i] == abs[n].kids[i];
    }
  }

  lemma EraseRootOk<V>(t: Tree<V>, k: Key)
    requires RootOk(t) && Lookup(t, k).Some?
    ensures RootOk(EraseBranch(t, k, true))
  {
    EraseBranchOk(t, [], k, true);
  }

  lemma CountPositive<V>(kids: seq<Tree<V>>, i: nat)
    requires i < |kids| && !kids[i].Absent?
    ensures Count(kids) > 0
  {
    CountUpdate(kids, i, Absent);
  }

  /** The nodes of a merge and the merged tree. */
  datatype MergeScene<!V> = MergeScene(
    b: Node<V>, parent: Node<V>, leaf: Node<V>,
    grand: Node<V>, abs: Trees<V>, up: Parents<V>, merged: Tree<V>)

  /** The node that moves up shows the merged tree. */
  twostate lemma MergedShows<V>(a: MergeScene<V>)
    requires
      var MergeScene(b, parent, leaf, grand, abs, up, merged) := a;
      && old(Shows(b, abs, up)) && b in abs && parent in up && leaf in up && up[parent] == grand && up[leaf] == parent
      && b in up && up[b] == parent && b != parent && b != leaf && b != grand && !abs[b].Absent?
      && b.leaf == old(b.leaf) && b.key == old(b.key) && b.value == old(b.value) && b.valueHash == old(b.valueHash)
      && b.slots == old(b.slots) && b.count == old(b.count) && b.modified
      && merged == abs[b].(sub := b.subKey, modified := true)
    ensures
      var MergeScene(b, parent, leaf, grand, abs, up, merged) := a;
      && Shows(b, (abs - {leaf} - {parent})[b := merged], (up - {leaf} - {parent})[b := grand])
  {
    hide *;
    var MergeScene(b, parent, leaf, grand, abs, up, merged) := a;
    CutShows(CutSite(b, abs, up, grand));
    DropShows(b, leaf, abs[b := merged], up[b := grand]);
    DropShows(b, parent, abs[b := merged] - {leaf}, up[b := grand] - {leaf});
    assert abs[b := merged] - {leaf} - {parent} == (abs - {leaf} - {parent})[b := merged];
    assert up[b := grand] - {leaf} - {parent} == (up - {leaf} - {parent})[b := grand];
  }

  /** Takes child `y` out of `parent` and moves its only other child, `b` in slot `g`, into the place
      `parent` has under `grand`. */
  method LinkMerged<V>(grand: Node<V>, ghost x: Nibble, parent: Node<V>, y: Nibble, ghost g: Nibble, ghost b: Node<V>)
    requires |grand.slots| == |parent.slots| == CHILDREN_COUNT == 16 && grand.slots[x] == parent && grand.count > 0
      && parent.count > 0
    requires parent.subKey != [] && parent.subKey[0] == x && parent.slots[y] != null
    requires g != y && parent.slots[g] == b && forall i | 0 <= i < CHILDREN_COUNT && i != g
      && i != y :: parent.slots[i] == null
    requires grand != parent && b != grand && b != parent
    modifies grand`slots, grand`count, parent`slots, parent`count, b`subKey, b`modified
    ensures grand.slots == old(grand.slots)[x := b] && grand.count == old(grand.count)
    ensures b.subKey == parent.subKey + old(b.subKey) && b.modified
  {
    var erased := parent.EraseChild(y);
    var f := parent.FirstChild();
    assert parent.slots[g] == b;
    if f >= 0 {
      var brother := parent.slots[f];
      brother.subKey := parent.subKey + brother.subKey;
      var dropped := grand.EraseChild(parent.subKey[0]);
      var moved := grand.InsertChild(brother.subKey[0], brother);
      brother.modified := true;
    }
  }

  /** `grand` holds `parent` in slot `x`, and `parent` holds `leaf` in slot `y` and `b` in slot `g`, and
      nothing else. */
  ghost predicate MergeSite<V>(grand: Node<V>, x: Nibble, parent: Node<V>, y: Nibble, leaf: Node<V>, g: Nibble,
      b: Node<V>, abs: Trees<V>, up: Parents<V>)
    reads grand, parent, b
  {
    && Shows(grand, abs, up) && Shows(parent, abs, up) && Shows(b, abs, up) && abs[grand].Branch? && abs[parent].Branch?
    && |grand.slots| == |parent.slots| == CHILDREN_COUNT && g != y && grand.slots[x] == parent
      && parent.slots[y] == leaf && parent.slots[g] == b
    && Child(grand, x, parent, abs, up) && Child(parent, y, leaf, abs, up) && Child(parent, g, b, abs, up)
    && grand != parent && b != grand && b != parent && b != leaf && leaf != grand && leaf != parent
      && abs[parent].sub != []
    && forall i | 0 <= i < CHILDREN_COUNT && i != g && i != y :: parent.slots[i] == null
  }

  ghost function Merged<V>(parent: Node<V>, b: Node<V>, abs: Trees<V>): Tree<V>
    requires parent in abs && b in abs && !abs[parent].Absent? && !abs[b].Absent?
  {
    abs[b].(sub := abs[parent].sub + abs[b].sub, modified := true)
  }

  /** The path above `parent` once `parent` and `leaf` are gone and `b` hangs under `grand`. */
  ghost predicate MergePlan<V>(path: seq<Node<V>>, at: seq<nat>, k: Key, parent: Node<V>, leaf: Node<V>, b: Node<V>,
      abs: Trees<V>, up: Parents<V>, merged: Tree<V>, goal: seq<Tree<V>>)
    reads path, abs.Keys
  {
    && |path| > 0 && parent !in path && leaf !in path && b !in path
    && var base, up' := (abs - {leaf} - {parent})[b := merged], (up - {leaf} - {parent})[b := path[|path| - 1]];
    && PathOk(path, at, k, base, up') && RestOk((set n | n in path) + {parent} + {b}, base, up')
    && Goals(path, at, k, base, merged, goal)
  }

  lemma MakePlan<V>(path: seq<Node<V>>, at: seq<nat>, k: Key, parent: Node<V>, leaf: Node<V>, b: Node<V>, abs: Trees<V>,
      up: Parents<V>, merged: Tree<V>, goal: seq<Tree<V>>)
    requires PathOk(path, at, k, abs, up) && RestOk((set n | n in path), abs, up)
      && Goals(path, at, k, abs, merged, goal)
    requires |path| == |at| > 0 && at[|at| - 1] < KEY_LENGTH
      && Child(path[|path| - 1], k[at[|at| - 1]], parent, abs, up)
    requires parent !in path && leaf !in path && b !in path && leaf != parent && b != parent && b != leaf
    requires leaf in up && up[leaf] == parent && b in up && up[b] == parent && parent in up
      && up[parent] == path[|path| - 1]
    ensures MergePlan(path, at, k, parent, leaf, b, abs, up, merged, goal)
  {
    hide PathOk, RestOk, Goals, Child;
    var skip := (set n | n in path) + {parent};
    WidenRest(set n | n in path, {parent}, abs, up);
    var abs1, up1 := abs - {leaf}, up - {leaf};
    DropFromPath(path, at, k, abs, up, leaf);
    DropFromRest(skip, abs, up, leaf);
    DropGoals(path, at, k, abs, merged, goal, leaf);
    DropChild(path[|path| - 1], k[at[|at| - 1]], parent, leaf, abs, up);
    var abs2, up2 := abs1 - {parent}, up1 - {parent};
    DropFromPath(path, at, k, abs1, up1, parent);
    DropFromRest(skip, abs1, up1, parent);
    DropGoals(path, at, k, abs1, merged, goal, parent);
    AddToPath(path, at, k, abs2, up2, b, merged, path[|path| - 1]);
    AddToRest(skip, abs2, up2, b, merged, path[|path| - 1]);
    KeepGoals(path, at, k, abs2, merged, goal, b, merged);
  }

  lemma WidenRest<V>(skip: set<Node<V>>, more: set<Node<V>>, abs: Trees<V>, up: Parents<V>)
    requires RestOk(skip, abs, up)
    ensures RestOk(skip + more, abs, up)
  {}

  lemma DropChild<V>(n: Node<V>, i: nat, c: Node<V>, d: Node<V>, abs: Trees<V>, up: Parents<V>)
    requires Child(n, i, c, abs, up) && c != d
    ensures Child(n, i, c, abs - {d}, up - {d})
  {}

  /** The merge of a branch with two children of which one, a leaf, goes. */
  lemma MakeSite<V>(grand: Node<V>, x: Nibble, parent: Node<V>, y: Nibble, leaf: Node<V>, p: Path, abs: Trees<V>,
      up: Parents<V>)
    returns (g: Nibble, b: Node<V>)
    requires Shows(grand, abs, up) && Shows(parent, abs, up) && Shows(leaf, abs, up) && abs[grand].Branch?
      && abs[parent].Branch? && abs[leaf].Leaf?
    requires forall n | n in abs :: Shows(n, abs, up)
    requires |grand.slots| == |parent.slots| == CHILDREN_COUNT && grand.slots[x] == parent && parent.slots[y] == leaf
    requires NodeOk(abs[parent], p) && parent.count == 2 && grand != parent && (grand in up ==> up[grand] != parent)
    ensures MergeSite(grand, x, parent, y, leaf, g, b, abs, up)
    ensures Count(abs[parent].kids[y := Absent]) == 1
      && Merge(abs[parent], abs[parent].kids[y := Absent]) == Merged(parent, b, abs)
  {
    hide NodeOk, Count;
    CountUpdate(abs[parent].kids, y, Absent);
    OnlyChild(parent, y, abs, up, p);
    g := First(abs[parent].kids[y := Absent]);
    b := parent.slots[g];
  }

  lemma CarriesFacts<V>(n: Node<V>, x: Nibble, c: Node<V>, abs: Trees<V>, up: Parents<V>)
    requires Carries(n, x, c, abs, up)
    ensures n in abs && abs[n].Branch? && |n.slots| == |abs[n].kids| == CHILDREN_COUNT && n.count == Count(abs[n].kids)
    ensures n.slots[x] == c && Child(n, x, c, abs, up) && c in abs && c in up && up[c] == n
  {}

  lemma SiteFacts<V>(grand: Node<V>, x: Nibble, parent: Node<V>, y: Nibble, leaf: Node<V>, g: Nibble, b: Node<V>,
      abs: Trees<V>, up: Parents<V>)
    requires MergeSite(grand, x, parent, y, leaf, g, b, abs, up)
    ensures b in abs && !abs[b].Absent? && b in up && up[b] == parent && leaf in up && up[leaf] == parent
      && parent in up && up[parent] == grand
    ensures b != leaf && b != parent && leaf != parent && Child(grand, x, parent, abs, up) && grand != parent
      && b != grand
    ensures parent in abs && !abs[parent].Absent?
  {}

  lemma AlongParent<V>(path: seq<Node<V>>, at: seq<nat>, k: Key, abs: Trees<V>, m: nat)
    requires Along(path, at, k, abs) && 0 < m < |path|
    requires abs[path[m - 1]].Branch? && |abs[path[m - 1]].kids| == CHILDREN_COUNT
      && abs[path[m - 1]].kids[k[at[m - 1]]] == abs[path[m]]
    ensures NodeOk(abs[path[m]], k[..at[m - 1]])
    ensures at[m - 1] < KEY_LENGTH && abs[path[m]].Branch? && path[m - 1] != path[m] && path[m] !in path[..m]
    ensures path[m - 1].slots[k[at[m - 1]]] == path[m]
  {
    assert path[m - 1].slots[k[at[m - 1]]] == path[m - 1 + 1];
  }

  /** A child of the last node of a path is not on the path. */
  lemma PathParents<V>(stack: seq<Node<V>>, at: seq<nat>, k: Key, abs: Trees<V>, up: Parents<V>, c: Node<V>)
    requires PathOk(stack, at, k, abs, up) && stack[0] !in up && c in up && up[c] == stack[|stack| - 1]
    ensures c !in stack
  {
    forall j | 0 <= j < |stack|
      ensures stack[j] != c
    {
      if j > 0 { assert Carries(stack[j - 1], k[at[j - 1]], stack[j - 1 + 1], abs, up); }
    }
  }

  /** Everything a merge does, up to the marking of the path. */
  method PlaceMerged<V>(grand: Node<V>, parent: Node<V>, y: Nibble, ghost path: seq<Node<V>>, ghost at: seq<nat>,
      ghost k: Key, ghost x: Nibble, ghost leaf: Node<V>, ghost g: Nibble, ghost b: Node<V>, ghost abs: Trees<V>,
      ghost up: Parents<V>, ghost merged: Tree<V>, ghost base: Trees<V>, ghost up': Parents<V>,
      ghost goal: seq<Tree<V>>)
    requires MergeSite(grand, x, parent, y, leaf, g, b, abs, up) && b in abs && parent in abs && !abs[parent].Absent?
      && !abs[b].Absent?
    requires merged == Merged(parent, b, abs) && MergePlan(path, at, k, parent, leaf, b, abs, up, merged, goal)
    requires |path| == |at| > 0 && path[|path| - 1] == grand && at[|at| - 1] < KEY_LENGTH && x == k[at[|at| - 1]]
    requires base == (abs - {leaf} - {parent})[b := merged] && up' == (up - {leaf} - {parent})[b := grand]
    modifies grand`slots, grand`count, parent`slots, parent`count, b`subKey, b`modified
    ensures PathOk(path, at, k, base, up') && RestOk((set n | n in path), base, up')
      && Goals(path, at, k, base, merged, goal)
    ensures Counted(grand, x, base, up') && Holds(grand, x, base, merged)
  {
    hide *;
    SiteFacts(grand, x, parent, y, leaf, g, b, abs, up);
    SiteSlots(grand, x, parent, y, leaf, g, b, abs, up);
    PlanFacts(path, at, k, parent, leaf, b, abs, up, merged, goal);
    MergedFacts(parent, b, abs);
    PathDistinct(path, at, k, base, up');
    LinkMerged(grand, x, parent, y, g, b);
    MergedShows(MergeScene(b, parent, leaf, grand, abs, up, merged));
    RestStill(RestSite((set n | n in path) + {parent} + {b}, base, up'));
    ShownToRest((set n | n in path) + {parent}, base, up', b);
    NarrowRest((set n | n in path), parent, base, up');
    SetPathSlot(PathSite(path, at, k, base, up'));
    ChildOf(grand, x, b, base, up');
    MakeHolds(grand, x, base, merged);
    MakeCounted(grand, x, base, up');
  }

  lemma SiteSlots<V>(grand: Node<V>, x: Nibble, parent: Node<V>, y: Nibble, leaf: Node<V>, g: Nibble, b: Node<V>,
      abs: Trees<V>, up: Parents<V>)
    requires MergeSite(grand, x, parent, y, leaf, g, b, abs, up)
    ensures |grand.slots| == |parent.slots| == CHILDREN_COUNT == 16 && grand.slots[x] == parent
      && parent.slots[y] == leaf && g != y && parent.slots[g] == b
    ensures forall i | 0 <= i < CHILDREN_COUNT && i != g && i != y :: parent.slots[i] == null
    ensures grand in abs && abs[grand].Branch? && |abs[grand].kids| == CHILDREN_COUNT
      && grand.count == Count(abs[grand].kids) && !abs[grand].kids[x].Absent?
    ensures grand.count > 0 && parent.count > 0 && Shows(b, abs, up) && b.subKey == abs[b].sub
    ensures parent.subKey == abs[parent].sub && parent.subKey != [] && parent.subKey[0] == x
  {
    hide Count;
    CountPositive(abs[grand].kids, x);
    CountPositive(abs[parent].kids, y);
  }

  lemma PlanFacts<V>(path: seq<Node<V>>, at: seq<nat>, k: Key, parent: Node<V>, leaf: Node<V>, b: Node<V>,
      abs: Trees<V>, up: Parents<V>, merged: Tree<V>, goal: seq<Tree<V>>)
    requires MergePlan(path, at, k, parent, leaf, b, abs, up, merged, goal)
    ensures |path| > 0 && parent !in path && leaf !in path && b !in path
    ensures var base, up' := (abs - {leaf} - {parent})[b := merged], (up - {leaf} - {parent})[b := path[|path| - 1]];
            && PathOk(path, at, k, base, up') && RestOk((set n | n in path) + {parent} + {b}, base, up')
            && Goals(path, at, k, base, merged, goal)
  {}

  lemma MergedFacts<V>(parent: Node<V>, b: Node<V>, abs: Trees<V>)
    requires parent in abs && b in abs && !abs[parent].Absent? && !abs[b].Absent?
    ensures Merged(parent, b, abs) == abs[b].(sub := abs[parent].sub + abs[b].sub, modified := true)
  {}

  lemma NarrowRest<V>(skip: set<Node<V>>, c: Node<V>, abs: Trees<V>, up: Parents<V>)
    requires RestOk(skip + {c}, abs, up) && c !in abs
    ensures RestOk(skip, abs, up)
  {}
}
