/**
 The trie as the source builds it: node objects linked through child tables, changed in place by
 loops that walk from the root with two indices and remember the nodes they pass on a stack.
 */
module TrieHeap {
  import opened Options
  import opened Uint256
  import opened TrieModel
  import opened TrieShape
  import opened TrieTheory
  import opened TrieNodes
  import opened TrieHashing

  class Trie<V> {
    const hs: Hashing<V>
    var root: Node<V>

    /** The tree below each node of the trie, and the parent of each node but the root. */
    ghost var abs: Trees<V>
    ghost var up: Parents<V>

    ghost predicate Valid()
      reads this, abs.Keys
    {
      && root in abs && root !in up && RootOk(abs[root])
      && forall n | n in abs :: Shows(n, abs, up)
    }

    /** The value of the whole trie. */
    ghost function Tree(): Tree<V>
      reads this
      requires root in abs
    {
      abs[root]
    }

    constructor (hs: Hashing<V>)
      ensures Valid() && fresh(abs.Keys) && this.hs == hs
      ensures abs[root] == Empty(hs)
    {
      this.hs := hs;
      var node := new Node<V>.Extension(ROOT_KEY, []);
      node.modified, node.valueHash := false, hs.sha(Zero());
      root := node;
      abs, up := map[node := Empty(hs)], map[];
      new;
      CountNone(NoKids<V>());
    }

    // ---- searching ----

    lemma WalkStart(k: Key)
      requires Valid()
      ensures KEY_LENGTH == 64 && root in abs && Tree() == abs[root] && abs[root].Branch?
        && |root.slots| == CHILDREN_COUNT && KidsOk(abs[root].kids, k[..0])
      ensures Along([] + [root], [] + [0], k, abs) && LookupKids(abs[root].kids, k[0..]) == Lookup(Tree(), k)
    {
      hide KidsOk, Count, NodeOk;
      AlongOne(root, k, abs);
      assert k[..0] == [] && k[0..] == k && [] + [root] == [root] && [] + [0] == [0];
    }

    /** One turn of the walk, at branch `node` with `i` nibbles behind it. */
    lemma WalkStep(node: Node<V>, k: Key, i: nat)
      requires Valid() && node in abs && abs[node].Branch? && i < KEY_LENGTH && KidsOk(abs[node].kids, k[..i])
      ensures |node.slots| == CHILDREN_COUNT
      ensures node.slots[k[i]] == null ==> LookupKids(abs[node].kids, k[i..]) == None
      ensures node.slots[k[i]] != null ==>
                var next := node.slots[k[i]];
                && next in abs && NodeOk(abs[next], k[..i]) && next.subKey == abs[next].sub && next.subKey != []
                && var c := Common(next.subKey, k[i..]);
                && (c < |next.subKey| ==> LookupKids(abs[node].kids, k[i..]) == None)
                && (c == |next.subKey| && i + c == KEY_LENGTH ==>
                      abs[next].Leaf? && LookupKids(abs[node].kids, k[i..]) == Some(abs[next].value))
                && (c == |next.subKey| && i + c < KEY_LENGTH ==>
                      && abs[next].Branch? && |next.slots| == CHILDREN_COUNT && |abs[next].key| == i + c
                      && KidsOk(abs[next].kids, k[..i + c]) && abs[next].sub == k[i..i + c]
                      && LookupKids(abs[node].kids, k[i..]) == LookupKids(abs[next].kids, k[i + c..]))
    {
      hide *;
      ValidFacts();
      SlotFacts(node, k[i], abs, up);
      KeyFacts(k, i);
      SlotStep(abs[node].kids, k[..i], k[i..]);
      if node.slots[k[i]] != null {
        var next := node.slots[k[i]];
        NodeFacts(next, abs, up);
        LookupStep(abs[next], k[..i], k[i..]);
        KeyShift(k, i, Common(next.subKey, k[i..]));
      }
    }

    /** The walk that `find`, `search`, `search_and_mark`, `insert` and `erase` each spell out: go down
        while whole prefixes match, and push every node that is left behind on the stack. It ends
        below the top of the stack at an empty slot, at a prefix that differs, or at the leaf of `k`. */
    method Walk(k: Key) returns (stack: seq<Node<V>>, ghost at: seq<nat>, i: nat, next: Node?<V>, j: nat)
      requires Valid()
      ensures Along(stack, at, k, abs) && stack[0] == root && i == at[|at| - 1]
      ensures next == stack[|stack| - 1].slots[k[i]]
      ensures Lookup(Tree(), k) == LookupKids(abs[stack[|stack| - 1]].kids, k[i..])
      ensures next == null ==> Lookup(Tree(), k) == None
      ensures next != null ==> next in abs && NodeOk(abs[next], k[..i]) && j == Common(next.subKey, k[i..])
      ensures next != null && j < |next.subKey| ==> Lookup(Tree(), k) == None
      ensures next != null && j == |next.subKey| ==> abs[next].Leaf? && Lookup(Tree(), k) == Some(abs[next].value)
    {
      hide *;
      WalkStart(k);
      var node: Node<V> := root;
      stack, at, i := [], [], 0;
      while true
        invariant 0 <= i < KEY_LENGTH && |stack| == |at|
        invariant node in abs && abs[node].Branch? && |node.slots| == CHILDREN_COUNT && KidsOk(abs[node].kids, k[..i])
        invariant Along(stack + [node], at + [i], k, abs) && (stack + [node])[0] == root
        invariant LookupKids(abs[node].kids, k[i..]) == Lookup(Tree(), k)
        decreases KEY_LENGTH - i
      {
        stack, at := stack + [node], at + [i];
        next := node.slots[k[i]];
        WalkStep(node, k, i);
        if next == null { j := 0; return; }
        j := MatchPrefix(next.subKey, k, i);
        if j < |next.subKey| || i + j == KEY_LENGTH { return; }
        AlongNext(stack, at, k, abs, next, i + j);
        node := next;
        i := i + j;
      }
    }

    /** `find` and `search`: the leaf of `k`, or null. */
    method FindLeaf(k: Key) returns (leaf: Node?<V>)
      requires Valid()
      ensures leaf == null <==> Lookup(Tree(), k) == None
      ensures leaf != null ==> leaf in abs && abs[leaf].Leaf? && Lookup(Tree(), k) == Some(abs[leaf].value)
    {
      var stack, at, i, next, j := Walk(k);
      if next == null || j < |next.subKey| { return null; }
      return next;
    }

    // ---- changing the nodes of a path ----

    /** A walked path is linked, and shows its trees. */
    lemma WalkedPath(stack: seq<Node<V>>, at: seq<nat>, k: Key)
      requires Valid() && Along(stack, at, k, abs) && stack[0] == root
      ensures Linked(stack, at, k, abs)
      ensures forall j | 0 <= j < |stack| :: ShowsBut(stack[j], k[at[j]], abs, up)
    {
      hide KidsOk, NodeOk, Count, RootOk;
      forall j | 0 <= j < |stack|
        ensures ShowsBut(stack[j], k[at[j]], abs, up)
      {
        assert Shows(stack[j], abs, up);
      }
      forall i, j | 0 <= i < j < |stack|
        ensures stack[i] != stack[j]
      {
        assert at[i] < at[j] && (i > 0 ==> |abs[stack[i]].key| == at[i]);
      }
    }

    /** Pop every node of the path off the stack and mark it. `base` gives the trees of the nodes as
        they are now, except that the nodes of the path do not know of their changed child yet. */
    method MarkPath(stack: seq<Node<V>>, ghost at: seq<nat>, ghost k: Key, ghost goal: seq<Tree<V>>,
        ghost base: Trees<V>, ghost kid: Tree<V>)
      requires PathOk(stack, at, k, base, up) && stack[0] == root && root !in up
        && RestOk((set n | n in stack), base, up)
      requires var n, x := stack[|stack| - 1], k[at[|at| - 1]]; Counted(n, x, base, up) && Holds(n, x, base, kid)
      requires Goals(stack, at, k, base, kid, goal)
      modifies this`abs, (set n | n in stack)`modified
      ensures abs.Keys == base.Keys && RestOk({}, abs, up) && |stack| == |goal|
      ensures forall j | 0 <= j < |stack| :: stack[j] in abs && abs[stack[j]] == goal[j]
      ensures forall n | n in base && n !in stack :: abs[n] == base[n]
      ensures forall n | n in stack :: n.modified
    {
      hide *;
      PathShown(stack, at, k, base, up);
      LinkedLast(stack, at, k, base);
      RestFacts((set n | n in stack), base, up);
      MarkAll(stack);
      HoldsKid(stack[|stack| - 1], k[at[|at| - 1]], base, kid);
      abs := FinishPath(stack, at, k, goal, base, up, kid);
      AllShown(abs, up);
      GoalsLast(stack, at, k, base, kid, goal);
    }

    lemma PathTrees(stack: seq<Node<V>>, at: seq<nat>, k: Key) returns (ts: seq<Tree<V>>)
      requires Valid() && Along(stack, at, k, abs) && stack[0] == root
      ensures TreePath(ts, at, k) && |ts| == |stack| && forall j | 0 <= j < |ts| :: ts[j] == abs[stack[j]]
    {
      hide KidsOk, NodeOk, Count, RootOk;
      WalkedPath(stack, at, k);
      var trees := abs;
      ts := seq(|stack|, j requires 0 <= j < |stack| => trees[stack[j]]);
      forall j | 0 <= j < |ts| - 1
        ensures at[j] < at[j + 1] && ts[j].kids[k[at[j]]] == ts[j + 1] && ts[j + 1].sub == k[at[j]..at[j + 1]]
      {
        assert stack[j].slots[k[at[j]]] == stack[j + 1] && abs[stack[j + 1]].sub == k[at[j + 1 - 1]..at[j + 1]];
      }
    }

    // ---- search_and_mark ----

    /** `leaf` is where the marked path ends: the state in which its value may be written. */
    ghost predicate Writable(leaf: Node<V>, stack: seq<Node<V>>, at: seq<nat>, k: Key, ts: seq<Tree<V>>)
      reads this, stack
    {
      && Linked(stack, at, k, abs) && stack[0] == root && (forall n | n in stack :: n.modified)
      && TreePath(ts, at, k) && |ts| == |stack| && (forall j | 0 <= j < |ts| :: ts[j] == abs[stack[j]])
      && stack[|stack| - 1].slots[k[at[|at| - 1]]] == leaf && leaf in abs && abs[leaf].Leaf?
    }

    lemma MakeWritable(leaf: Node<V>, stack: seq<Node<V>>, at: seq<nat>, k: Key, ts: seq<Tree<V>>, was: Trees<V>)
      requires |stack| == |at| == |ts| > 0 && stack[0] == root && (forall n | n in stack :: n.modified)
      requires forall j | 0 <= j < |stack| :: stack[j] in abs && abs[stack[j]] == ts[j]
      requires TreePath(ts, at, k) && leaf in abs && abs[leaf].Leaf?
      requires Linked(stack, at, k, was) && was.Keys == abs.Keys && stack[|stack| - 1].slots[k[at[|at| - 1]]] == leaf
      ensures Writable(leaf, stack, at, k, ts)
    {}

    lemma MakeValid()
      requires root in abs && root !in up && RootOk(abs[root]) && RestOk({}, abs, up)
      ensures Valid() && Tree() == abs[root] && abs[root].Branch?
    {}

    lemma ValidFacts()
      requires Valid()
      ensures root in abs && root !in up && RootOk(abs[root]) && abs[root].Branch? && Tree() == abs[root]
      ensures forall n | n in abs :: Shows(n, abs, up)
    {}

    lemma MarkReady(stack: seq<Node<V>>, at: seq<nat>, k: Key, leaf: Node<V>) returns (goal: seq<Tree<V>>)
      requires Valid() && Along(stack, at, k, abs) && stack[0] == root
      requires stack[|stack| - 1].slots[k[at[|at| - 1]]] == leaf && leaf in abs && abs[leaf].Leaf?
        && Lookup(Tree(), k).Some?
      ensures |stack| == |at| == |goal| > 0 && TreePath(goal, at, k) && leaf !in stack && Linked(stack, at, k, abs)
      ensures PathOk(stack, at, k, abs, up) && RestOk((set n | n in stack), abs, up)
        && forall n | n in stack :: n in abs
      ensures Counted(stack[|stack| - 1], k[at[|at| - 1]], abs, up)
        && Holds(stack[|stack| - 1], k[at[|at| - 1]], abs, abs[leaf])
      ensures Goals(stack, at, k, abs, abs[leaf], goal)
      ensures goal[0] == UpdateBranch(abs[root], k, abs[leaf].value) && RootOk(goal[0])
    {
      hide *;
      ValidFacts();
      AlongFacts(stack, at, k, abs);
      var ts := PathReady(stack, at, k);
      PathShown(stack, at, k, abs, up);
      var l := |stack| - 1;
      SlotFacts(stack[l], k[at[l]], abs, up);
      MakeHolds(stack[l], k[at[l]], abs, abs[leaf]);
      goal := UpdateGoal(ts, at, k, abs[leaf].value);
      GraftedPath(ts, at, k, abs[leaf], goal);
      MakeGoals(stack, at, k, abs, ts, abs[leaf], goal);
      UpdateRootOk(abs[root], k, abs[leaf].value);
    }

    /** Marks every node above the leaf of `k` and returns the leaf; marks nothing if there is none. */
    method SearchAndMark(k: Key)
      returns (leaf: Node?<V>, ghost stack: seq<Node<V>>, ghost at: seq<nat>, ghost ts: seq<Tree<V>>)
      requires Valid()
      modifies this`abs, abs.Keys`modified
      ensures Valid() && root == old(root) && abs.Keys == old(abs.Keys) && up == old(up)
      ensures leaf == null <==> Lookup(old(Tree()), k) == None
      ensures leaf == null ==> Tree() == old(Tree())
      ensures leaf != null ==>
                && Writable(leaf, stack, at, k, ts) && Lookup(old(Tree()), k) == Some(abs[leaf].value)
                && Tree() == UpdateBranch(old(Tree()), k, abs[leaf].value)
    {
      hide *;
      ValidFacts();
      var path, i, j;
      path, at, i, leaf, j := Walk(k);
      stack := path;
      if leaf == null || j < |leaf.subKey| { ts := []; leaf := null; return; }
      ts := MarkReady(path, at, k, leaf);
      MarkPath(path, at, k, ts, abs, abs[leaf]);
      MakeValid();
      MakeWritable(leaf, stack, at, k, ts, old(abs));
    }

    lemma WriteReady(leaf: Node<V>, stack: seq<Node<V>>, at: seq<nat>, k: Key, ts: seq<Tree<V>>, v: V, written: Tree<V>)
      returns (goal: seq<Tree<V>>)
      requires Valid() && Writable(leaf, stack, at, k, ts) && Lookup(Tree(), k).Some?
        && written == abs[leaf].(value := v)
      ensures var base := abs[leaf := written];
              && Linked(stack, at, k, base) && |stack| == |at| > 0 && leaf !in stack && stack[0] == root
              && (forall j | 0 <= j < |stack| :: at[j] < KEY_LENGTH && ShowsBut(stack[j], k[at[j]], base, up))
              && (forall n | n in base && n !in stack && n != leaf :: Shows(n, base, up))
              && Kid(stack[|stack| - 1], k[at[|at| - 1]], base) == written && Goals(stack, at, k, base, written, goal)
      ensures goal[0] == UpdateBranch(abs[root], k, v) && RootOk(goal[0])
    {
      hide NodeOk, Count;
      ValidFacts();
      var l := |stack| - 1;
      var base := abs[leaf := written];
      assert ts[l].kids[k[at[l]]] == abs[leaf] && Child(stack[l], k[at[l]], leaf, abs, up) by {
        assert Shows(stack[l], abs, up);
      }
      goal := UpdateGoal(ts, at, k, v);
      MakeGoals(stack, at, k, abs, ts, written, goal);
      KeepGoals(stack, at, k, abs, written, goal, leaf, written);
      UpdateBranchOk(abs[root], [], k, v);
      forall n | n in base && n !in stack && n != leaf
        ensures Shows(n, base, up)
      {
        KeepShows(n, leaf, abs, up, written);
      }
      forall j | 0 <= j < |stack|
        ensures ShowsBut(stack[j], k[at[j]], base, up)
      {
        assert Shows(stack[j], abs, up);
        KeepShowsBut(stack[j], k[at[j]], leaf, abs, up, written);
      }
    }

    /** The caller writes through the pointer that `search_and_mark` gave it. */
    method WriteValue(leaf: Node<V>, v: V, ghost stack: seq<Node<V>>, ghost at: seq<nat>, ghost k: Key,
        ghost ts: seq<Tree<V>>)
      requires Valid() && Writable(leaf, stack, at, k, ts) && Lookup(Tree(), k).Some?
      modifies this`abs, leaf`value
      ensures Valid() && root == old(root) && abs.Keys == old(abs.Keys)
      ensures Tree() == UpdateBranch(old(Tree()), k, v)
    {
      hide *;
      ValidFacts();
      WritableFacts(leaf, stack, at, k, ts);
      ShowsLeaf(leaf, abs, up);
      ghost var written := abs[leaf].(value := v);
      ghost var goal := WriteReady(leaf, stack, at, k, ts, v, written);
      ghost var base := abs[leaf := written];
      leaf.value := Some(v);
      LeafShows(leaf, written, base, up);
      abs := FinishPath(stack, at, k, goal, base, up, written);
      MakeValid();
    }

    lemma WritableFacts(leaf: Node<V>, stack: seq<Node<V>>, at: seq<nat>, k: Key, ts: seq<Tree<V>>)
      requires Writable(leaf, stack, at, k, ts)
      ensures leaf in abs && abs[leaf].Leaf? && forall n | n in stack :: n.modified && n != leaf
    {}

    // ---- insert ----

    /** A walked path, ready for a change in the slot it ends at. */
    lemma PathReady(stack: seq<Node<V>>, at: seq<nat>, k: Key) returns (ts: seq<Tree<V>>)
      requires Valid() && Along(stack, at, k, abs) && stack[0] == root
      ensures PathOk(stack, at, k, abs, up) && RestOk((set n | n in stack), abs, up)
      ensures |stack| == |ts| && TreePath(ts, at, k) && forall j | 0 <= j < |ts| ::
          stack[j] in abs && ts[j] == abs[stack[j]]
      ensures var n, x := stack[|stack| - 1], k[at[|at| - 1]];
              && Counted(n, x, abs, up) && Shows(n, abs, up) && (n.slots[x] != null ==> n.slots[x] !in stack)
    {
      hide NodeOk, KidsOk, Count, RootOk;
      WalkedPath(stack, at, k);
      ts := PathTrees(stack, at, k);
      forall j | 0 <= j < |stack| - 1
        ensures Carries(stack[j], k[at[j]], stack[j + 1], abs, up)
      {
        assert Shows(stack[j], abs, up) && stack[j].slots[k[at[j]]] == stack[j + 1];
      }
      var n, x := stack[|stack| - 1], k[at[|at| - 1]];
      assert Shows(n, abs, up);
      if n.slots[x] != null {
        forall j | 0 <= j < |stack|
          ensures stack[j] != n.slots[x]
        {
          if j > 0 { assert Carries(stack[j - 1], k[at[j - 1]], stack[j - 1 + 1], abs, up); }
        }
      }
    }

    /** The trees after a new leaf `c` was allocated and before it is linked in. */
    lemma AddReady(stack: seq<Node<V>>, at: seq<nat>, k: Key, i: nat, v: V, c: Node<V>, t: Tree<V>)
      returns (goal: seq<Tree<V>>)
      requires Valid() && Along(stack, at, k, abs) && stack[0] == root && i == at[|at| - 1]
      requires stack[|stack| - 1].slots[k[i]] == null && t == NewLeaf(k[..i], k[i..], v)
      requires Lookup(Tree(), k) == None && c !in abs && c !in up && c !in stack
      ensures |goal| > 0 && goal[0] == InsertBranch(abs[root], [], k, v) && RootOk(goal[0])
      ensures var top := stack[|stack| - 1]; var base, up' := abs[c := t], up[c := top];
              && PathOk(stack, at, k, base, up') && RestOk((set n | n in stack) + {c}, base, up')
              && Goals(stack, at, k, base, t, goal) && Child(top, k[i], c, base, up')
    {
      hide *;
      ValidFacts();
      AlongFacts(stack, at, k, abs);
      var ts := PathReady(stack, at, k);
      var top := stack[|stack| - 1];
      SlotFacts(top, k[i], abs, up);
      goal := InsertGoal(ts, at, k, v, t);
      MakeGoals(stack, at, k, abs, ts, t, goal);
      KeepGoals(stack, at, k, abs, t, goal, c, t);
      InsertRootOk(abs[root], k, v);
      AddToPath(stack, at, k, abs, up, c, t, top);
      AddToRest((set n | n in stack), abs, up, c, t, top);
      NewLeafFacts(k, i, v);
      ChildOf(top, k[i], c, abs[c := t], up[c := top]);
    }

    /** The slot is free: a new leaf with the rest of the key goes into it. */
    method AddLeaf(stack: seq<Node<V>>, ghost at: seq<nat>, k: Key, i: nat, v: V)
      requires Valid() && Along(stack, at, k, abs) && stack[0] == root && i == at[|at| - 1]
      requires stack[|stack| - 1].slots[k[i]] == null && Lookup(Tree(), k) == None
      modifies this`abs, this`up, abs.Keys
      ensures Valid() && root == old(root) && fresh(abs.Keys - old(abs.Keys)) && old(abs.Keys) <= abs.Keys
      ensures Tree() == InsertBranch(old(Tree()), [], k, v)
    {
      hide *;
      ValidFacts();
      AlongFacts(stack, at, k, abs);
      NewLeafFacts(k, i, v);
      var top := stack[|stack| - 1];
      SlotFacts(top, k[i], abs, up);
      ghost var t := NewLeaf(k[..i], k[i..], v);
      var leaf := new Node<V>.LeafNode(Hex(k), k[i..], v);
      ghost var goal := AddReady(stack, at, k, i, v, leaf, t);
      ghost var base := abs[leaf := t];
      assert base.Keys == abs.Keys + {leaf};
      up := up[leaf := top];
      LeafShows(leaf, t, base, up);
      PlaceLeaf(top, k[i], leaf, stack, at, k, base, up, t);
      MarkPath(stack, at, k, goal, base, t);
      MakeValid();
    }

    /** The trees after the two new nodes of a split were allocated and before they are linked in. */
    lemma SplitReady(stack: seq<Node<V>>, at: seq<nat>, k: Key, i: nat, v: V, next: Node<V>, child: Node<V>,
        leaf: Node<V>, s: Tree<V>, lower: Tree<V>, t: Tree<V>)
      returns (goal: seq<Tree<V>>)
      requires Valid() && Along(stack, at, k, abs) && stack[0] == root && i == at[|at| - 1]
      requires stack[|stack| - 1].slots[k[i]] == next && next in abs && s == InsertNode(abs[next], k[..i], k[i..], v)
      requires Lookup(Tree(), k) == None && child != leaf
      requires child !in abs && child !in up && child !in stack && leaf !in abs && leaf !in up && leaf !in stack
      ensures |goal| > 0 && goal[0] == InsertBranch(abs[root], [], k, v) && RootOk(goal[0]) && next !in stack
      ensures var top := stack[|stack| - 1];
              var base, up' := abs[next := lower][leaf := t][child := s],
                up[next := child][leaf := child][child := top];
              && PathOk(stack, at, k, base, up') && RestOk((set n | n in stack) + {next} + {leaf} + {child}, base, up')
              && Goals(stack, at, k, base, s, goal)
    {
      hide *;
      ValidFacts();
      AlongFacts(stack, at, k, abs);
      var ts := PathReady(stack, at, k);
      var top := stack[|stack| - 1];
      SlotFacts(top, k[i], abs, up);
      ChildFacts(top, k[i], next, abs, up);
      var abs1, up1 := abs[next := lower], up[next := child];
      var abs2, up2 := abs1[leaf := t], up1[leaf := child];
      goal := InsertGoal(ts, at, k, v, s);
      MakeGoals(stack, at, k, abs, ts, s, goal);
      KeepGoals(stack, at, k, abs, s, goal, next, lower);
      KeepGoals(stack, at, k, abs1, s, goal, leaf, t);
      KeepGoals(stack, at, k, abs2, s, goal, child, s);
      InsertRootOk(abs[root], k, v);
      MoveOnPath(stack, at, k, abs, up, next, lower, child);
      AddToPath(stack, at, k, abs1, up1, leaf, t, child);
      AddToPath(stack, at, k, abs2, up2, child, s, top);
      var skip := set n | n in stack;
      AddToRest(skip, abs, up, next, lower, child);
      AddToRest(skip + {next}, abs1, up1, leaf, t, child);
      AddToRest(skip + {next} + {leaf}, abs2, up2, child, s, top);
    }

    /** The prefix of `next` differs from the key after `j` nibbles: a new branch with the common part
        takes the place of `next` and holds it beside a new leaf. */
    method SplitAt(stack: seq<Node<V>>, ghost at: seq<nat>, k: Key, i: nat, next: Node<V>, j: nat, v: V)
      requires Valid() && Along(stack, at, k, abs) && stack[0] == root && i == at[|at| - 1]
      requires stack[|stack| - 1].slots[k[i]] == next && next in abs && NodeOk(abs[next], k[..i])
      requires j == Common(next.subKey, k[i..]) && j < |next.subKey| && Lookup(Tree(), k) == None
      modifies this`abs, this`up, abs.Keys
      ensures Valid() && root == old(root) && fresh(abs.Keys - old(abs.Keys)) && old(abs.Keys) <= abs.Keys
      ensures Tree() == InsertBranch(old(Tree()), [], k, v)
    {
      hide *;
      ValidFacts();
      AlongFacts(stack, at, k, abs);
      SplitDepth(next, k, i, j, abs, up);
      var top := stack[|stack| - 1];
      ghost var s := InsertNode(abs[next], k[..i], k[i..], v);
      ghost var lower := abs[next].(sub := abs[next].sub[j..]);
      ghost var t := NewLeaf(k[..i + j], k[i + j..], v);
      SplitStart(top, next, k, i, j, v, abs, up, s, lower, t);
      var child := new Node<V>.Extension(Hex(k)[..i + j], next.subKey[..j]);
      var leaf := new Node<V>.LeafNode(Hex(k), k[i + j..], v);
      ghost var goal := SplitReady(stack, at, k, i, v, next, child, leaf, s, lower, t);
      ghost var base := abs[next := lower][leaf := t][child := s];
      ghost var added := {leaf, child};
      assert base.Keys == old(abs.Keys) + added;
      up := up[next := child][leaf := child][child := top];
      Place(top, stack, at, k, k[i], k[i + j], next, j, child, leaf, abs, old(up), lower, t, s, base, up);
      MarkPath(stack, at, k, goal, base, s);
      assert fresh(added) && abs.Keys - old(abs.Keys) <= added;
      MakeValid();
    }

    /** A key that is present keeps its value, and nothing changes. */
    method Insert(k: Key, v: V)
      requires Valid()
      modifies this`abs, this`up, abs.Keys
      ensures Valid() && root == old(root) && fresh(abs.Keys - old(abs.Keys)) && old(abs.Keys) <= abs.Keys
      ensures Tree() == TrieModel.Insert(old(Tree()), k, v)
    {
      hide NodeOk, KidsOk, LookupKids, LookupNode, Along, Shows, InsertBranch, RootOk;
      var stack, at, i, next, j := Walk(k);
      if next == null {
        AddLeaf(stack, at, k, i, v);
      } else if j < |next.subKey| {
        SplitAt(stack, at, k, i, next, j, v);
      }
    }

    // ---- erase ----

    lemma EraseReady(stack: seq<Node<V>>, at: seq<nat>, k: Key, i: nat, leaf: Node<V>) returns (goal: seq<Tree<V>>)
      requires Valid() && Along(stack, at, k, abs) && stack[0] == root && i == at[|at| - 1]
      requires stack[|stack| - 1].slots[k[i]] == leaf && leaf in abs && abs[leaf].Leaf? && Lookup(Tree(), k).Some?
      requires |stack| == 1 || stack[|stack| - 1].count != 2
      ensures |goal| > 0 && goal[0] == EraseBranch(abs[root], k, true) && RootOk(goal[0]) && leaf !in stack
      ensures var base, up' := abs - {leaf}, up - {leaf};
              && PathOk(stack, at, k, base, up') && RestOk((set n | n in stack), base, up')
                && Goals(stack, at, k, base, Absent, goal)
    {
      hide *;
      ValidFacts();
      AlongFacts(stack, at, k, abs);
      KeyFacts(k, i);
      var ts := PathReady(stack, at, k);
      var l := |stack| - 1;
      SlotFacts(stack[l], k[i], abs, up);
      ChildFacts(stack[l], k[i], leaf, abs, up);
      EraseLast(abs[stack[l]], k[i..], l == 0);
      goal := EraseGoal(ts, at, k, Absent);
      MakeGoals(stack, at, k, abs, ts, Absent, goal);
      DropGoals(stack, at, k, abs, Absent, goal, leaf);
      EraseRootOk(abs[root], k);
      DropFromPath(stack, at, k, abs, up, leaf);
      DropFromRest((set n | n in stack), abs, up, leaf);
    }

    /** The parent is the root or keeps at least two children: the leaf goes, and nothing else moves. */
    method EraseLeaf(stack: seq<Node<V>>, ghost at: seq<nat>, k: Key, i: nat, leaf: Node<V>)
      requires Valid() && Along(stack, at, k, abs) && stack[0] == root && i == at[|at| - 1]
      requires stack[|stack| - 1].slots[k[i]] == leaf && leaf in abs && abs[leaf].Leaf? && Lookup(Tree(), k).Some?
      requires |stack| == 1 || stack[|stack| - 1].count != 2
      modifies this`abs, this`up, abs.Keys
      ensures Valid() && root == old(root) && abs.Keys == old(abs.Keys) - {leaf}
      ensures Tree() == EraseBranch(old(Tree()), k, true)
    {
      hide *;
      ValidFacts();
      AlongFacts(stack, at, k, abs);
      var top := stack[|stack| - 1];
      SlotFacts(top, k[i], abs, up);
      CountPositive(abs[top].kids, k[i]);
      ghost var goal := EraseReady(stack, at, k, i, leaf);
      ghost var base := abs - {leaf};
      PathDistinct(stack, at, k, base, up - {leaf});
      label before:
      up := up - {leaf};
      var done := top.EraseChild(k[i]);
      SetPathSlot@before(PathSite(stack, at, k, base, up));
      MakeHolds(top, k[i], base, Absent);
      MakeCounted(top, k[i], base, up);
      MarkPath(stack, at, k, goal, base, Absent);
      MakeValid();
    }

    lemma MergeReady(stack: seq<Node<V>>, at: seq<nat>, k: Key, m: nat, i: nat, leaf: Node<V>)
      returns (g: Nibble, b: Node<V>, goal: seq<Tree<V>>)
      requires Valid() && Along(stack, at, k, abs) && stack[0] == root && i == at[|at| - 1] && m == |stack| - 1 && m > 0
      requires stack[m].slots[k[i]] == leaf && leaf in abs && abs[leaf].Leaf? && Lookup(Tree(), k).Some?
        && stack[m].count == 2
      ensures at[m - 1] < KEY_LENGTH && MergeSite(stack[m - 1], k[at[m - 1]], stack[m], k[i], leaf, g, b, abs, up)
      ensures b in abs && !abs[b].Absent? && MergePlan(stack[..m], at[..m], k, stack[m], leaf, b, abs, up,
        Merged(stack[m], b, abs), goal)
      ensures |goal| > 0 && goal[0] == EraseBranch(abs[root], k, true) && RootOk(goal[0])
    {
      hide *;
      ValidFacts();
      AlongFacts(stack, at, k, abs);
      KeyFacts(k, i);
      var ts := PathReady(stack, at, k);
      var grand, parent := stack[m - 1], stack[m];
      PathPrefix(stack, at, k, abs, up);
      CarriesFacts(grand, k[at[m - 1]], parent, abs, up);
      TreePathPrefix(ts, at, k, m);
      AlongParent(stack, at, k, abs, m);
      SlotFacts(parent, k[i], abs, up);
      if grand in up && up[grand] == parent { PathParents(stack, at, k, abs, up, grand); }
      g, b := MakeSite(grand, k[at[m - 1]], parent, k[i], leaf, k[..at[m - 1]], abs, up);
      SiteFacts(grand, k[at[m - 1]], parent, k[i], leaf, g, b, abs, up);
      PathParents(stack, at, k, abs, up, leaf);
      PathParents(stack, at, k, abs, up, b);
      var merged := Merged(parent, b, abs);
      EraseLast(abs[parent], k[i..], false);
      EraseStep(abs[grand], k, at[m - 1], i, m - 1 == 0);
      goal := EraseGoal(ts[..m], at[..m], k, merged);
      MakeGoals(stack[..m], at[..m], k, abs, ts[..m], merged, goal);
      EraseRootOk(abs[root], k);
      PathRest(stack, m, abs, up);
      MakePlan(stack[..m], at[..m], k, parent, leaf, b, abs, up, merged, goal);
    }

    lemma PathRest(stack: seq<Node<V>>, m: nat, abs: Trees<V>, up: Parents<V>)
      requires (forall n | n in abs :: Shows(n, abs, up)) && m <= |stack|
      ensures RestOk((set n | n in stack[..m]), abs, up)
    {}

    /** The parent keeps one other child: that child takes the parent's place, with both prefixes. */
    method EraseAndMerge(stack: seq<Node<V>>, ghost at: seq<nat>, k: Key, i: nat, leaf: Node<V>, ghost above: nat)
      requires Valid() && Along(stack, at, k, abs) && stack[0] == root && i == at[|at| - 1] && |stack| > 1
        && above == at[|at| - 2]
      requires stack[|stack| - 1].slots[k[i]] == leaf && leaf in abs && abs[leaf].Leaf? && Lookup(Tree(), k).Some?
      requires stack[|stack| - 1].count == 2
      modifies this`abs, this`up, abs.Keys
      ensures Valid() && root == old(root) && abs.Keys == old(abs.Keys) - {leaf, stack[|stack| - 1]}
      ensures Tree() == EraseBranch(old(Tree()), k, true)
    {
      hide *;
      ValidFacts();
      AlongFacts(stack, at, k, abs);
      ghost var m := |stack| - 1;
      var grand, parent := stack[|stack| - 2], stack[|stack| - 1];
      ghost var g, b, goal := MergeReady(stack, at, k, m, i, leaf);
      SiteFacts(grand, k[above], parent, k[i], leaf, g, b, abs, up);
      ghost var merged := Merged(parent, b, abs);
      ghost var base := (abs - {leaf} - {parent})[b := merged];
      ghost var was := up;
      up := (up - {leaf} - {parent})[b := grand];
      PlaceMerged(grand, parent, k[i], stack[..m], at[..m], k, k[above], leaf, g, b, abs, was, merged, base, up, goal);
      MarkPath(stack[..|stack| - 1], at[..m], k, goal, base, merged);
      MakeValid();
    }

    method Erase(k: Key) returns (erased: bool)
      requires Valid()
      modifies this`abs, this`up, abs.Keys
      ensures Valid() && root == old(root) && abs.Keys <= old(abs.Keys)
      ensures erased == Lookup(old(Tree()), k).Some?
      ensures Tree() == TrieModel.Erase(old(Tree()), k)
    {
      hide NodeOk, KidsOk, LookupKids, LookupNode, Shows, EraseBranch, RootOk;
      var stack, at, i, next, j := Walk(k);
      if next == null || j < |next.subKey| { return false; }
      if |stack| == 1 || stack[|stack| - 1].count != 2 {
        EraseLeaf(stack, at, k, i, next);
      } else {
        EraseAndMerge(stack, at, k, i, next, at[|at| - 2]);
      }
      return true;
    }

    // ---- get_hash ----

    method GetHash() returns (hash: Hash)
      requires Valid()
      modifies this`abs, abs.Keys`valueHash, abs.Keys`modified
      ensures Valid() && root == old(root) && abs.Keys == old(abs.Keys)
      ensures Tree() == RehashBranch(hs, old(Tree())) && hash == Tree().hash
    {
      hide *;
      ValidFacts();
      RootFacts();
      UnmarkedRoot(hs, abs[root]);
      RehashRootOk(hs, abs[root]);
      if root.modified {
        ghost var was := abs;
        AllShown(abs, up);
        var cache;
        ghost var found;
        cache, found := Collect(root, abs, up);
        StartShapes(hs, abs, up);
        ghost var hashed := HashAll(hs, root, cache, found, abs, up);
        HashedTrie(hs, root, cache, hashed, found, abs, up);
        NewRoot(hs, root, hashed, abs);
        abs := NewTrees(hs, hashed, abs);
        MakeValid();
        RootFacts();
      }
      return root.valueHash;
    }

    lemma RootFacts()
      requires Valid()
      ensures root in abs && abs[root].Branch? && |root.slots| == CHILDREN_COUNT
        && root.modified == abs[root].modified && root.valueHash == abs[root].hash
    {
      hide Count, KidsOk;
      assert Shows(root, abs, up);
    }

    /** `search_and_mark` followed by one write. */
    method Update(k: Key, v: V) returns (found: bool)
      requires Valid()
      modifies this`abs, abs.Keys
      ensures Valid() && root == old(root) && abs.Keys == old(abs.Keys)
      ensures found == Lookup(old(Tree()), k).Some?
      ensures Tree() == TrieModel.Update(old(Tree()), k, v)
    {
      ghost var t := Tree();
      var leaf, stack, at, ts := SearchAndMark(k);
      if leaf == null { return false; }
      UpdateTwice(t, k, abs[leaf].value, v);
      WriteValue(leaf, v, stack, at, k, ts);
      return true;
    }
  }

  /** Marking a path and writing its leaf is the same as one update. */
  lemma UpdateTwice<V>(t: Tree<V>, k: Key, u: V, v: V)
    requires RootOk(t) && Lookup(t, k).Some?
    ensures UpdateBranch(UpdateBranch(t, k, u), k, v) == UpdateBranch(t, k, v)
    ensures Lookup(UpdateBranch(t, k, u), k).Some?
  {
    UpdateBranchTwice(t, [], k, u, v);
    UpdateBranchLookup(t, [], k, u, k);
  }

  lemma {:induction false} UpdateBranchTwice<V>(t: Tree<V>, p: Path, k: Path, u: V, v: V)
    requires t.Branch? && KidsOk(t.kids, p) && |p| + |k| == KEY_LENGTH && k != [] && LookupKids(t.kids, k).Some?
    ensures UpdateBranch(UpdateBranch(t, k, u), k, v) == UpdateBranch(t, k, v)
  {
    var kid := t.kids[k[0]];
    if kid.Branch? { UpdateBranchTwice(kid, p + kid.sub, k[|kid.sub|..], u, v); }
  }
}
