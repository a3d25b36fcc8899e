/**
 * One explicit producer of the concurrent queue: its ring of blocks and the
 * circular index that finds the block of an element.
 *
 * Operations are atomic here and never fail to allocate. Blocks are numbered;
 * their fields are maps from the number. Indices are unbounded.
 */
module BlockIndex {

  import opened Options
  import opened Binary
  import DequeueProtocol

  const BLOCK_SIZE: nat := 32
  const INITIAL_INDEX_SIZE: nat := 32

  type Block = int

  datatype Entry = Entry(base: int, block: Block)

  // What x & (n - 1) is for a power of two n, on the values it is applied to.
  function Mask(x: int, n: nat): int {
    if x < 0 then x + n else if x >= n then x - n else x
  }

  lemma MaskIsAnd(x: int, n: nat)
    requires IsPow2(n) && 0 <= x + n < 3 * n
    ensures n > 0 && Mask(x, n) == And(x, n - 1)
  {
    hide And, IsPow2;
    Pow2Mask(x, n);
    if x < 0 {
      RemainderUnique(x, n, -1, x + n);
    } else if x >= n {
      RemainderUnique(x, n, 1, x - n);
    } else {
      RemainderUnique(x, n, 0, x);
    }
  }

  // The flags set in a block are those of the slots already dequeued.
  ghost predicate FlagsOk(flags: set<int>, base: int, head: nat) {
    forall k :: 0 <= k < BLOCK_SIZE ==> (k in flags <==> base + k < head)
  }

  // A block holds the elements of the queue that have their index in it.
  ghost predicate CellsOk<T>(cells: seq<T>, base: int, head: nat, tail: nat, contents: seq<T>) {
    && |cells| == BLOCK_SIZE && head <= tail && |contents| == tail - head
    && forall k :: 0 <= k < BLOCK_SIZE && head <= base + k < tail ==> cells[k] == contents[base + k - head]
  }

  // What a block of the ring must be.
  ghost predicate BlockOk<T>(cells: map<Block, seq<T>>, dequeued: map<Block, set<int>>, b: Block, base: int, head: nat,
      tail: nat, contents: seq<T>)
  {
    && b in cells && b in dequeued
    && FlagsOk(dequeued[b], base, head) && CellsOk(cells[b], base, head, tail, contents)
  }

  lemma BlockAfterDequeue<T>(cells: map<Block, seq<T>>, dequeued: map<Block, set<int>>, b: Block, base: int, head: nat,
      tail: nat, contents: seq<T>, c: Block, slot: nat)
    requires BlockOk(cells, dequeued, b, base, head, tail, contents) && head < tail && slot < BLOCK_SIZE
    requires c in dequeued && if b == c then base + slot == head else !(base <= head < base + BLOCK_SIZE)
    ensures |contents| > 0
    ensures BlockOk(cells, dequeued[c := dequeued[c] + {slot}], b, base, head + 1, tail, contents[1..])
    ensures b == c ==> |cells[c]| == BLOCK_SIZE && cells[c][slot] == contents[0]
  {
    FlagsAfterDequeue(dequeued[b], base, head, slot);
    CellsAfterDequeue(cells[b], base, head, tail, contents);
  }

  lemma BlockAfterEnqueue<T>(cells: map<Block, seq<T>>, dequeued: map<Block, set<int>>, b: Block, base: int, head: nat,
      tail: nat, contents: seq<T>, c: Block, slot: nat, x: T)
    requires BlockOk(cells, dequeued, b, base, head, tail, contents) && slot < BLOCK_SIZE
    requires c in cells && |cells[c]| == BLOCK_SIZE
    requires if b == c then base + slot == tail else !(base <= tail < base + BLOCK_SIZE)
    ensures BlockOk(cells[c := cells[c][slot := x]], dequeued, b, base, head, tail + 1, contents + [x])
  {
    CellsAfterEnqueue(cells[b], base, head, tail, contents, x);
  }

  lemma FlagsAfterDequeue(flags: set<int>, base: int, head: nat, slot: nat)
    requires FlagsOk(flags, base, head) && slot < BLOCK_SIZE
    ensures base + slot == head ==> FlagsOk(flags + {slot}, base, head + 1)
    ensures !(base <= head < base + BLOCK_SIZE) ==> FlagsOk(flags, base, head + 1)
  {
  }

  lemma CellsAfterDequeue<T>(cells: seq<T>, base: int, head: nat, tail: nat, contents: seq<T>)
    requires CellsOk(cells, base, head, tail, contents) && head < tail
    ensures CellsOk(cells, base, head + 1, tail, contents[1..])
  {
  }

  lemma CellsAfterEnqueue<T>(cells: seq<T>, base: int, head: nat, tail: nat, contents: seq<T>, x: T)
    requires CellsOk(cells, base, head, tail, contents)
    ensures base <= tail < base + BLOCK_SIZE ==>
              CellsOk(cells[tail - base := x], base, head, tail + 1, contents + [x])
    ensures !(base <= tail < base + BLOCK_SIZE) ==> CellsOk(cells, base, head, tail + 1, contents + [x])
  {
  }

  lemma BlockFacts<T>(cells: map<Block, seq<T>>, dequeued: map<Block, set<int>>, b: Block, base: int, head: nat,
      tail: nat, contents: seq<T>)
    requires BlockOk(cells, dequeued, b, base, head, tail, contents)
    ensures b in cells && b in dequeued && |cells[b]| == BLOCK_SIZE && |contents| == tail - head
    ensures forall k :: 0 <= k < BLOCK_SIZE ==> (k in dequeued[b] <==> base + k < head)
  {
  }

  // ---- The producer's state and what must hold of it ---------------------

  datatype State<T> = State(
    tail: nat,                          // tailIndex
    head: nat,                          // headIndex
    tailBlock: Option<Block>,
    next: map<Block, Block>,
    cells: map<Block, seq<T>>,
    dequeued: map<Block, set<int>>,     // the slots whose empty flag is set
    entries: seq<Entry>,                // the index, of size |entries|
    exposed: int,                       // its front: the last slot written
    front: nat,                         // pr_blockIndexFront: the next slot
    used: nat)                          // pr_blockIndexSlotsUsed

  // The ring lists the blocks in the order they were filled, oldest first; the
  // newest starts at `last`, the others each one block size before the next.
  function Base(last: int, used: nat, i: int): int {
    last - (used - 1 - i) * BLOCK_SIZE
  }

  ghost predicate Distinct(ring: seq<Block>) {
    forall i, j :: 0 <= i < j < |ring| ==> ring[i] != ring[j]
  }

  // The block that follows the i-th in the circular list.
  function Follower(ring: seq<Block>, i: nat): Block
    requires i < |ring|
  {
    if i == |ring| - 1 then ring[0] else ring[i + 1]
  }

  ghost predicate Linked(next: map<Block, Block>, ring: seq<Block>) {
    forall i :: 0 <= i < |ring| ==> ring[i] in next && next[ring[i]] == Follower(ring, i)
  }

  ghost predicate RingOk<T>(s: State<T>, ring: seq<Block>, last: int) {
    && |ring| == s.used && Distinct(ring) && Linked(s.next, ring)
    && last % BLOCK_SIZE == 0 && last <= s.tail <= last + BLOCK_SIZE
    && (if s.used == 0 then s.tailBlock == None && s.tail == 0 && last == -32
        else s.tailBlock == Some(ring[s.used - 1]))
  }

  // The slot of the i-th block of the ring.
  function Slot(front: nat, used: nat, size: nat, i: int): int {
    Mask(front - used + i, size)
  }

  // The last `used` slots before the front describe the ring, oldest first.
  ghost predicate Window(entries: seq<Entry>, front: nat, ring: seq<Block>, last: int) {
    && |ring| <= |entries| && IsPow2(|entries|) && front < |entries|
    && forall i :: 0 <= i < |ring| ==>
         entries[Slot(front, |ring|, |entries|, i)] == Entry(Base(last, |ring|, i), ring[i])
  }

  ghost predicate IndexOk<T>(s: State<T>, ring: seq<Block>, last: int) {
    Window(s.entries, s.front, ring, last) && (s.used > 0 ==> s.exposed == Mask(s.front - 1, |s.entries|))
  }

  // Every element of the queue is in the ring.
  ghost predicate BlocksOk<T>(cells: map<Block, seq<T>>, dequeued: map<Block, set<int>>, ring: seq<Block>, last: int,
      head: nat, tail: nat, contents: seq<T>)
  {
    forall i :: 0 <= i < |ring| ==> BlockOk(cells, dequeued, ring[i], Base(last, |ring|, i), head, tail, contents)
  }

  ghost predicate Ok<T>(s: State<T>, ring: seq<Block>, last: int, contents: seq<T>) {
    && RingOk(s, ring, last) && IndexOk(s, ring, last)
    && s.head <= s.tail && |contents| == s.tail - s.head && (s.used > 0 ==> 0 <= Base(last, s.used, 0) <= s.head)
    && BlocksOk(s.cells, s.dequeued, ring, last, s.head, s.tail, contents)
  }

  // ---- Lookup ------------------------------------------------------------

  // The circular lookup of `dequeue`.
  function Find<T>(s: State<T>, index: int): Option<Block> {
    if !(0 <= s.exposed < |s.entries|) then None else
    var blockBase := index - index % BLOCK_SIZE;
    var offset := (blockBase - s.entries[s.exposed].base) / BLOCK_SIZE;
    var slot := Mask(s.exposed + offset, |s.entries|);
    if 0 <= slot < |s.entries| then Some(s.entries[slot].block) else None
  }

  // Which block of the ring holds an index.
  function RingIndex(last: int, used: nat, index: int): int {
    used - 1 + (index - index % BLOCK_SIZE - last) / BLOCK_SIZE
  }

  lemma RingIndexOk<T>(s: State<T>, ring: seq<Block>, last: int, contents: seq<T>, index: int)
    requires Ok(s, ring, last, contents) && s.head <= index < s.tail
    ensures var q := RingIndex(last, s.used, index);
      0 <= q < s.used == |ring| && Base(last, s.used, q) == index - index % BLOCK_SIZE
  {
    hide IndexOk, BlocksOk, Distinct, Linked;
    InRing(last, s.used, index);
  }

  lemma InRing(last: int, used: nat, index: int)
    requires last % BLOCK_SIZE == 0 && Base(last, used, 0) <= index < last + BLOCK_SIZE
    ensures var q := RingIndex(last, used, index);
      0 <= q < used && Base(last, used, q) == index - index % BLOCK_SIZE
  {
    var m, n := index / BLOCK_SIZE, last / BLOCK_SIZE;
    assert index - index % BLOCK_SIZE == BLOCK_SIZE * m && last == BLOCK_SIZE * n;
    assert index - index % BLOCK_SIZE - last == BLOCK_SIZE * (m - n);
  }

  // The lookup of any live index finds the block of the ring that holds it.
  lemma FindsTheBlock<T>(s: State<T>, ring: seq<Block>, last: int, contents: seq<T>, index: int)
    requires Ok(s, ring, last, contents) && s.head <= index < s.tail
    ensures var q := RingIndex(last, s.used, index);
      0 <= q < s.used == |ring| && Find(s, index) == Some(ring[q])
  {
    hide BlocksOk, Distinct, Linked, IsPow2, Pow2;
    RingIndexOk(s, ring, last, contents, index);
    var n := |s.entries|;
    assert s.exposed == Slot(s.front, s.used, n, s.used - 1);
    assert s.entries[s.exposed] == Entry(last, ring[s.used - 1]);
    var q := RingIndex(last, s.used, index);
    assert s.entries[Slot(s.front, s.used, n, q)] == Entry(Base(last, s.used, q), ring[q]);
  }

  // ---- Dequeue -----------------------------------------------------------

  function AfterDequeue<T>(s: State<T>, block: Block): State<T>
    requires block in s.dequeued
  {
    s.(head := s.head + 1, dequeued := s.dequeued[block := s.dequeued[block] + {s.head % BLOCK_SIZE}])
  }

  lemma RingPlaces(ring: seq<Block>, last: int, i: int, j: int)
    requires Distinct(ring) && 0 <= i < |ring| && 0 <= j < |ring|
    ensures ring[i] == ring[j] <==> i == j
    ensures i < j ==> Base(last, |ring|, i) + BLOCK_SIZE <= Base(last, |ring|, j)
    ensures j < i ==> Base(last, |ring|, j) + BLOCK_SIZE <= Base(last, |ring|, i)
  {
  }

  lemma DequeueOk<T>(s: State<T>, ring: seq<Block>, last: int, contents: seq<T>, block: Block)
    requires Ok(s, ring, last, contents) && s.head < s.tail && Find(s, s.head) == Some(block)
    ensures block in s.dequeued && block in s.cells && |contents| > 0 && |s.cells[block]| == BLOCK_SIZE
    ensures s.cells[block][s.head % BLOCK_SIZE] == contents[0]
    ensures Ok(AfterDequeue(s, block), ring, last, contents[1..])
  {
    hide BlockOk, Window, Linked, Distinct, Find, RingIndex;
    var slot, q := s.head % BLOCK_SIZE, RingIndex(last, s.used, s.head);
    FindsTheBlock(s, ring, last, contents, s.head);
    RingIndexOk(s, ring, last, contents, s.head);
    assert BlockOk(s.cells, s.dequeued, ring[q], Base(last, |ring|, q), s.head, s.tail, contents);
    BlockFacts(s.cells, s.dequeued, block, Base(last, |ring|, q), s.head, s.tail, contents);
    BlockAfterDequeue(s.cells, s.dequeued, block, Base(last, |ring|, q), s.head, s.tail, contents, block, slot);
    var flags := s.dequeued[block := s.dequeued[block] + {slot}];
    forall i | 0 <= i < |ring|
      ensures BlockOk(s.cells, flags, ring[i], Base(last, |ring|, i), s.head + 1, s.tail, contents[1..])
    {
      RingPlaces(ring, last, i, q);
      BlockAfterDequeue(s.cells, s.dequeued, ring[i], Base(last, |ring|, i), s.head, s.tail, contents, block, slot);
    }
  }

  // ---- The index ---------------------------------------------------------

  function Unrolled(entries: seq<Entry>, front: nat, used: nat): seq<Entry>
    requires used <= |entries| && front < |entries|
  {
    seq(used, i requires 0 <= i < used => entries[Slot(front, used, |entries|, i)])
  }

  // The table of double size: the entries in use come first.
  function Doubled<T>(s: State<T>): State<T>
    requires s.used <= |s.entries| && s.front < |s.entries|
  {
    s.(entries := Unrolled(s.entries, s.front, s.used) + seq(2 * |s.entries| - s.used, _ => Entry(0, 0)),
       exposed := s.used - 1, front := s.used)
  }

  lemma DoubledOk<T>(s: State<T>, ring: seq<Block>, last: int, contents: seq<T>)
    requires Ok(s, ring, last, contents)
    ensures Ok(Doubled(s), ring, last, contents) && |Doubled(s).entries| == 2 * |s.entries| > s.used
  {
    hide BlocksOk, Distinct, Linked, IsPow2;
    Pow2Doubles(|s.entries|);
  }

  // Writing the entry of the next block at the front.
  function WithEntry<T>(s: State<T>, block: Block): State<T>
    requires s.front < |s.entries|
  {
    s.(entries := s.entries[s.front := Entry(s.tail, block)], exposed := s.front,
       front := Mask(s.front + 1, |s.entries|))
  }

  lemma WindowSize(entries: seq<Entry>, front: nat, ring: seq<Block>, last: int)
    requires Window(entries, front, ring, last)
    ensures |ring| <= |entries| && IsPow2(|entries|) && front < |entries|
    ensures Mask(Mask(front + 1, |entries|) - 1, |entries|) == front
  {
  }

  lemma WindowGrows(entries: seq<Entry>, front: nat, ring: seq<Block>, last: int, b: Block)
    requires Window(entries, front, ring, last) && |ring| < |entries|
    ensures Window(entries[front := Entry(last + BLOCK_SIZE, b)], Mask(front + 1, |entries|), ring + [b],
      last + BLOCK_SIZE)
  {
    var entries', front', n := entries[front := Entry(last + BLOCK_SIZE, b)], Mask(front + 1, |entries|), |entries|;
    forall i | 0 <= i < |ring| + 1
      ensures entries'[Slot(front', |ring| + 1, n, i)] == Entry(Base(last + BLOCK_SIZE, |ring| + 1, i), (ring + [b])[i])
    {
      if i < |ring| {
        assert Slot(front', |ring| + 1, n, i) == Slot(front, |ring|, n, i) != front;
        assert entries[Slot(front, |ring|, n, i)] == Entry(Base(last, |ring|, i), ring[i]);
      }
    }
  }

  lemma WindowTurns(entries: seq<Entry>, front: nat, ring: seq<Block>, last: int)
    requires Window(entries, front, ring, last) && |ring| > 0
    ensures Window(entries[front := Entry(last + BLOCK_SIZE, ring[0])], Mask(front + 1, |entries|),
                   ring[1..] + [ring[0]], last + BLOCK_SIZE)
  {
    var entries', front', n := entries[front := Entry(last + BLOCK_SIZE, ring[0])], Mask(front + 1, |entries|),
      |entries|;
    var ring' := ring[1..] + [ring[0]];
    forall i | 0 <= i < |ring|
      ensures entries'[Slot(front', |ring|, n, i)] == Entry(Base(last + BLOCK_SIZE, |ring|, i), ring'[i])
    {
      if i < |ring| - 1 {
        assert Slot(front', |ring|, n, i) == Slot(front, |ring|, n, i + 1) != front;
        assert entries[Slot(front, |ring|, n, i + 1)] == Entry(Base(last, |ring|, i + 1), ring[i + 1]);
      }
    }
  }

  // ---- Enqueue -----------------------------------------------------------

  predicate IsEmpty(flags: set<int>) {
    forall k :: 0 <= k < BLOCK_SIZE ==> k in flags
  }

  // The block ahead is empty and is used again.
  function Reused<T>(s: State<T>, block: Block): State<T>
    requires s.front < |s.entries|
  {
    WithEntry(s.(tailBlock := Some(block), dequeued := s.dequeued[block := {}]), block)
  }

  // A block without flags is ready to take the elements from the tail on.
  lemma FreshBlock<T>(head: nat, tail: nat, contents: seq<T>, cells: seq<T>)
    requires head <= tail && |contents| == tail - head && |cells| == BLOCK_SIZE
    ensures FlagsOk({}, tail, head) && CellsOk(cells, tail, head, tail, contents)
  {
  }

  lemma ReusedOk<T>(s: State<T>, ring: seq<Block>, last: int, contents: seq<T>)
    requires Ok(s, ring, last, contents) && s.used > 0 && s.tail == last + BLOCK_SIZE
    requires ring[0] in s.dequeued && IsEmpty(s.dequeued[ring[0]])
    ensures Ok(Reused(s, ring[0]), ring[1..] + [ring[0]], last + BLOCK_SIZE, contents)
  {
    hide BlocksOk, Window, Linked, Distinct, BlockOk, FlagsOk, CellsOk, IsEmpty;
    WindowSize(s.entries, s.front, ring, last);
    RingTurns(s.next, ring);
    WindowTurns(s.entries, s.front, ring, last);
    ReusedBlocks(s.cells, s.dequeued, ring, last, s.head, s.tail, contents);
  }

  lemma ReusedBlocks<T>(cells: map<Block, seq<T>>, dequeued: map<Block, set<int>>, ring: seq<Block>, last: int,
      head: nat, tail: nat, contents: seq<T>)
    requires BlocksOk(cells, dequeued, ring, last, head, tail, contents) && Distinct(ring) && |ring| > 0
    requires tail == last + BLOCK_SIZE && head <= tail && |contents| == tail - head
    requires ring[0] in dequeued && IsEmpty(dequeued[ring[0]])
    ensures Base(last, |ring|, 0) + BLOCK_SIZE <= head
    ensures BlocksOk(cells, dequeued[ring[0] := {}], ring[1..] + [ring[0]], last + BLOCK_SIZE, head, tail, contents)
  {
    hide Distinct, FlagsOk, CellsOk;
    var ring', last' := ring[1..] + [ring[0]], last + BLOCK_SIZE;
    assert BlockOk(cells, dequeued, ring[0], Base(last, |ring|, 0), head, tail, contents);
    BlockFacts(cells, dequeued, ring[0], Base(last, |ring|, 0), head, tail, contents);
    assert 31 in dequeued[ring[0]];
    FreshBlock(head, tail, contents, cells[ring[0]]);
    forall i | 0 <= i < |ring'|
      ensures BlockOk(cells, dequeued[ring[0] := {}], ring'[i], Base(last', |ring'|, i), head, tail, contents)
    {
      if i < |ring| - 1 {
        assert BlockOk(cells, dequeued, ring[i + 1], Base(last, |ring|, i + 1), head, tail, contents);
        RingPlaces(ring, last, 0, i + 1);
      }
    }
  }

  lemma RingTurns(next: map<Block, Block>, ring: seq<Block>)
    requires |ring| > 0 && Distinct(ring) && Linked(next, ring)
    ensures Distinct(ring[1..] + [ring[0]]) && Linked(next, ring[1..] + [ring[0]])
  {
    var ring' := ring[1..] + [ring[0]];
    forall i | 0 <= i < |ring'|
      ensures ring'[i] in next && next[ring'[i]] == Follower(ring', i)
    {
      var j := if i == |ring| - 1 then 0 else i + 1;
      assert next[ring[j]] == Follower(ring, j) == Follower(ring', i);
    }
  }

  // A new block is linked in after the tail block.
  function WithBlock<T>(s: State<T>, spare: Block, blank: seq<T>): State<T>
    requires s.tailBlock.Some? ==> s.tailBlock.value in s.next
  {
    var next := if s.tailBlock.None? then s.next[spare := spare]
                else s.next[spare := s.next[s.tailBlock.value]][s.tailBlock.value := spare];
    s.(tailBlock := Some(spare), next := next, cells := s.cells[spare := blank],
       dequeued := s.dequeued[spare := {}], used := s.used + 1)
  }

  function Extended<T>(s: State<T>, spare: Block, blank: seq<T>): State<T>
    requires s.front < |s.entries| && (s.tailBlock.Some? ==> s.tailBlock.value in s.next)
  {
    WithEntry(WithBlock(s, spare, blank), spare)
  }

  lemma RingExtends(next: map<Block, Block>, next': map<Block, Block>, ring: seq<Block>, spare: Block)
    requires Distinct(ring) && Linked(next, ring) && spare !in ring
    requires if ring == [] then next' == next[spare := spare]
             else next' == next[spare := ring[0]][ring[|ring| - 1] := spare]
    ensures Distinct(ring + [spare]) && Linked(next', ring + [spare])
  {
  }

  lemma ExtendedOk<T>(s: State<T>, ring: seq<Block>, last: int, contents: seq<T>, spare: Block, blank: seq<T>)
    requires Ok(s, ring, last, contents) && s.tail == last + BLOCK_SIZE && s.used < |s.entries|
    requires spare !in ring && |blank| == BLOCK_SIZE
    ensures (s.tailBlock.Some? ==> s.tailBlock.value in s.next)
    ensures Ok(Extended(s, spare, blank), ring + [spare], last + BLOCK_SIZE, contents)
  {
    hide BlocksOk, Window, Distinct, BlockOk, Linked;
    WindowSize(s.entries, s.front, ring, last);
    if s.used > 0 { LastLinked(s.next, ring); }
    var s' := Extended(s, spare, blank);
    RingExtends(s.next, s'.next, ring, spare);
    WindowGrows(s.entries, s.front, ring, last, spare);
    ExtendedBlocks(s.cells, s.dequeued, ring, last, s.head, s.tail, contents, spare, blank);
  }

  lemma LastLinked(next: map<Block, Block>, ring: seq<Block>)
    requires Linked(next, ring) && |ring| > 0
    ensures ring[|ring| - 1] in next && next[ring[|ring| - 1]] == ring[0]
  {
    assert next[ring[|ring| - 1]] == Follower(ring, |ring| - 1);
  }

  lemma ExtendedBlocks<T>(cells: map<Block, seq<T>>, dequeued: map<Block, set<int>>, ring: seq<Block>, last: int,
      head: nat, tail: nat, contents: seq<T>, spare: Block, blank: seq<T>)
    requires BlocksOk(cells, dequeued, ring, last, head, tail, contents) && spare !in ring && |blank| == BLOCK_SIZE
    requires tail == last + BLOCK_SIZE && head <= tail && |contents| == tail - head
    ensures BlocksOk(cells[spare := blank], dequeued[spare := {}], ring + [spare], last + BLOCK_SIZE, head, tail,
      contents)
  {
    hide FlagsOk, CellsOk;
    var ring', last' := ring + [spare], last + BLOCK_SIZE;
    FreshBlock(head, tail, contents, blank);
    forall i | 0 <= i < |ring'|
      ensures BlockOk(cells[spare := blank], dequeued[spare := {}], ring'[i], Base(last', |ring'|, i), head, tail,
        contents)
    {
      if i < |ring| {
        assert BlockOk(cells, dequeued, ring[i], Base(last, |ring|, i), head, tail, contents);
      }
    }
  }

  // The element is put into the tail block.
  function Stored<T>(s: State<T>, block: Block, x: T): State<T>
    requires block in s.cells && |s.cells[block]| == BLOCK_SIZE
  {
    s.(cells := s.cells[block := s.cells[block][s.tail % BLOCK_SIZE := x]], tail := s.tail + 1)
  }

  lemma StoredOk<T>(s: State<T>, ring: seq<Block>, last: int, contents: seq<T>, x: T)
    requires Ok(s, ring, last, contents) && s.used > 0 && s.tail < last + BLOCK_SIZE
    ensures ring[s.used - 1] in s.cells && |s.cells[ring[s.used - 1]]| == BLOCK_SIZE
    ensures Ok(Stored(s, ring[s.used - 1], x), ring, last, contents + [x])
  {
    hide BlocksOk, Window, Distinct, BlockOk, Linked;
    StoredBlocks(s.cells, s.dequeued, ring, last, s.head, s.tail, contents, x);
  }

  lemma StoredBlocks<T>(cells: map<Block, seq<T>>, dequeued: map<Block, set<int>>, ring: seq<Block>, last: int,
      head: nat, tail: nat, contents: seq<T>, x: T)
    requires BlocksOk(cells, dequeued, ring, last, head, tail, contents) && Distinct(ring) && |ring| > 0
    requires last % BLOCK_SIZE == 0 && last <= tail < last + BLOCK_SIZE
    ensures var b := ring[|ring| - 1];
      && b in cells && |cells[b]| == BLOCK_SIZE
      && BlocksOk(cells[b := cells[b][tail % BLOCK_SIZE := x]], dequeued, ring, last, head, tail + 1, contents + [x])
  {
    hide Distinct, BlockOk;
    var q, slot := |ring| - 1, tail % BLOCK_SIZE;
    var b := ring[q];
    assert last + slot == tail;
    assert BlockOk(cells, dequeued, b, Base(last, |ring|, q), head, tail, contents);
    BlockFacts(cells, dequeued, b, last, head, tail, contents);
    forall i | 0 <= i < |ring|
      ensures BlockOk(cells[b := cells[b][slot := x]], dequeued, ring[i], Base(last, |ring|, i), head, tail + 1,
        contents + [x])
    {
      RingPlaces(ring, last, i, q);
      BlockAfterEnqueue(cells, dequeued, ring[i], Base(last, |ring|, i), head, tail, contents, b, slot, x);
    }
  }

  // ---- The producer ------------------------------------------------------

  // A size limit leaves no room for another block, or the tail would get half
  // the range of 64-bit indices ahead of the head.
  predicate Refused(limit: Option<nat>, head: nat, tail: nat) {
    || !DequeueProtocol.CircularLess(DequeueProtocol.Wrap(head), DequeueProtocol.Wrap(tail + BLOCK_SIZE))
    || (limit.Some? && (limit.value == 0 || limit.value - BLOCK_SIZE < tail - head))
  }

  // The block ahead can be used again.
  predicate Reusable<T>(s: State<T>) {
    && s.tailBlock.Some? && s.tailBlock.value in s.next && s.next[s.tailBlock.value] in s.dequeued
    && IsEmpty(s.dequeued[s.next[s.tailBlock.value]])
  }

  // An element needs a new block and cannot have one.
  predicate Full<T>(s: State<T>, limit: Option<nat>) {
    s.tail % BLOCK_SIZE == 0 && !Reusable(s) && Refused(limit, s.head, s.tail)
  }

  // The blocks of the ring fit the limit, which is a multiple of the block size.
  predicate Fits(used: nat, limit: Option<nat>) {
    limit.Some? ==> limit.value % BLOCK_SIZE == 0 && used * BLOCK_SIZE <= limit.value
  }

  // If the block ahead is not empty, the ring is filled from the first block on.
  lemma RoomForBlock<T>(s: State<T>, ring: seq<Block>, last: int, contents: seq<T>, limit: Option<nat>)
    requires Ok(s, ring, last, contents) && s.tail == last + BLOCK_SIZE && Fits(s.used, limit)
    requires !Reusable(s) && !Refused(limit, s.head, s.tail)
    ensures Fits(s.used + 1, limit)
  {
    hide IndexOk, BlocksOk, Distinct, Linked;
    if s.used > 0 {
      TailLinked(s, ring, last);
      FirstBlock(s, ring, last, contents);
    }
  }

  // The entries in use, from the oldest on. A full table starts where it ends.
  method CopyEntries(entries: seq<Entry>, front: nat, used: nat) returns (copy: seq<Entry>)
    requires IsPow2(|entries|) && used <= |entries| && front < |entries|
    ensures |copy| == used && copy == Unrolled(entries, front, used)
  {
    hide IsPow2, And;
    copy := [];
    var size := |entries|;
    if used != 0 {
      MaskIsAnd(front - used, size);
      var i := And(front - used, size - 1);
      copy := copy + [entries[i]];
      MaskIsAnd(i + 1, size);
      i := And(i + 1, size - 1);
      while i != front
        invariant 0 < |copy| <= used && copy == Unrolled(entries, front, used)[..|copy|]
        invariant i == if |copy| == used then front else Slot(front, used, size, |copy|)
        decreases used - |copy|
      {
        copy := copy + [entries[i]];
        MaskIsAnd(i + 1, size);
        i := And(i + 1, size - 1);
      }
    }
  }

  class Producer<T> {
    const limit: Option<nat>   // MAX_SUBQUEUE_SIZE, if there is one
    var tail: nat
    var head: nat
    var tailBlock: Option<Block>
    var next: map<Block, Block>
    var cells: map<Block, seq<T>>
    var dequeued: map<Block, set<int>>
    var entries: seq<Entry>
    var exposed: int
    var front: nat
    var used: nat

    ghost var ring: seq<Block>
    ghost var last: int
    // What is in the queue, in the order it was put there.
    ghost var contents: seq<T>

    ghost function Value(): State<T>
      reads this
    {
      State(tail, head, tailBlock, next, cells, dequeued, entries, exposed, front, used)
    }

    ghost predicate Valid()
      reads this
    {
      Ok(Value(), ring, last, contents) && (used > 0 ==> last < tail) && Fits(used, limit)
    }

    // The index starts at half its initial size and is doubled at once.
    constructor (limit: Option<nat>)
      requires limit.Some? ==> limit.value % BLOCK_SIZE == 0
      ensures Valid() && contents == [] && this.limit == limit && |entries| == INITIAL_INDEX_SIZE
    {
      this.limit := limit;
      tail, head, tailBlock := 0, 0, None;
      next, cells, dequeued := map[], map[], map[];
      entries := seq(INITIAL_INDEX_SIZE / 2, _ => Entry(0, 0));
      exposed, front, used := -1, 0, 0;
      ring, last, contents := [], -32, [];
      new;
      assert Pow2(4) == INITIAL_INDEX_SIZE / 2;
      NewBlockIndex();
    }

    // First in, first out: the lookup finds the block of the first element,
    // whatever blocks were reused and however often the index grew.
    method Dequeue() returns (r: Option<T>)
      requires Valid()
      modifies this`head, this`dequeued, this`contents
      ensures Valid()
      ensures if old(contents) == [] then r == None && contents == []
              else r == Some(old(contents)[0]) && contents == old(contents)[1..]
    {
      hide Find, AfterDequeue, Ok, And, IsPow2, Mask;
      OkFacts(Value(), ring, last, contents);
      if head >= tail {
        return None;
      }
      ghost var s := Value();
      FindsTheBlock(s, ring, last, contents, head);
      FindUnfolds(s, head);
      var headBase := entries[exposed].base;
      var blockBase := head - head % BLOCK_SIZE;
      var offset := (blockBase - headBase) / BLOCK_SIZE;
      WindowSize(entries, front, ring, last);
      MaskRange(exposed + offset, |entries|);
      MaskIsAnd(exposed + offset, |entries|);
      var block := entries[And(exposed + offset, |entries| - 1)].block;
      DequeueOk(s, ring, last, contents, block);
      AfterDequeueUnfolds(s, block);
      var slot := head % BLOCK_SIZE;
      r := Some(cells[block][slot]);
      dequeued := dequeued[block := dequeued[block] + {slot}];
      head := head + 1;
      contents := contents[1..];
    }

    // Doubles the index, copying the entries in use from the oldest on.
    method NewBlockIndex()
      requires Ok(Value(), ring, last, contents)
      modifies this`entries, this`exposed, this`front
      ensures Ok(Value(), ring, last, contents) && used < |entries|
      ensures |entries| == 2 * |old(entries)|
    {
      hide Ok, IsPow2, Unrolled;
      ghost var s := Value();
      OkFacts(s, ring, last, contents);
      WindowSize(entries, front, ring, last);
      DoubledOk(s, ring, last, contents);
      var copy := CopyEntries(entries, front, used);
      exposed := used - 1;
      front := |copy|;
      entries := copy + seq(2 * |entries| - |copy|, _ => Entry(0, 0));
      assert entries == Doubled(s).entries;
      assert Value() == Doubled(s);
    }

    // The entry of the block being started.
    method WriteEntry(block: Block)
      requires front < |entries| && IsPow2(|entries|)
      modifies this`entries, this`exposed, this`front
      ensures Value() == WithEntry(old(Value()), block)
    {
      hide IsPow2, And;
      MaskIsAnd(front + 1, |entries|);
      entries := entries[front := Entry(tail, block)];
      exposed := front;
      front := And(front + 1, |entries| - 1);
    }

    method ReuseBlock()
      requires Valid() && tail == last + BLOCK_SIZE && used > 0 && ring[0] in dequeued && IsEmpty(dequeued[ring[0]])
      modifies this`tailBlock, this`dequeued, this`entries, this`exposed, this`front, this`ring, this`last
      ensures Ok(Value(), ring, last, contents) && last == tail
    {
      hide Window, BlocksOk, Distinct, Linked, IsEmpty, RingOk;
      WindowSize(entries, front, ring, last);
      RingLength(Value(), ring, last);
      ghost var s := Value();
      ReusedOk(s, ring, last, contents);
      TailLinked(s, ring, last);
      var block := next[tailBlock.value];
      tailBlock := Some(block);
      dequeued := dequeued[block := {}];
      WriteEntry(block);
      assert Value() == Reused(s, block);
      ring := ring[1..] + [ring[0]];
      last := last + BLOCK_SIZE;
    }

    method LinkBlock(spare: Block, blank: seq<T>)
      requires tailBlock.Some? ==> tailBlock.value in next
      modifies this`tailBlock, this`next, this`cells, this`dequeued, this`used
      ensures Value() == WithBlock(old(Value()), spare, blank)
    {
      dequeued := dequeued[spare := {}];
      if tailBlock.None? {
        next := next[spare := spare];
      } else {
        next := next[spare := next[tailBlock.value]][tailBlock.value := spare];
      }
      tailBlock, cells, used := Some(spare), cells[spare := blank], used + 1;
    }

    method AddBlock(spare: Block, blank: seq<T>)
      requires Valid() && tail == last + BLOCK_SIZE && spare !in ring && |blank| == BLOCK_SIZE && used < |entries|
      modifies this`tailBlock, this`next, this`cells, this`dequeued, this`entries, this`exposed, this`front, this`used,
               this`ring, this`last
      ensures Ok(Value(), ring, last, contents) && used == old(used) + 1 && last == tail
    {
      hide Ok, WithBlock, WithEntry;
      OkFacts(Value(), ring, last, contents);
      WindowSize(entries, front, ring, last);
      ghost var s := Value();
      ExtendedOk(s, ring, last, contents, spare, blank);
      BlockFrame(s, spare, blank);
      LinkBlock(spare, blank);
      WriteEntry(spare);
      ring := ring + [spare];
      last := last + BLOCK_SIZE;
    }

    // Starts a new block: the one ahead if it is empty, else a spare one unless
    // that is refused.
    method OpenBlock(spare: Block, blank: seq<T>) returns (done: bool)
      requires Valid() && tail == last + BLOCK_SIZE && spare !in ring && |blank| == BLOCK_SIZE
      modifies this`tailBlock, this`next, this`cells, this`dequeued, this`entries, this`exposed, this`front, this`used,
               this`ring, this`last
      ensures done == (Reusable(old(Value())) || !Refused(limit, head, tail))
      ensures done ==> Ok(Value(), ring, last, contents) && used > 0 && last == tail && Fits(used, limit)
      ensures !done ==> Value() == old(Value()) && ring == old(ring) && last == old(last)
    {
      hide Window, BlocksOk, Distinct, Linked, IsEmpty, Refused, Fits;
      WindowSize(entries, front, ring, last);
      if used > 0 { TailLinked(Value(), ring, last); FirstBlock(Value(), ring, last, contents); }
      if tailBlock.Some? && IsEmpty(dequeued[next[tailBlock.value]]) {
        ReuseBlock();
        return true;
      }
      if Refused(limit, head, tail) {
        return false;
      }
      RoomForBlock(Value(), ring, last, contents, limit);
      if used == |entries| {
        NewBlockIndex();
      }
      AddBlock(spare, blank);
      return true;
    }

    // Constructs the element in its slot and moves the tail past it.
    method Store(x: T)
      requires Ok(Value(), ring, last, contents) && used > 0 && tail < last + BLOCK_SIZE
      modifies this`cells, this`tail, this`contents
      ensures Ok(Value(), ring, last, contents) && last < tail && contents == old(contents) + [x]
    {
      hide IndexOk, BlocksOk, Distinct, Linked;
      StoredOk(Value(), ring, last, contents, x);
      var block := tailBlock.value;
      cells := cells[block := cells[block][tail % BLOCK_SIZE := x]];
      tail := tail + 1;
      contents := contents + [x];
    }

    // Appends the element, or refuses it and changes nothing; the queue never
    // holds more than the limit.
    method Enqueue(x: T, spare: Block, blank: seq<T>) returns (done: bool)
      requires Valid() && spare !in ring && |blank| == BLOCK_SIZE
      modifies this
      ensures Valid() && done == !Full(old(Value()), limit)
      ensures done ==> contents == old(contents) + [x]
      ensures !done ==> Value() == old(Value()) && contents == old(contents)
      ensures limit.Some? ==> |contents| <= limit.value
    {
      hide Ok, Refused, Reusable, Fits;
      SizeBound(Value(), ring, last, contents, limit);
      if tail % BLOCK_SIZE == 0 {
        done := OpenBlock(spare, blank);
        if !done {
          return;
        }
      }
      Store(x);
      SizeBound(Value(), ring, last, contents, limit);
      return true;
    }
  }

  // All elements lie in the blocks of the ring.
  lemma SizeBound<T>(s: State<T>, ring: seq<Block>, last: int, contents: seq<T>, limit: Option<nat>)
    requires Ok(s, ring, last, contents) && Fits(s.used, limit)
    ensures limit.Some? ==> |contents| <= limit.value
    ensures last <= s.tail <= last + BLOCK_SIZE && last % BLOCK_SIZE == 0
      && (s.used == 0 ==> s.tail == last + BLOCK_SIZE)
  {
    hide IndexOk, BlocksOk, Distinct, Linked;
  }

  lemma MaskRange(x: int, n: nat)
    requires 0 <= Mask(x, n) < n
    ensures 0 <= x + n < 3 * n
  {
  }

  lemma BlockFrame<T>(s: State<T>, spare: Block, blank: seq<T>)
    requires s.tailBlock.Some? ==> s.tailBlock.value in s.next
    ensures var r := WithBlock(s, spare, blank); r.used == s.used + 1 && r.front == s.front && r.entries == s.entries
  {
  }

  lemma OkFacts<T>(s: State<T>, ring: seq<Block>, last: int, contents: seq<T>)
    requires Ok(s, ring, last, contents)
    ensures Window(s.entries, s.front, ring, last) && |ring| == s.used
    ensures s.head <= s.tail && |contents| == s.tail - s.head
  {
  }

  lemma RingLength<T>(s: State<T>, ring: seq<Block>, last: int)
    requires RingOk(s, ring, last)
    ensures |ring| == s.used
  {
  }

  lemma TailLinked<T>(s: State<T>, ring: seq<Block>, last: int)
    requires RingOk(s, ring, last) && s.used > 0
    ensures |ring| == s.used && s.tailBlock.Some? && s.tailBlock.value in s.next && s.next[s.tailBlock.value] == ring[0]
  {
    LastLinked(s.next, ring);
  }

  lemma FirstBlock<T>(s: State<T>, ring: seq<Block>, last: int, contents: seq<T>)
    requires Ok(s, ring, last, contents) && s.used > 0
    ensures ring[0] in s.dequeued
    ensures IsEmpty(s.dequeued[ring[0]]) <==> Base(last, s.used, 0) + BLOCK_SIZE <= s.head
  {
    assert BlockOk(s.cells, s.dequeued, ring[0], Base(last, |ring|, 0), s.head, s.tail, contents);
    BlockFacts(s.cells, s.dequeued, ring[0], Base(last, |ring|, 0), s.head, s.tail, contents);
    if IsEmpty(s.dequeued[ring[0]]) { assert 31 in s.dequeued[ring[0]]; }
  }

  lemma FindUnfolds<T>(s: State<T>, index: int)
    requires Find(s, index).Some?
    ensures 0 <= s.exposed < |s.entries|
    ensures var slot := Mask(s.exposed + (index - index % BLOCK_SIZE - s.entries[s.exposed].base) / BLOCK_SIZE,
      |s.entries|);
      0 <= slot < |s.entries| && Find(s, index) == Some(s.entries[slot].block)
  {
  }

  lemma AfterDequeueUnfolds<T>(s: State<T>, block: Block)
    requires block in s.dequeued
    ensures AfterDequeue(s, block) ==
      s.(head := s.head + 1, dequeued := s.dequeued[block := s.dequeued[block] + {s.head % BLOCK_SIZE}])
  {
  }

  // ---- When an element is refused ----------------------------------------

  lemma AheadIsEmpty<T>(s: State<T>, ring: seq<Block>, last: int, contents: seq<T>)
    requires Ok(s, ring, last, contents) && s.used > 0
    ensures Reusable(s) <==> Base(last, s.used, 0) + BLOCK_SIZE <= s.head
  {
    hide IndexOk, Distinct;
    var b := ring[0];
    assert s.next[ring[s.used - 1]] == Follower(ring, s.used - 1) == b;
    assert BlockOk(s.cells, s.dequeued, b, Base(last, |ring|, 0), s.head, s.tail, contents);
    FlagsTell(s.dequeued[b], Base(last, s.used, 0), s.head);
  }

  lemma FlagsTell(flags: set<int>, base: int, head: nat)
    requires FlagsOk(flags, base, head)
    ensures IsEmpty(flags) <==> base + BLOCK_SIZE <= head
  {
    if IsEmpty(flags) { assert BLOCK_SIZE - 1 in flags; }
  }

  lemma RefusedExact(limit: Option<nat>, head: nat, tail: nat)
    requires head <= tail && tail - head + BLOCK_SIZE < DequeueProtocol.HALF
    ensures Refused(limit, head, tail) <==> limit.Some? && tail - head + BLOCK_SIZE > limit.value
  {
    DequeueProtocol.CircularLessExact(head, tail + BLOCK_SIZE);
  }

  // An element is refused if and only if the last block is full, every block of
  // the ring still holds elements, and another block's worth of elements would
  // be more than the limit. So without a limit nothing is refused, and with one
  // nothing while a block's worth is left.
  lemma FullExact<T>(s: State<T>, ring: seq<Block>, last: int, contents: seq<T>, limit: Option<nat>)
    requires Ok(s, ring, last, contents) && (s.used > 0 ==> last < s.tail)
    requires |contents| + BLOCK_SIZE < DequeueProtocol.HALF
    ensures Full(s, limit) <==>
      && s.tail % BLOCK_SIZE == 0 && (s.used > 0 ==> |contents| > (s.used - 1) * BLOCK_SIZE)
      && limit.Some? && |contents| + BLOCK_SIZE > limit.value
  {
    RefusedExact(limit, s.head, s.tail);
    if s.used > 0 { AheadIsEmpty(s, ring, last, contents); }
    hide Refused, IndexOk, BlocksOk, Linked, Distinct, IsEmpty;
  }
}
