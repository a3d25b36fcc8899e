/**
 * The reference-counted, compare-and-swap free list of the concurrent queue.
 *
 * Every atomic access of `add`, `try_get` and `add_knowing_refcount_is_zero`
 * is one step. A run interleaves the steps of any number of threads in any
 * order, and threads act on values they read long ago.
 */
module FreeList {

  type Block = nat
  type Thread = nat

  datatype Link = Null | At(block: Block)

  // Reference words are 32 bits wide: the top bit is a flag, the rest a count.
  const FLAG: nat := 0x8000_0000
  const WORD: nat := 0x1_0000_0000

  function FetchAdd(word: nat, amount: int): nat {
    (word + amount) % WORD
  }

  function Count(word: nat): nat {
    word % FLAG
  }

  // Where `add_knowing_refcount_is_zero` returns to.
  datatype Resume = ToCaller | ToGet(head: Link)

  // The next atomic access of try_get once the block's count has been raised:
  // read its next link, swing the head to that link, hand the block out (the
  // swing worked), or lower the count again (it did not; link is the new head).
  datatype HoldAt = ReadNext | SwingHead | HandOut | DropRef

  // The next atomic access of add_knowing_refcount_is_zero: load the head,
  // store it as next, store the count, swap the head, set the flag again.
  datatype PushAt = LoadList | StoreNext | StoreRef | SwapHead | SetFlag

  // The next atomic access a thread performs, with the locals it depends on.
  datatype Pc =
    | Idle
    | LoadHead
    | ReadRefs(head: Block)
    | GrabRef(head: Block, seen: nat)
    | Hold(hold: HoldAt, block: Block, link: Link)
    | Push(push: PushAt, node: Block, want: Link, resume: Resume)

  datatype State = State(
    head: Link,
    refs: map<Block, nat>,
    next: map<Block, Link>,
    pc: map<Thread, Pc>,
    held: map<Thread, set<Block>>)  // the blocks each caller may use

  datatype Action =
    | Run(thread: Thread)                               // the thread's next access
    | CallGet(thread: Thread)
    | CallAdd(thread: Thread, block: Block)             // with the fetch_add of `add`
    | Give(thread: Thread, to: Thread, block: Block)    // callers pass a block on
    | Create(thread: Thread, block: Block)              // a block is allocated

  predicate Enabled(s: State, a: Action) {
    && a.thread in s.pc && a.thread in s.held
    && match a
       case Run(t) => s.pc[t] != Idle
       case CallGet(t) => s.pc[t] == Idle
       case CallAdd(t, b) => s.pc[t] == Idle && b in s.held[t] && b in s.refs
       case Give(t, u, b) => u != t && u in s.held && b in s.held[t]
       case Create(t, b) => b !in s.refs
  }

  function Loop(head: Link): Pc {
    if head.Null? then Idle else ReadRefs(head.block)
  }

  function Return(resume: Resume): Pc {
    match resume
    case ToCaller => Idle
    case ToGet(head) => Loop(head)
  }

  // What one access of a thread can see and change: the head, the block it
  // works on, and its own locals.
  datatype View = View(head: Link, ref: nat, next: Link, mine: bool, pc: Pc)

  function AccessHold(v: View, at: HoldAt, b: Block, link: Link): View {
    match at
    case ReadNext => v.(pc := Hold(SwingHead, b, v.next))
    case SwingHead =>
      if v.head == At(b) then v.(head := link, pc := Hold(HandOut, b, Null))
      else v.(pc := Hold(DropRef, b, v.head))
    case HandOut => v.(ref := FetchAdd(v.ref, -2), mine := true, pc := Idle)
    case DropRef =>
      var p := if v.ref == FLAG + 1 then Push(LoadList, b, Null, ToGet(link)) else Loop(link);
      v.(ref := FetchAdd(v.ref, -1), pc := p)
  }

  function AccessPush(v: View, at: PushAt, b: Block, want: Link, r: Resume): View {
    match at
    case LoadList => v.(pc := Push(StoreNext, b, v.head, r))
    case StoreNext => v.(next := want, pc := Push(StoreRef, b, want, r))
    case StoreRef => v.(ref := 1, pc := Push(SwapHead, b, want, r))
    case SwapHead =>
      if v.head == want then v.(head := At(b), pc := Return(r))
      else v.(pc := Push(SetFlag, b, v.head, r))
    case SetFlag =>
      var p := if v.ref == 1 then Push(StoreNext, b, want, r) else Return(r);
      v.(ref := FetchAdd(v.ref, FLAG - 1), pc := p)
  }

  function Access(v: View): View {
    match v.pc
    case Idle => v
    case LoadHead => v.(pc := Loop(v.head))
    case ReadRefs(b) => v.(pc := if Count(v.ref) == 0 then LoadHead else GrabRef(b, v.ref))
    case GrabRef(b, seen) =>
      if v.ref == seen then v.(ref := FetchAdd(seen, 1), pc := Hold(ReadNext, b, Null))
      else v.(pc := LoadHead)
    case Hold(at, b, link) => AccessHold(v, at, b, link)
    case Push(at, b, want, r) => AccessPush(v, at, b, want, r)
  }

  // The fetch_add at the start of `add`.
  function AccessAdd(v: View, b: Block): View {
    v.(ref := FetchAdd(v.ref, FLAG), mine := false,
       pc := if v.ref == 0 then Push(LoadList, b, Null, ToCaller) else Idle)
  }

  function Target(p: Pc): Link {
    match p
    case Idle => Null
    case LoadHead => Null
    case ReadRefs(b) => At(b)
    case GrabRef(b, _) => At(b)
    case Hold(_, b, _) => At(b)
    case Push(_, b, _, _) => At(b)
  }

  // Every block a thread dereferences is one that exists.
  predicate Sane(s: State, p: Pc) {
    match p
    case Idle => true
    case LoadHead => true
    case ReadRefs(b) => b in s.refs
    case GrabRef(b, _) => b in s.refs
    case Hold(_, b, n) => b in s.refs && SaneLink(s, n)
    case Push(_, b, n, r) => b in s.refs && SaneLink(s, n) && SaneResume(s, r)
  }

  predicate SaneLink(s: State, n: Link) {
    n.At? ==> n.block in s.refs
  }

  predicate SaneResume(s: State, r: Resume) {
    r.ToGet? ==> SaneLink(s, r.head)
  }

  predicate Wf(s: State) {
    && s.refs.Keys == s.next.Keys
    && s.pc.Keys == s.held.Keys
    && forall t :: t in s.pc ==> Sane(s, s.pc[t])
  }

  function ViewOf(s: State, t: Thread, b: Block): View
    requires t in s.pc && t in s.held && b in s.refs && b in s.next
  {
    View(s.head, s.refs[b], s.next[b], b in s.held[t], s.pc[t])
  }

  function Write(s: State, t: Thread, b: Block, v: View): State
    requires t in s.held
  {
    State(v.head, s.refs[b := v.ref], s.next[b := v.next], s.pc[t := v.pc],
          s.held[t := if v.mine then s.held[t] + {b} else s.held[t] - {b}])
  }

  function Goto(s: State, t: Thread, p: Pc): State {
    s.(pc := s.pc[t := p])
  }

  function Step(s: State, a: Action): State
    requires Wf(s) && Enabled(s, a)
  {
    match a
    case Run(t) =>
      (match Target(s.pc[t])
       case Null => Goto(s, t, Loop(s.head))
       case At(b) => Write(s, t, b, Access(ViewOf(s, t, b))))
    case CallGet(t) => Goto(s, t, LoadHead)
    case CallAdd(t, b) => Write(s, t, b, AccessAdd(ViewOf(s, t, b), b))
    case Give(t, u, b) =>
      s.(held := s.held[t := s.held[t] - {b}][u := s.held[u] + {b}])
    case Create(t, b) =>
      s.(refs := s.refs[b := 0], next := s.next[b := Null], held := s.held[t := s.held[t] + {b}])
  }

  // ---- The invariant -----------------------------------------------------

  datatype Status =
    | OnList
    | Owned(thread: Thread)
    | Taken(thread: Thread)     // off the list, not yet returned to its caller
    | Waiting               // flagged; the last holder will push it
    | Pushed(thread: Thread)    // being pushed

  // The thread has raised the block's count and not yet lowered it.
  predicate Holds(p: Pc, b: Block) {
    p.Hold? && p.block == b
  }

  predicate Pushes(p: Pc, b: Block) {
    p.Push? && p.node == b
  }

  // Before the provisional reference is stored, nobody can hold the block.
  predicate Early(p: Pc) {
    p.Push? && (p.push.LoadList? || p.push.StoreNext? || p.push.StoreRef?)
  }

  function HolderSet(pc: map<Thread, Pc>, b: Block): set<Thread> {
    set t | t in pc && Holds(pc[t], b)
  }

  function Holders(pc: map<Thread, Pc>, b: Block): nat {
    |HolderSet(pc, b)|
  }

  predicate Chain(head: Link, next: map<Block, Link>, list: seq<Block>)
    decreases |list|
  {
    if list == [] then head == Null
    else head == At(list[0]) && list[0] in next && list[0] !in list[1..]
         && Chain(next[list[0]], next, list[1..])
  }

  // A block's reference word, from its status and its number of holders.
  predicate RefOk(x: Status, ref: nat, holders: nat, early: bool) {
    match x
    case OnList => ref == 1 + holders
    case Owned(_) => ref == holders
    case Taken(_) => ref == 1 + holders
    case Waiting => holders > 0 && ref == FLAG + holders
    case Pushed(_) => if early then holders == 0 && ref == FLAG else ref == 1 + holders
  }

  // What thread t knows of the block it works on.
  predicate KnowsOk(p: Pc, x: Status, next: Link, t: Thread) {
    match p
    case Hold(at, b, n) =>
      (at == HandOut ==> x == Taken(t)) && (at == SwingHead ==> next == n)
    case Push(at, b, h, _) =>
      x == Pushed(t) && (at == StoreRef || at == SwapHead ==> next == h)
    case GrabRef(_, seen) => Count(seen) > 0
    case _ => true
  }

  // The thread a status names really is in that position.
  ghost predicate OwnerOk(s: State, x: Status, b: Block) {
    match x
    case Owned(t) => t in s.held && b in s.held[t]
    case Taken(t) => t in s.pc && s.pc[t] == Hold(HandOut, b, Null)
    case Pushed(t) => t in s.pc && Pushes(s.pc[t], b)
    case _ => true
  }

  predicate EarlyOf(s: State, x: Status) {
    x.Pushed? && x.thread in s.pc && Early(s.pc[x.thread])
  }

  ghost predicate BlockOk(s: State, list: seq<Block>, st: map<Block, Status>, b: Block)
    requires b in st && b in s.refs
  {
    && RefOk(st[b], s.refs[b], Holders(s.pc, b), EarlyOf(s, st[b]))
    && OwnerOk(s, st[b], b)
    && (b in list <==> st[b] == OnList)
  }

  ghost predicate ThreadOk(s: State, st: map<Block, Status>, t: Thread)
    requires t in s.pc && t in s.held && st.Keys == s.next.Keys
  {
    && (forall b :: b in s.held[t] ==> b in st && st[b] == Owned(t))
    && match Target(s.pc[t])
       case Null => true
       case At(b) => b in st && KnowsOk(s.pc[t], st[b], s.next[b], t)
  }

  ghost predicate Safe(s: State, list: seq<Block>, st: map<Block, Status>) {
    && Wf(s) && st.Keys == s.refs.Keys && SaneLink(s, s.head)
    && (forall b :: b in s.next ==> SaneLink(s, s.next[b]))
    && (forall b :: b in s.refs ==> BlockOk(s, list, st, b))
    && (forall t :: t in s.pc ==> ThreadOk(s, st, t))
    && Chain(s.head, s.next, list)
    && (forall b :: b in list ==> b in s.refs)
    && |s.pc| <= FLAG - 2
  }

  ghost predicate Invariant(s: State) {
    exists list: seq<Block>, st: map<Block, Status> :: Safe(s, list, st)
  }

  // ---- Counting holders --------------------------------------------------

  function One(c: bool): nat {
    if c then 1 else 0
  }

  lemma HoldersMoved(pc: map<Thread, Pc>, t: Thread, p: Pc, b: Block)
    requires t in pc
    ensures Holders(pc[t := p], b) == Holders(pc, b) - One(Holds(pc[t], b)) + One(Holds(p, b))
  {
    var before, after := HolderSet(pc, b), HolderSet(pc[t := p], b);
    assert after - {t} == before - {t};
    WithAndWithout(before, t);
    WithAndWithout(after, t);
  }

  lemma WithAndWithout(a: set<Thread>, t: Thread)
    ensures |a| == |a - {t}| + One(t in a)
  {
    assert a == (a - {t}) + if t in a then {t} else {};
  }

  lemma HoldersBound(pc: map<Thread, Pc>, b: Block)
    ensures Holders(pc, b) <= |pc|
    ensures Holders(pc, b) == 0 <==> forall t :: t in pc ==> !Holds(pc[t], b)
  {
    Subset(HolderSet(pc, b), pc.Keys);
    if Holders(pc, b) == 0 {
      assert HolderSet(pc, b) == {};
      assert forall t :: t in pc && Holds(pc[t], b) ==> t in HolderSet(pc, b);
    }
  }

  lemma Subset(a: set<Thread>, b: set<Thread>)
    requires a <= b
    ensures |a| <= |b|
  {
    assert b == a + (b - a);
  }

  // ---- The chain ---------------------------------------------------------

  lemma {:induction false} ChainFrame(head: Link, next: map<Block, Link>, list: seq<Block>, b: Block, n: Link)
    requires Chain(head, next, list) && b !in list
    ensures Chain(head, next[b := n], list)
    decreases |list|
  {
    if list != [] { ChainFrame(next[list[0]], next, list[1..], b, n); }
  }

  // The list is what following the links from the head gives: it is unique.
  lemma {:induction false} ChainUnique(head: Link, next: map<Block, Link>, xs: seq<Block>, ys: seq<Block>)
    requires Chain(head, next, xs) && Chain(head, next, ys)
    ensures xs == ys
    decreases |xs|
  {
    if xs != [] && ys != [] { ChainUnique(next[xs[0]], next, xs[1..], ys[1..]); }
  }

  // ---- One access --------------------------------------------------------

  // The new status of the block after thread t's access.
  function AccessStatus(v: View, x: Status, t: Thread): Status {
    match v.pc
    case Hold(SwingHead, b, _) => if v.head == At(b) then Taken(t) else x
    case Hold(HandOut, _, _) => Owned(t)
    case Hold(DropRef, _, _) => if v.ref == FLAG + 1 then Pushed(t) else x
    case Push(SwapHead, _, h, _) => if v.head == h then OnList else x
    case Push(SetFlag, _, _, _) => if v.ref == 1 then x else Waiting
    case _ => x
  }

  predicate OwnerIsOnly(x: Status, t: Thread) {
    (x.Owned? || x.Taken? || x.Pushed?) ==> x.thread == t
  }

  // Thread t, looking at block b, sees only what the invariant allows.
  predicate ViewOk(v: View, x: Status, holders: nat, early: bool, t: Thread, b: Block) {
    && RefOk(x, v.ref, holders, if x == Pushed(t) then Early(v.pc) else early)
    && KnowsOk(v.pc, x, v.next, t)
    && (x == Owned(t) <==> v.mine)
    && (x == Taken(t) ==> v.pc == Hold(HandOut, b, Null))
    && (x == Pushed(t) ==> Pushes(v.pc, b))
    && (Holds(v.pc, b) ==> holders > 0)
  }

  // What one access may do to the list: leave it, pop b, or push b.
  predicate ListMoveOk(v: View, v': View, x: Status, x': Status, b: Block) {
    || (v'.head == v.head && (x == OnList <==> x' == OnList))
    || (v.head == At(b) && v'.head == v.next == v'.next && x == OnList && x' != OnList)
    || (v'.head == At(b) && v'.next == v.next == v.head && x != OnList && x' == OnList)
  }

  // A thread whose next access is elsewhere holds and pushes nothing.
  predicate Near(p: Pc, b: Block) {
    Target(p) == At(b) || p.Idle? || p.LoadHead? || p.ReadRefs?
  }

  predicate MoveOk(v: View, v': View, x: Status, x': Status, holders: nat, early: bool, t: Thread, b: Block) {
    && holders + One(Holds(v'.pc, b)) >= One(Holds(v.pc, b))
    && ViewOk(v', x', holders - One(Holds(v.pc, b)) + One(Holds(v'.pc, b)), early, t, b)
    && ListMoveOk(v, v', x, x', b)
    && Near(v'.pc, b)
    && (x' == x || (OwnerIsOnly(x, t) && OwnerIsOnly(x', t)))
    && (v'.next == v.next || (holders == 0 && x == Pushed(t)))
  }

  lemma AccessHoldOk(v: View, x: Status, holders: nat, early: bool, t: Thread, b: Block)
    requires ViewOk(v, x, holders, early, t, b) && holders <= FLAG - 2 && Holds(v.pc, b)
    requires v.head == At(b) ==> x == OnList
    ensures MoveOk(v, Access(v), x, AccessStatus(v, x, t), holders, early, t, b)
  {
  }

  lemma AccessPushOk(v: View, x: Status, holders: nat, early: bool, t: Thread, b: Block)
    requires ViewOk(v, x, holders, early, t, b) && holders <= FLAG - 2 && Pushes(v.pc, b)
    requires v.head == At(b) ==> x == OnList
    ensures MoveOk(v, Access(v), x, AccessStatus(v, x, t), holders, early, t, b)
  {
  }

  lemma AccessReadOk(v: View, x: Status, holders: nat, early: bool, t: Thread, b: Block)
    requires ViewOk(v, x, holders, early, t, b) && holders <= FLAG - 2 && (v.pc.ReadRefs? || v.pc.GrabRef?)
      && v.pc.head == b
    ensures MoveOk(v, Access(v), x, AccessStatus(v, x, t), holders, early, t, b)
  {
    hide AccessHold, AccessPush;
  }

  lemma AccessOk(v: View, x: Status, holders: nat, early: bool, t: Thread, b: Block)
    requires ViewOk(v, x, holders, early, t, b) && holders <= FLAG - 2 && Target(v.pc) == At(b)
    requires v.head == At(b) ==> x == OnList
    ensures MoveOk(v, Access(v), x, AccessStatus(v, x, t), holders, early, t, b)
  {
    hide MoveOk, ViewOk, Access, AccessStatus;
    match v.pc {
      case Hold(_, _, _) => AccessHoldOk(v, x, holders, early, t, b);
      case Push(_, _, _, _) => AccessPushOk(v, x, holders, early, t, b);
      case ReadRefs(_) => AccessReadOk(v, x, holders, early, t, b);
      case GrabRef(_, _) => AccessReadOk(v, x, holders, early, t, b);
    }
  }

  lemma AccessAddOk(v: View, x: Status, holders: nat, early: bool, t: Thread, b: Block)
    requires ViewOk(v, x, holders, early, t, b) && holders <= FLAG - 2 && v.mine && v.pc == Idle
    ensures MoveOk(v, AccessAdd(v, b), x, if v.ref == 0 then Pushed(t) else Waiting, holders, early, t, b)
  {
  }

  // ---- From one access to the whole state --------------------------------

  lemma SafeAt(s: State, list: seq<Block>, st: map<Block, Status>, t: Thread, b: Block)
    requires Safe(s, list, st) && t in s.pc && b in s.refs
    ensures s.refs.Keys == s.next.Keys == st.Keys && s.pc.Keys == s.held.Keys
    ensures BlockOk(s, list, st, b) && ThreadOk(s, st, t)
    ensures Chain(s.head, s.next, list) && Holders(s.pc, b) <= FLAG - 2
    ensures Holds(s.pc[t], b) ==> Holders(s.pc, b) > 0
  {
    HoldersBound(s.pc, b);
  }

  lemma SafeBlock(s: State, list: seq<Block>, st: map<Block, Status>, b: Block)
    requires Safe(s, list, st) && b in s.refs
    ensures b in st && BlockOk(s, list, st, b)
  {
  }

  lemma SafeThread(s: State, list: seq<Block>, st: map<Block, Status>, t: Thread)
    requires Safe(s, list, st) && t in s.pc
    ensures s.refs.Keys == s.next.Keys == st.Keys && s.pc.Keys == s.held.Keys
    ensures ThreadOk(s, st, t)
  {
  }

  lemma ChainHead(head: Link, next: map<Block, Link>, list: seq<Block>, b: Block)
    requires Chain(head, next, list) && head == At(b)
    ensures list != [] && list[0] == b && b in list && b !in list[1..] && b in next
    ensures Chain(next[b], next, list[1..])
  {
  }

  lemma KnowsAt(s: State, st: map<Block, Status>, t: Thread, b: Block)
    requires t in s.pc && t in s.held && st.Keys == s.next.Keys && ThreadOk(s, st, t) && Near(s.pc[t], b)
    requires b in st
    ensures KnowsOk(s.pc[t], st[b], s.next[b], t)
    ensures b in s.held[t] ==> st[b] == Owned(t)
  {
  }

  lemma SafeView(s: State, list: seq<Block>, st: map<Block, Status>, t: Thread, b: Block)
    requires Safe(s, list, st) && t in s.pc && b in s.refs && Near(s.pc[t], b)
    ensures s.refs.Keys == s.next.Keys == st.Keys && s.pc.Keys == s.held.Keys
    ensures ViewOk(ViewOf(s, t, b), st[b], Holders(s.pc, b), EarlyOf(s, st[b]), t, b)
    ensures Holders(s.pc, b) <= FLAG - 2
    ensures s.head == At(b) ==> st[b] == OnList
  {
    hide Safe, Wf, Chain, Holders, Holds, KnowsOk, ThreadOk, Near, Early, Pushes, RefOk;
    SafeAt(s, list, st, t, b);
    KnowsAt(s, st, t, b);
    if s.head == At(b) { ChainHead(s.head, s.next, list, b); }
  }

  // The thread t may move from v to v' at block b, in a safe state.
  ghost predicate Moves(s: State, list: seq<Block>, st: map<Block, Status>, t: Thread, b: Block, v: View, x: Status) {
    && Safe(s, list, st) && t in s.pc && t in s.held && b in s.refs && b in s.next && b in st
    && Near(s.pc[t], b)
    && MoveOk(ViewOf(s, t, b), v, st[b], x, Holders(s.pc, b), EarlyOf(s, st[b]), t, b)
  }

  lemma NearFacts(p: Pc, b: Block, c: Block)
    requires Near(p, b) && c != b
    ensures !Holds(p, c) && !Pushes(p, c)
  {
  }

  lemma WriteOther(s: State, list: seq<Block>, st: map<Block, Status>, t: Thread, b: Block, v: View, x: Status,
      list': seq<Block>, c: Block)
    requires Moves(s, list, st, t, b, v, x) && c in s.refs && c != b && c in st
    requires c in list' <==> c in list
    ensures BlockOk(Write(s, t, b, v), list', st[b := x], c)
  {
    hide Safe, Wf, Chain, Holders, Holds, Near, Pushes, RefOk, ViewOk, ThreadOk, ListMoveOk;
    SafeAt(s, list, st, t, c);
    HoldersMoved(s.pc, t, v.pc, c);
    NearFacts(s.pc[t], b, c);
    NearFacts(v.pc, b, c);
    assert Holds(Hold(HandOut, c, Null), c) by { HoldsBlock(HandOut, c, Null); }
  }

  lemma HoldsBlock(at: HoldAt, c: Block, n: Link)
    ensures Holds(Hold(at, c, n), c)
  {
  }

  lemma WriteSame(s: State, list: seq<Block>, st: map<Block, Status>, t: Thread, b: Block, v: View, x: Status,
      list': seq<Block>)
    requires Moves(s, list, st, t, b, v, x)
    requires b in list' <==> x == OnList
    ensures BlockOk(Write(s, t, b, v), list', st[b := x], b)
  {
    hide Safe, Wf, Chain, Holders, Holds, Near, Pushes, ThreadOk, ListMoveOk, KnowsOk;
    SafeAt(s, list, st, t, b);
    HoldersMoved(s.pc, t, v.pc, b);
  }

  lemma KnowsKept(p: Pc, x: Status, next: Link, x': Status, next': Link, u: Thread)
    requires KnowsOk(p, x, next, u)
    requires x' == x || (x != Taken(u) && x != Pushed(u))
    requires next' == next || (!p.Hold? && x != Pushed(u))
    ensures KnowsOk(p, x', next', u)
  {
  }

  lemma WriteOtherThread(s: State, list: seq<Block>, st: map<Block, Status>, t: Thread, b: Block, v: View, x: Status,
      u: Thread)
    requires Moves(s, list, st, t, b, v, x) && u in s.pc && u in s.held && u != t
    requires st[b := x].Keys == Write(s, t, b, v).next.Keys
    ensures ThreadOk(Write(s, t, b, v), st[b := x], u)
  {
    hide Safe, Wf, Chain, Holders, Near, Pushes, ListMoveOk, KnowsOk, RefOk, ViewOk, BlockOk;
    SafeAt(s, list, st, u, b);
    if Target(s.pc[u]) == At(b) {
      KnowsKept(s.pc[u], st[b], s.next[b], x, v.next, u);
    }
  }

  lemma WriteOwnThread(s: State, list: seq<Block>, st: map<Block, Status>, t: Thread, b: Block, v: View, x: Status)
    requires Moves(s, list, st, t, b, v, x)
    requires Sane(Write(s, t, b, v), v.pc) && st[b := x].Keys == Write(s, t, b, v).next.Keys == s.refs.Keys
    ensures ThreadOk(Write(s, t, b, v), st[b := x], t)
  {
    hide Safe, Wf, Chain, Holders, Pushes, ListMoveOk, RefOk, BlockOk;
    SafeAt(s, list, st, t, b);
  }

  // The list after the move: unchanged, popped or pushed.
  function Relist(list: seq<Block>, x: Status, x': Status, b: Block): seq<Block> {
    if x == OnList && x' != OnList && list != [] then list[1..]
    else if x != OnList && x' == OnList then [b] + list
    else list
  }

  lemma WriteChain(s: State, list: seq<Block>, st: map<Block, Status>, t: Thread, b: Block, v: View, x: Status)
    requires Moves(s, list, st, t, b, v, x)
    ensures Chain(v.head, s.next[b := v.next], Relist(list, st[b], x, b))
    ensures b in Relist(list, st[b], x, b) <==> x == OnList
    ensures forall c :: c != b ==> (c in Relist(list, st[b], x, b) <==> c in list)
  {
    hide Safe, Wf, Chain, Holders, Pushes, RefOk, ViewOk, Near;
    SafeAt(s, list, st, t, b);
    if v.next != s.next[b] {
      ChainFrame(s.head, s.next, list, b, v.next);
    } else {
      assert s.next[b := v.next] == s.next;
      if s.head == At(b) { ChainHead(s.head, s.next, list, b); assert list == [b] + list[1..]; }
      if st[b] != OnList && x == OnList { ChainPush(s.next, list, b); }
    }
  }

  lemma ChainPush(next: map<Block, Link>, list: seq<Block>, b: Block)
    requires b in next && b !in list && Chain(next[b], next, list)
    ensures Chain(At(b), next, [b] + list)
  {
    assert ([b] + list)[1..] == list;
  }

  predicate SaneView(s: State, v: View) {
    Sane(s, v.pc) && SaneLink(s, v.head) && SaneLink(s, v.next)
  }

  lemma AccessSane(s: State, v: View)
    requires SaneView(s, v)
    ensures SaneView(s, Access(v))
  {
    match v.pc {
      case Hold(at, b, link) => match at { case DropRef => case _ => }
      case Push(at, b, want, r) => match at { case SwapHead => case SetFlag => case _ => }
      case _ =>
    }
  }

  lemma WriteSane(s: State, list: seq<Block>, st: map<Block, Status>, t: Thread, b: Block, v: View)
    requires Safe(s, list, st) && t in s.pc && t in s.held && b in s.refs && SaneView(s, v)
    ensures var s' := Write(s, t, b, v);
      && s'.refs.Keys == s.refs.Keys == s'.next.Keys == st.Keys
      && s'.pc.Keys == s.pc.Keys == s'.held.Keys
      && Wf(s') && SaneLink(s', s'.head) && Sane(s', v.pc)
      && (forall c :: c in s'.next ==> SaneLink(s', s'.next[c]))
  {
    hide BlockOk, ThreadOk, Chain, Holders;
    var s' := Write(s, t, b, v);
    assert s'.refs.Keys == s.refs.Keys;
    forall p | Sane(s, p) ensures Sane(s', p) {}
  }

  lemma WriteSafe(s: State, list: seq<Block>, st: map<Block, Status>, t: Thread, b: Block, v: View, x: Status)
    requires Moves(s, list, st, t, b, v, x) && SaneView(s, v)
    ensures Safe(Write(s, t, b, v), Relist(list, st[b], x, b), st[b := x])
  {
    hide BlockOk, ThreadOk, Chain, Sane, Holders, MoveOk, ListMoveOk, Relist, Near;
    var s', list', st' := Write(s, t, b, v), Relist(list, st[b], x, b), st[b := x];
    WriteSane(s, list, st, t, b, v);
    WriteChain(s, list, st, t, b, v, x);
    forall c | c in s'.refs ensures BlockOk(s', list', st', c) {
      if c == b { WriteSame(s, list, st, t, b, v, x, list'); }
      else { WriteOther(s, list, st, t, b, v, x, list', c); }
    }
    forall u | u in s'.pc ensures ThreadOk(s', st', u) {
      if u == t { WriteOwnThread(s, list, st, t, b, v, x); }
      else { WriteOtherThread(s, list, st, t, b, v, x, u); }
    }
  }

  // ---- The remaining actions ---------------------------------------------

  lemma GotoBlock(s: State, list: seq<Block>, st: map<Block, Status>, t: Thread, p: Pc, c: Block)
    requires Safe(s, list, st) && t in s.pc && c in s.refs && c in st
    requires !s.pc[t].Hold? && !s.pc[t].Push? && !p.Hold? && !p.Push?
    ensures BlockOk(Goto(s, t, p), list, st, c)
  {
    hide Safe, Wf, Chain, Holders, RefOk, ThreadOk;
    SafeAt(s, list, st, t, c);
    HoldersMoved(s.pc, t, p, c);
  }

  lemma GotoSafe(s: State, list: seq<Block>, st: map<Block, Status>, t: Thread, p: Pc)
    requires Safe(s, list, st) && t in s.pc && Sane(s, p)
    requires s.pc[t].Idle? || s.pc[t].LoadHead?
    requires p.Idle? || p.LoadHead? || p.ReadRefs?
    ensures Safe(Goto(s, t, p), list, st)
  {
    hide BlockOk, Chain, Holders, Sane;
    var s' := Goto(s, t, p);
    assert s'.pc.Keys == s.pc.Keys;
    forall c | c in s'.refs ensures BlockOk(s', list, st, c) {
      GotoBlock(s, list, st, t, p, c);
    }
    forall u | u in s'.pc ensures ThreadOk(s', st, u) && Sane(s', s'.pc[u]) {
      assert ThreadOk(s, st, u) && Sane(s, s.pc[u]);
      SaneSame(s, s', s'.pc[u]);
    }
  }

  lemma SaneSame(s: State, s': State, p: Pc)
    requires Sane(s, p) && s.refs.Keys <= s'.refs.Keys
    ensures Sane(s', p)
  {
  }

  lemma GiveBlock(s: State, list: seq<Block>, st: map<Block, Status>, t: Thread, u: Thread, b: Block, c: Block)
    requires Safe(s, list, st) && Enabled(s, Give(t, u, b)) && c in s.refs && c in st && b in st
    ensures BlockOk(Step(s, Give(t, u, b)), list, st[b := Owned(u)], c)
  {
    hide Safe, Wf, Chain, Holders, Sane, KnowsOk;
    SafeAt(s, list, st, t, c);
  }

  lemma GiveThread(s: State, list: seq<Block>, st: map<Block, Status>, t: Thread, u: Thread, b: Block, w: Thread)
    requires Safe(s, list, st) && Enabled(s, Give(t, u, b)) && w in s.pc && w in s.held && b in s.refs
    requires st[b := Owned(u)].Keys == s.next.Keys && st[b] == Owned(t)
    ensures ThreadOk(Step(s, Give(t, u, b)), st[b := Owned(u)], w)
  {
    hide Safe, Wf, Chain, Holders, Sane, KnowsOk, RefOk, BlockOk;
    SafeAt(s, list, st, w, b);
    if Target(s.pc[w]) == At(b) { KnowsKept(s.pc[w], st[b], s.next[b], Owned(u), s.next[b], w); }
  }

  lemma GivenBy(s: State, list: seq<Block>, st: map<Block, Status>, t: Thread, b: Block)
    requires Safe(s, list, st) && t in s.held && b in s.held[t]
    ensures b in st && st[b] == Owned(t) && b in s.refs
  {
    assert ThreadOk(s, st, t);
  }

  lemma GiveSafe(s: State, list: seq<Block>, st: map<Block, Status>, t: Thread, u: Thread, b: Block)
    requires Safe(s, list, st) && Enabled(s, Give(t, u, b))
    ensures Safe(Step(s, Give(t, u, b)), list, st[b := Owned(u)])
  {
    hide Chain, Holders, Sane, BlockOk, ThreadOk, KnowsOk, RefOk;
    GivenBy(s, list, st, t, b);
    var s', st' := Step(s, Give(t, u, b)), st[b := Owned(u)];
    assert s'.held.Keys == s.held.Keys && st'.Keys == st.Keys;
    forall c | c in s'.refs ensures BlockOk(s', list, st', c) {
      GiveBlock(s, list, st, t, u, b, c);
    }
    forall w | w in s'.pc ensures ThreadOk(s', st', w) && Sane(s', s'.pc[w]) {
      GiveThread(s, list, st, t, u, b, w);
      SaneSame(s, s', s.pc[w]);
    }
  }

  lemma CreateBlock(s: State, s': State, list: seq<Block>, st: map<Block, Status>, st': map<Block, Status>, t: Thread,
      b: Block, c: Block)
    requires Safe(s, list, st) && Enabled(s, Create(t, b))
    requires s' == Step(s, Create(t, b)) && st' == st[b := Owned(t)] && c in s'.refs
    ensures c in st' && BlockOk(s', list, st', c)
  {
    hide Safe, Wf, Holders, RefOk;
    SafeWf(s, list, st);
    if c == b {
      NobodyHolds(s, b);
      NewBlockRefs(t);
      NotListed(s, list, st, b);
    } else {
      SafeBlock(s, list, st, c);
    }
  }

  lemma NotListed(s: State, list: seq<Block>, st: map<Block, Status>, b: Block)
    requires Safe(s, list, st) && b !in s.refs
    ensures b !in list
  {
  }

  lemma NewBlockRefs(t: Thread)
    ensures forall e :: RefOk(Owned(t), 0, 0, e)
  {
  }

  lemma CreateThread(s: State, list: seq<Block>, st: map<Block, Status>, t: Thread, b: Block, w: Thread)
    requires Safe(s, list, st) && Enabled(s, Create(t, b)) && w in s.pc && w in s.held
    requires st[b := Owned(t)].Keys == Step(s, Create(t, b)).next.Keys
    ensures ThreadOk(Step(s, Create(t, b)), st[b := Owned(t)], w)
  {
    hide Safe, Wf, Chain, Holders, RefOk, BlockOk, KnowsOk, Sane;
    SafeThread(s, list, st, w);
  }

  lemma CreateSafe(s: State, list: seq<Block>, st: map<Block, Status>, t: Thread, b: Block)
    requires Safe(s, list, st) && Enabled(s, Create(t, b))
    ensures Safe(Step(s, Create(t, b)), list, st[b := Owned(t)])
  {
    hide Chain, Holders, Sane, BlockOk, ThreadOk;
    var s', st' := Step(s, Create(t, b)), st[b := Owned(t)];
    assert s'.held.Keys == s.held.Keys && s.refs.Keys <= s'.refs.Keys;
    ChainFrame(s.head, s.next, list, b, Null);
    forall c | c in s'.refs ensures BlockOk(s', list, st', c) {
      CreateBlock(s, s', list, st, st', t, b, c);
    }
    forall w | w in s'.pc ensures ThreadOk(s', st', w) && Sane(s', s'.pc[w]) {
      CreateThread(s, list, st, t, b, w);
      SaneSame(s, s', s.pc[w]);
    }
  }

  lemma NobodyHolds(s: State, b: Block)
    requires Wf(s) && b !in s.refs
    ensures Holders(s.pc, b) == 0
  {
    forall t | t in s.pc ensures !Holds(s.pc[t], b) { assert Sane(s, s.pc[t]); }
    HoldersBound(s.pc, b);
  }

  // ---- Whole runs --------------------------------------------------------

  lemma RunSafe(s: State, list: seq<Block>, st: map<Block, Status>, t: Thread, b: Block)
    requires Safe(s, list, st) && Enabled(s, Run(t)) && Target(s.pc[t]) == At(b)
    ensures b in st && b in s.refs && b in s.next
    ensures var x := AccessStatus(ViewOf(s, t, b), st[b], t);
            Safe(Step(s, Run(t)), Relist(list, st[b], x, b), st[b := x])
  {
    assert Sane(s, s.pc[t]) && SaneLink(s, s.next[b]);
    hide Safe, Wf, Chain, Holders, ViewOk, Access, Sane, MoveOk, AccessStatus, Relist, Write, SaneLink;
    SafeView(s, list, st, t, b);
    var v := ViewOf(s, t, b);
    AccessOk(v, st[b], Holders(s.pc, b), EarlyOf(s, st[b]), t, b);
    AccessSane(s, v);
    WriteSafe(s, list, st, t, b, Access(v), AccessStatus(v, st[b], t));
  }

  lemma CallAddSafe(s: State, list: seq<Block>, st: map<Block, Status>, t: Thread, b: Block)
    requires Safe(s, list, st) && Enabled(s, CallAdd(t, b))
    ensures b in st
    ensures var x := if s.refs[b] == 0 then Pushed(t) else Waiting;
            Safe(Step(s, CallAdd(t, b)), Relist(list, st[b], x, b), st[b := x])
  {
    assert SaneLink(s, s.next[b]) && SaneLink(s, s.head);
    hide Safe, Wf, Chain, Holders, ViewOk, MoveOk, Relist, Write, SaneLink;
    SafeView(s, list, st, t, b);
    var v := ViewOf(s, t, b);
    AccessAddOk(v, st[b], Holders(s.pc, b), EarlyOf(s, st[b]), t, b);
    WriteSafe(s, list, st, t, b, AccessAdd(v, b), if s.refs[b] == 0 then Pushed(t) else Waiting);
  }

  lemma LoadHeadSafe(s: State, list: seq<Block>, st: map<Block, Status>, t: Thread)
    requires Safe(s, list, st) && Enabled(s, Run(t)) && Target(s.pc[t]) == Null
    ensures Safe(Step(s, Run(t)), list, st)
  {
    assert SaneLink(s, s.head);
    hide Safe, Wf;
    GotoSafe(s, list, st, t, Loop(s.head));
  }

  // Every atomic access of every thread keeps the invariant.
  lemma StepSafe(s: State, a: Action)
    requires Invariant(s) && Wf(s) && Enabled(s, a)
    ensures Invariant(Step(s, a))
  {
    hide Safe, Wf, AccessStatus, Relist;
    var list, st :| Safe(s, list, st);
    match a {
      case Run(t) =>
        match Target(s.pc[t]) {
          case At(b) => RunSafe(s, list, st, t, b);
          case Null => LoadHeadSafe(s, list, st, t);
        }
      case CallGet(t) => GotoSafe(s, list, st, t, LoadHead);
      case CallAdd(t, b) => CallAddSafe(s, list, st, t, b);
      case Give(t, u, b) => GiveSafe(s, list, st, t, u, b);
      case Create(t, b) => CreateSafe(s, list, st, t, b);
    }
  }

  // All blocks belong to callers, each to one, and the list is empty.
  ghost predicate Init(s: State) {
    && s.head == Null && s.refs.Keys == s.next.Keys && s.pc.Keys == s.held.Keys
    && (forall b :: b in s.refs ==> s.refs[b] == 0 && s.next[b] == Null)
    && (forall t :: t in s.pc ==> s.pc[t] == Idle)
    && (forall t, b :: t in s.held && b in s.held[t] ==> b in s.refs)
    && (forall b :: b in s.refs ==> exists t :: t in s.held && b in s.held[t])
    && (forall t, u :: t in s.held && u in s.held && t != u ==> s.held[t] !! s.held[u])
    && |s.pc| <= FLAG - 2
  }

  ghost function InitialOwner(s: State, b: Block): Thread
    requires Init(s) && b in s.refs
    ensures InitialOwner(s, b) in s.held && b in s.held[InitialOwner(s, b)]
  {
    var t :| t in s.held && b in s.held[t]; t
  }

  lemma InitBlock(s: State, b: Block, st: map<Block, Status>)
    requires Init(s) && b in s.refs && b in st && st[b] == Owned(InitialOwner(s, b))
    ensures BlockOk(s, [], st, b)
  {
    hide Holders;
    HoldersBound(s.pc, b);
  }

  lemma InitSafe(s: State)
    requires Init(s)
    ensures Invariant(s)
  {
    hide BlockOk, ThreadOk, Holders, InitialOwner, Init;
    InitFacts(s);
    var st := map b | b in s.refs :: Owned(InitialOwner(s, b));
    assert st.Keys == s.refs.Keys;
    forall b | b in s.refs ensures BlockOk(s, [], st, b) {
      InitBlock(s, b, st);
    }
    forall t | t in s.pc ensures ThreadOk(s, st, t) {
      InitThread(s, t, st);
    }
    assert Safe(s, [], st);
  }

  lemma InitFacts(s: State)
    requires Init(s)
    ensures Wf(s) && s.head == Null && |s.pc| <= FLAG - 2
    ensures forall b :: b in s.next ==> SaneLink(s, s.next[b])
  {
  }

  lemma InitThread(s: State, t: Thread, st: map<Block, Status>)
    requires Init(s) && t in s.pc && st.Keys == s.refs.Keys
    requires forall b :: b in s.refs ==> st[b] == Owned(InitialOwner(s, b))
    ensures ThreadOk(s, st, t)
  {
    forall b | b in s.held[t] ensures InitialOwner(s, b) == t {}
  }

  // A run: each state follows from the one before by one access of one thread.
  ghost predicate IsRun(run: seq<State>, actions: seq<Action>) {
    && |run| == |actions| + 1 && Init(run[0])
    && forall i :: 0 <= i < |actions| ==>
         Wf(run[i]) && Enabled(run[i], actions[i]) && run[i + 1] == Step(run[i], actions[i])
  }

  lemma {:induction false} RunsAreSafe(run: seq<State>, actions: seq<Action>, n: nat)
    requires IsRun(run, actions) && n < |run|
    ensures Invariant(run[n]) && Wf(run[n])
    ensures exists list :: Chain(run[n].head, run[n].next, list)
  {
    hide Safe, Wf, Step, Enabled, Init, Chain;
    if n == 0 {
      InitSafe(run[0]);
    } else {
      RunsAreSafe(run, actions, n - 1);
      StepSafe(run[n - 1], actions[n - 1]);
    }
    var list, st :| Safe(run[n], list, st);
    SafeWf(run[n], list, st);
    ListIsFinite(run[n]);
  }

  lemma SafeWf(s: State, list: seq<Block>, st: map<Block, Status>)
    requires Safe(s, list, st)
    ensures Wf(s)
  {
  }

  // ---- What the invariant says -------------------------------------------

  lemma SafeHeld(s: State, list: seq<Block>, st: map<Block, Status>, t: Thread)
    requires Safe(s, list, st) && t in s.held
    ensures t in s.pc && forall b :: b in s.held[t] ==> b in s.refs
  {
    assert ThreadOk(s, st, t);
  }

  // No block is owned by two callers, and an owned block is not on the list.
  lemma OwnersAreExclusive(s: State, t: Thread, u: Thread, b: Block, list: seq<Block>)
    requires Invariant(s) && t in s.held && b in s.held[t] && Chain(s.head, s.next, list)
    ensures b !in list
    ensures u in s.held && b in s.held[u] ==> u == t
    ensures u in s.pc ==> !Pushes(s.pc[u], b) && s.pc[u] != Hold(HandOut, b, Null)
  {
    hide Safe, Wf, Chain, Holders, RefOk;
    var l, st :| Safe(s, l, st);
    SafeHeld(s, l, st, t);
    SafeAt(s, l, st, t, b);
    ChainUnique(s.head, s.next, list, l);
    if u in s.pc { SafeThread(s, l, st, u); }
  }

  // A block about to be handed out is flagged free of the should-be-on-list
  // bit, belongs to nobody, and no second thread is handing it out.
  lemma HandOutIsExclusive(s: State, t: Thread, u: Thread, b: Block)
    requires Invariant(s) && t in s.pc && s.pc[t] == Hold(HandOut, b, Null)
    ensures b in s.refs && s.refs[b] < FLAG && Count(s.refs[b]) >= 2
    ensures u in s.held ==> b !in s.held[u]
    ensures u in s.pc && s.pc[u] == Hold(HandOut, b, Null) ==> u == t
  {
    hide Safe, Wf, Chain, Holders;
    var l, st :| Safe(s, l, st);
    SafeThread(s, l, st, t);
    SafeAt(s, l, st, t, b);
    if u in s.pc { SafeThread(s, l, st, u); }
  }

  // When nobody is inside an operation nothing is lost: every block is on the
  // list with count one, or owned by exactly one caller with count zero.
  lemma NothingIsLost(s: State, b: Block, list: seq<Block>)
    requires Invariant(s) && b in s.refs && (forall t :: t in s.pc ==> s.pc[t] == Idle)
    requires Chain(s.head, s.next, list)
    ensures if b in list then s.refs[b] == 1
            else s.refs[b] == 0 && exists t :: t in s.held && b in s.held[t]
  {
    var l, st: map<Block, Status> :| Safe(s, l, st);
    ChainUnique(s.head, s.next, list, l);
    HoldersBound(s.pc, b);
    assert BlockOk(s, l, st, b);
    if st[b].Owned? { assert st[b].thread in s.held; }
  }

  // Following the links from the head always ends.
  lemma ListIsFinite(s: State)
    requires Invariant(s)
    ensures exists list :: Chain(s.head, s.next, list)
  {
    var list, st :| Safe(s, list, st);
    assert Chain(s.head, s.next, list);
  }

  // ---- The list as an atomic pool ----------------------------------------

  // The blocks a caller has returned and no caller has been promised.
  ghost function Pool(s: State): set<Block> {
    set b | b in s.refs && (forall t :: t in s.held ==> b !in s.held[t])
            && (forall t :: t in s.pc ==> s.pc[t] != Hold(HandOut, b, Null))
  }

  predicate InPool(x: Status) {
    x.OnList? || x.Waiting? || x.Pushed?
  }

  lemma PoolFromStatus(s: State, list: seq<Block>, st: map<Block, Status>, b: Block)
    requires Safe(s, list, st) && b in s.refs
    ensures b in st && (b in Pool(s) <==> InPool(st[b]))
  {
    hide Safe, Wf, Holders, RefOk;
    SafeBlock(s, list, st, b);
    SafeWf(s, list, st);
    SameThreads(s);
    if InPool(st[b]) {
      forall t | t in s.pc ensures b !in s.held[t] && s.pc[t] != Hold(HandOut, b, Null) {
        SafeThread(s, list, st, t);
      }
    }
  }

  lemma SameThreads(s: State)
    requires Wf(s)
    ensures s.pc.Keys == s.held.Keys
  {
  }

  lemma PoolMoved(s: State, list: seq<Block>, st: map<Block, Status>, s': State, list': seq<Block>, b: Block, x: Status)
    requires Safe(s, list, st) && Safe(s', list', st[b := x]) && b in s.refs && s'.refs.Keys == s.refs.Keys
    ensures b in st && (b in Pool(s) <==> InPool(st[b]))
    ensures Pool(s') == if InPool(x) then Pool(s) + {b} else Pool(s) - {b}
  {
    hide Safe, Pool, InPool;
    PoolFromStatus(s, list, st, b);
    PoolWithin(s); PoolWithin(s');
    forall c | c in s.refs ensures c in Pool(s') <==> if c == b then InPool(x) else c in Pool(s) {
      PoolFromStatus(s, list, st, c);
      PoolFromStatus(s', list', st[b := x], c);
    }
  }

  lemma PoolWithin(s: State)
    ensures Pool(s) <= s.refs.Keys
  {
  }

  // Thread t's next access takes block b off the list.
  predicate Pops(s: State, a: Action, b: Block) {
    a.Run? && a.thread in s.pc && s.head == At(b)
    && s.pc[a.thread].Hold? && s.pc[a.thread].hold == SwingHead && s.pc[a.thread].block == b
  }

  lemma AccessPool(v: View, x: Status, holders: nat, early: bool, t: Thread, b: Block)
    requires ViewOk(v, x, holders, early, t, b) && holders <= FLAG - 2 && Target(v.pc) == At(b)
    requires v.head == At(b) ==> x == OnList
    ensures if v.pc.Hold? && v.pc.hold == SwingHead && v.head == At(b)
            then InPool(x) && !InPool(AccessStatus(v, x, t))
            else InPool(AccessStatus(v, x, t)) <==> InPool(x)
  {
  }

  lemma RunPool(s: State, list: seq<Block>, st: map<Block, Status>, t: Thread, b: Block)
    requires Safe(s, list, st) && Enabled(s, Run(t)) && Target(s.pc[t]) == At(b)
    ensures Pops(s, Run(t), b) ==> b in Pool(s) && Pool(Step(s, Run(t))) == Pool(s) - {b}
    ensures !Pops(s, Run(t), b) ==> Pool(Step(s, Run(t))) == Pool(s)
  {
    hide Safe, Wf, Pool, InPool, Holders, Relist, Access, ViewOk, AccessStatus, Chain, EarlyOf;
    SafeWf(s, list, st);
    RunSafe(s, list, st, t, b);
    SafeView(s, list, st, t, b);
    var x := AccessStatus(ViewOf(s, t, b), st[b], t);
    assert Step(s, Run(t)).refs.Keys == s.refs.Keys;
    PoolMoved(s, list, st, Step(s, Run(t)), Relist(list, st[b], x, b), b, x);
    AccessPool(ViewOf(s, t, b), st[b], Holders(s.pc, b), EarlyOf(s, st[b]), t, b);
  }

  // Whatever the interleaving, the list behaves as a set changed atomically:
  // `add` puts its block in with its first access, a successful compare-and-
  // swap in `try_get` removes one block that was in it, nothing else counts.
  lemma StepRefinesPool(s: State, a: Action)
    requires Invariant(s) && Wf(s) && Enabled(s, a)
    ensures forall b :: a == CallAdd(a.thread, b) ==> b !in Pool(s) && Pool(Step(s, a)) == Pool(s) + {b}
    ensures forall b :: Pops(s, a, b) ==> b in Pool(s) && Pool(Step(s, a)) == Pool(s) - {b}
    ensures !a.CallAdd? && (forall b :: !Pops(s, a, b)) ==> Pool(Step(s, a)) == Pool(s)
  {
    hide Safe, Pool, Relist, AccessStatus;
    var list, st: map<Block, Status> :| Safe(s, list, st);
    match a {
      case Run(t) =>
        match Target(s.pc[t]) {
          case At(b) => RunPool(s, list, st, t, b);
          case Null => GotoPool(s, t, Loop(s.head));
        }
      case CallGet(t) => GotoPool(s, t, LoadHead);
      case CallAdd(t, b) => AddPool(s, list, st, t, b);
      case Give(t, u, b) => GivePool(s, list, st, t, u, b);
      case Create(t, b) => CreatePool(s, list, st, t, b);
    }
  }

  lemma GotoPool(s: State, t: Thread, p: Pc)
    requires t in s.pc && !s.pc[t].Hold? && !p.Hold?
    ensures Pool(Goto(s, t, p)) == Pool(s)
  {
    assert forall b, u :: u in s.pc ==>
      (Goto(s, t, p).pc[u] == Hold(HandOut, b, Null) <==> s.pc[u] == Hold(HandOut, b, Null));
  }

  lemma AddPool(s: State, list: seq<Block>, st: map<Block, Status>, t: Thread, b: Block)
    requires Safe(s, list, st) && Enabled(s, CallAdd(t, b))
    ensures b !in Pool(s) && Pool(Step(s, CallAdd(t, b))) == Pool(s) + {b}
  {
    hide Safe, Wf, Pool, Relist;
    SafeWf(s, list, st);
    GivenBy(s, list, st, t, b);
    var s' := Step(s, CallAdd(t, b));
    var x := if s.refs[b] == 0 then Pushed(t) else Waiting;
    CallAddSafe(s, list, st, t, b);
    assert s'.refs.Keys == s.refs.Keys;
    PoolMoved(s, list, st, s', Relist(list, st[b], x, b), b, x);
  }

  lemma GivePool(s: State, list: seq<Block>, st: map<Block, Status>, t: Thread, u: Thread, b: Block)
    requires Safe(s, list, st) && Enabled(s, Give(t, u, b))
    ensures Pool(Step(s, Give(t, u, b))) == Pool(s)
  {
    hide Safe, Wf, Pool, InPool;
    SafeWf(s, list, st);
    SafeHeld(s, list, st, t);
    GiveSafe(s, list, st, t, u, b);
    SafeThread(s, list, st, t);
    NotInPool(t);
    NotInPool(u);
    PoolMoved(s, list, st, Step(s, Give(t, u, b)), list, b, Owned(u));
  }

  lemma NotInPool(t: Thread)
    ensures !InPool(Owned(t))
  {
  }

  lemma CreatePool(s: State, list: seq<Block>, st: map<Block, Status>, t: Thread, b: Block)
    requires Safe(s, list, st) && Enabled(s, Create(t, b))
    ensures Pool(Step(s, Create(t, b))) == Pool(s)
  {
    hide Safe, Wf, Pool, InPool;
    SafeWf(s, list, st);
    CreateSafe(s, list, st, t, b);
    SafeThread(s, list, st, t);
    var s', st' := Step(s, Create(t, b)), st[b := Owned(t)];
    PoolFromStatus(s', list, st', b);
    NotInPool(t);
    PoolWithin(s); PoolWithin(s');
    forall c | c in s.refs ensures c in Pool(s') <==> c in Pool(s) {
      PoolFromStatus(s, list, st, c);
      PoolFromStatus(s', list, st', c);
    }
  }

  // How often block b was added, and handed out, in the first n steps.
  ghost function Adds(run: seq<State>, actions: seq<Action>, n: nat, b: Block): nat
    requires n <= |actions|
  {
    if n == 0 then 0
    else Adds(run, actions, n - 1, b) + One(actions[n - 1] == CallAdd(actions[n - 1].thread, b))
  }

  ghost function Takes(run: seq<State>, actions: seq<Action>, n: nat, b: Block): nat
    requires n <= |actions| <= |run|
  {
    if n == 0 then 0 else Takes(run, actions, n - 1, b) + One(Pops(run[n - 1], actions[n - 1], b))
  }

  // Over every run, additions and removals of a block alternate: it is never
  // handed out again before it has been added again.
  lemma {:induction false} AddsAndTakesAlternate(run: seq<State>, actions: seq<Action>, n: nat, b: Block)
    requires IsRun(run, actions) && n <= |actions|
    ensures Adds(run, actions, n, b) == Takes(run, actions, n, b) + One(b in Pool(run[n]))
  {
    hide Wf, Step, Enabled, Init, Invariant, Pool;
    if n == 0 {
      PoolStartsEmpty(run[0]);
    } else {
      AddsAndTakesAlternate(run, actions, n - 1, b);
      RunsAreSafe(run, actions, n - 1);
      var s, a := run[n - 1], actions[n - 1];
      assert run[n - 1 + 1] == Step(s, a);
      StepRefinesPool(s, a);
      AddIsNotTake(s, a, b);
    }
  }

  lemma AddIsNotTake(s: State, a: Action, b: Block)
    ensures a.CallAdd? ==> !Pops(s, a, b)
    ensures forall c, e :: Pops(s, a, c) && Pops(s, a, e) ==> c == e
    ensures a.CallAdd? ==> a == CallAdd(a.thread, a.block)
  {
  }

  lemma PoolStartsEmpty(s: State)
    requires Init(s)
    ensures Pool(s) == {}
  {
  }

  // ---- A thread that runs alone ------------------------------------------

  // Up to n accesses of thread t, until it is outside.
  function RunFor(s: State, t: Thread, n: nat): State
    decreases n
  {
    if n == 0 || !Wf(s) || !Enabled(s, Run(t)) then s else RunFor(Step(s, Run(t)), t, n - 1)
  }

  lemma WriteTwice(s: State, t: Thread, b: Block, v: View, w: View)
    requires t in s.held
    ensures Write(Write(s, t, b, v), t, b, w) == Write(s, t, b, w)
  {
    var x, y := Write(Write(s, t, b, v), t, b, w), Write(s, t, b, w);
    assert x.held[t] == y.held[t] && x.held == y.held && x.pc == y.pc && x.refs == y.refs && x.next == y.next;
  }

  // A thread at work on block b makes its next access.
  lemma Advance(s: State, t: Thread, b: Block, v: View, n: nat)
    requires Wf(s) && t in s.pc && t in s.held && b in s.refs && Sane(s, v.pc) && Target(v.pc) == At(b)
    ensures RunFor(Write(s, t, b, v), t, n + 1) == RunFor(Write(s, t, b, Access(v)), t, n)
  {
    hide Access;
    var s' := Write(s, t, b, v);
    assert b in s.next;
    assert ViewOf(s', t, b) == v;
    assert Wf(s') && s'.pc[t] == v.pc;
    WriteTwice(s, t, b, v, Access(v));
  }

  lemma Ends(s: State, t: Thread, b: Block, v: View, n: nat)
    requires t in s.pc && t in s.held && v.pc == Idle
    ensures RunFor(Write(s, t, b, v), t, n) == Write(s, t, b, v)
  {
  }

  // The list has a first block: its count is one, its link is the rest.
  lemma FirstOfList(s: State, list: seq<Block>)
    requires Invariant(s) && Chain(s.head, s.next, list) && list != []
    requires forall u :: u in s.pc ==> s.pc[u] == Idle
    ensures var b := list[0];
      && Wf(s) && s.head == At(b) && b in s.refs && b in s.next && s.refs[b] == 1 && SaneLink(s, s.next[b])
      && Chain(s.next[b], s.next, list[1..]) && forall u :: u in s.held ==> b !in s.held[u]
  {
    hide RefOk, Holders;
    var l, st: map<Block, Status> :| Safe(s, l, st);
    NothingIsLost(s, list[0], list);
    forall u | u in s.held ensures list[0] !in s.held[u] {
      if list[0] in s.held[u] { OwnersAreExclusive(s, u, u, list[0], list); }
    }
  }

  // try_get on a first block that nobody else touches: six accesses.
  lemma GetFirst(s: State, t: Thread, b: Block)
    requires Wf(s) && t in s.pc && t in s.held && s.pc[t] == Idle && b !in s.held[t]
    requires s.head == At(b) && b in s.refs && b in s.next && s.refs[b] == 1 && SaneLink(s, s.next[b])
    ensures RunFor(Step(s, CallGet(t)), t, 6) == Write(s, t, b, View(s.next[b], 0, s.next[b], true, Idle))
  {
    hide Wf, Write, RunFor;
    var n := s.next[b];
    var v := View(At(b), 1, n, false, ReadRefs(b));
    LoadFirst(s, t, b);
    Advance(s, t, b, v, 4);
    Advance(s, t, b, v.(pc := GrabRef(b, 1)), 3);
    Advance(s, t, b, v.(ref := 2, pc := Hold(ReadNext, b, Null)), 2);
    Advance(s, t, b, v.(ref := 2, pc := Hold(SwingHead, b, n)), 1);
    Advance(s, t, b, v.(head := n, ref := 2, pc := Hold(HandOut, b, Null)), 0);
    Ends(s, t, b, View(n, 0, n, true, Idle), 0);
  }

  lemma LoadFirst(s: State, t: Thread, b: Block)
    requires Wf(s) && t in s.pc && t in s.held && s.pc[t] == Idle && b !in s.held[t]
    requires s.head == At(b) && b in s.refs && b in s.next
    ensures RunFor(Step(s, CallGet(t)), t, 6)
         == RunFor(Write(s, t, b, View(At(b), s.refs[b], s.next[b], false, ReadRefs(b))), t, 5)
  {
    var s1, s2 := Goto(s, t, LoadHead), Goto(s, t, ReadRefs(b));
    assert Wf(s1) && Step(s1, Run(t)) == Goto(s1, t, ReadRefs(b)) == s2;
    assert s.held[t] - {b} == s.held[t];
    assert s2 == Write(s, t, b, View(At(b), s.refs[b], s.next[b], false, ReadRefs(b)));
  }

  // So a try_get that runs alone gets the first block of the list, and nothing
  // only from the empty list.
  lemma LoneGetIsExact(s: State, t: Thread, list: seq<Block>)
    requires Invariant(s) && t in s.pc && (forall u :: u in s.pc ==> s.pc[u] == Idle)
    requires Chain(s.head, s.next, list)
    ensures Wf(s) && t in s.held
    ensures var s' := RunFor(Step(s, CallGet(t)), t, 6);
      && s'.pc == s.pc && s'.next == s.next
      && (list == [] ==> s' == s)
      && (list != [] ==>
            && list[0] !in s.held[t] && s'.held == s.held[t := s.held[t] + {list[0]}]
            && s'.refs == s.refs[list[0] := 0] && s'.head == s.next[list[0]]
            && Chain(s'.head, s'.next, list[1..]) && Pool(s') == Pool(s) - {list[0]})
  {
    hide Safe, Wf, Chain, Write, RunFor, Pool;
    InvariantWf(s, t);
    ChainStart(s.head, s.next, list);
    if list == [] {
      GetNothing(s, t);
    } else {
      FirstOfList(s, list);
      var b := list[0];
      GetFirst(s, t, b);
      Got(s, t, b);
    }
  }

  lemma InvariantWf(s: State, t: Thread)
    requires Invariant(s) && t in s.pc
    ensures Wf(s) && t in s.held
  {
    hide BlockOk, ThreadOk, Chain;
    var l, st: map<Block, Status> :| Safe(s, l, st);
  }

  lemma ChainStart(head: Link, next: map<Block, Link>, list: seq<Block>)
    requires Chain(head, next, list)
    ensures list == [] ==> head == Null
  {
  }

  lemma GetNothing(s: State, t: Thread)
    requires Wf(s) && t in s.pc && t in s.held && s.pc[t] == Idle && s.head == Null
    ensures RunFor(Step(s, CallGet(t)), t, 6) == s
  {
    var s1 := Goto(s, t, LoadHead);
    assert Wf(s1) && Step(s1, Run(t)) == Goto(s1, t, Idle);
    assert Goto(s1, t, Idle) == s;
    Stays(s, t, 5);
  }

  lemma Stays(s: State, t: Thread, n: nat)
    requires t in s.pc && s.pc[t] == Idle
    ensures RunFor(s, t, n) == s
  {
  }

  lemma Got(s: State, t: Thread, b: Block)
    requires t in s.pc && t in s.held && b in s.refs && b in s.next && (forall u :: u in s.pc ==> s.pc[u] == Idle)
    ensures var s' := Write(s, t, b, View(s.next[b], 0, s.next[b], true, Idle));
      && s'.pc == s.pc && s'.next == s.next && s'.held == s.held[t := s.held[t] + {b}]
      && s'.refs == s.refs[b := 0] && s'.head == s.next[b] && Pool(s') == Pool(s) - {b}
  {
    var s' := Write(s, t, b, View(s.next[b], 0, s.next[b], true, Idle));
    assert s'.pc == s.pc && s'.next == s.next;
    assert s'.held == s.held[t := s.held[t] + {b}] && s'.refs.Keys == s.refs.Keys;
    forall c ensures c in Pool(s') <==> c in Pool(s) && c != b {
      assert c != b ==> forall u :: u in s.held ==> (c in s'.held[u] <==> c in s.held[u]);
      assert b in s'.held[t];
    }
  }

  // An add that runs alone puts its block in front.
  lemma LoneAddIsExact(s: State, t: Thread, b: Block, list: seq<Block>)
    requires Invariant(s) && t in s.pc && (forall u :: u in s.pc ==> s.pc[u] == Idle)
    requires t in s.held && b in s.held[t] && Chain(s.head, s.next, list)
    ensures Wf(s) && Enabled(s, CallAdd(t, b))
    ensures var s' := RunFor(Step(s, CallAdd(t, b)), t, 4);
      && s'.pc == s.pc && s'.head == At(b) && s'.next == s.next[b := s.head] && s'.refs == s.refs[b := 1]
      && s'.held == s.held[t := s.held[t] - {b}] && Chain(s'.head, s'.next, [b] + list)
  {
    hide RefOk, Holders;
    var l, st: map<Block, Status> :| Safe(s, l, st);
    SafeHeld(s, l, st, t);
    NothingIsLost(s, b, list);
    OwnersAreExclusive(s, t, t, b, list);
    AddSteps(s, t, b);
    ChainFrame(s.head, s.next, list, b, s.head);
    assert ([b] + list)[1..] == list;
    Added(s, t, b);
  }

  lemma AddSteps(s: State, t: Thread, b: Block)
    requires Wf(s) && t in s.pc && t in s.held && s.pc[t] == Idle && b in s.held[t]
    requires b in s.refs && b in s.next && s.refs[b] == 0 && SaneLink(s, s.head)
    ensures RunFor(Step(s, CallAdd(t, b)), t, 4) == Write(s, t, b, View(At(b), 1, s.head, false, Idle))
  {
    hide Wf, Write, RunFor;
    var h := s.head;
    var v := View(h, FLAG, s.next[b], false, Push(LoadList, b, Null, ToCaller));
    assert Step(s, CallAdd(t, b)) == Write(s, t, b, v);
    Advance(s, t, b, v, 3);
    Advance(s, t, b, v.(pc := Push(StoreNext, b, h, ToCaller)), 2);
    Advance(s, t, b, v.(next := h, pc := Push(StoreRef, b, h, ToCaller)), 1);
    Advance(s, t, b, v.(next := h, ref := 1, pc := Push(SwapHead, b, h, ToCaller)), 0);
    Ends(s, t, b, View(At(b), 1, h, false, Idle), 0);
  }

  lemma Added(s: State, t: Thread, b: Block)
    requires t in s.pc && t in s.held && s.pc[t] == Idle
    ensures var s' := Write(s, t, b, View(At(b), 1, s.head, false, Idle));
      && s'.pc == s.pc && s'.head == At(b) && s'.next == s.next[b := s.head] && s'.refs == s.refs[b := 1]
      && s'.held == s.held[t := s.held[t] - {b}]
  {
    assert s.pc[t := Idle] == s.pc;
  }

  // ---- When try_get returns nothing --------------------------------------

  // Inside a call of try_get.
  predicate InGet(p: Pc) {
    p.LoadHead? || p.ReadRefs? || p.GrabRef? || p.Hold? || (p.Push? && p.resume.ToGet?)
  }

  // Going to return nothing, because of a null head that it has read.
  predicate SawNull(p: Pc) {
    (p.Hold? && p.hold == DropRef && p.link == Null) || (p.Push? && p.resume == ToGet(Null))
  }

  lemma GetStep(s: State, t: Thread)
    requires Wf(s) && Enabled(s, Run(t)) && InGet(s.pc[t])
    ensures var p' := Step(s, Run(t)).pc[t];
      && (p' == Idle ==>
            || (s.pc[t].Hold? && s.pc[t].hold == HandOut && Step(s, Run(t)).held[t] == s.held[t] + {s.pc[t].block})
            || (s.pc[t] == LoadHead && s.head == Null) || SawNull(s.pc[t]))
      && (p' != Idle ==> InGet(p'))
      && (SawNull(p') ==> s.head == Null || SawNull(s.pc[t]))
  {
  }

  // Along every run: whoever is about to return nothing has read a null head
  // during this call.
  lemma {:induction false} NullWasRead(run: seq<State>, actions: seq<Action>, n: nat, t: Thread) returns (m: nat)
    requires IsRun(run, actions) && n < |run| && t in run[n].pc && SawNull(run[n].pc[t])
    ensures m < n && actions[m] == Run(t) && run[m].head == Null
    ensures forall i :: m < i <= n ==> t in run[i].pc && InGet(run[i].pc[t])
  {
    hide Step, Wf, Enabled, Init;
    StartsOutside(run[0]);
    var a, s := actions[n - 1], run[n - 1];
    assert run[n - 1 + 1] == Step(s, a) && Wf(s) && Enabled(s, a);
    OthersStay(s, a, t);
    if a == Run(t) {
      GetOrNot(s, t);
      GetStep(s, t);
      if s.head == Null {
        m := n - 1;
      } else {
        m := NullWasRead(run, actions, n - 1, t);
      }
    } else {
      m := NullWasRead(run, actions, n - 1, t);
    }
  }

  lemma StartsOutside(s: State)
    requires Init(s)
    ensures forall t :: t in s.pc ==> s.pc[t] == Idle
  {
  }

  // Another thread's access, or a call, does not bring t to the point of
  // returning nothing.
  lemma OthersStay(s: State, a: Action, t: Thread)
    requires Wf(s) && Enabled(s, a) && t in Step(s, a).pc && SawNull(Step(s, a).pc[t])
    ensures t in s.pc && InGet(Step(s, a).pc[t]) && (a != Run(t) ==> s.pc[t] == Step(s, a).pc[t])
  {
    hide Access;
  }

  lemma GetOrNot(s: State, t: Thread)
    requires Wf(s) && Enabled(s, Run(t)) && SawNull(Step(s, Run(t)).pc[t])
    ensures InGet(s.pc[t])
  {
  }

  // In every interleaving a try_get that returns without a block has read a null
  // head since it was called, in the last access or before.
  lemma NothingOnlyFromNull(run: seq<State>, actions: seq<Action>, n: nat, t: Thread) returns (m: nat)
    requires IsRun(run, actions) && n < |actions| && actions[n] == Run(t) && t in run[n].pc && InGet(run[n].pc[t])
    requires t in run[n + 1].pc && run[n + 1].pc[t] == Idle
    requires !(run[n].pc[t].Hold? && run[n].pc[t].hold == HandOut)
    ensures m <= n && actions[m] == Run(t) && run[m].head == Null
    ensures forall i :: m < i <= n ==> t in run[i].pc && InGet(run[i].pc[t])
  {
    hide Step, Wf, Init;
    GetStep(run[n], t);
    if run[n].pc[t] == LoadHead && run[n].head == Null {
      m := n;
    } else {
      m := NullWasRead(run, actions, n, t);
    }
  }
}
