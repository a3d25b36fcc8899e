/**
 * The optimistic-count / overcommit protocol by which any number of consumers
 * share the elements of one producer of the concurrent queue.
 *
 * Counters are kept as unbounded integers; every comparison the code makes is
 * made on their 64-bit words, with `circular_less_than`. Each atomic access is
 * one step, and consumers act on values of `tail` and `overcommit` that may be
 * arbitrarily old.
 */
module DequeueProtocol {

  const WORD: int := 0x1_0000_0000_0000_0000
  const HALF: int := 0x8000_0000_0000_0000

  function Wrap(x: int): nat {
    x % WORD
  }

  predicate CircularLess(a: nat, b: nat) {
    Wrap(a - b) > HALF
  }

  // On the words of two counters less than half the range apart, the circular
  // comparison is the comparison of the counters; at exactly minus half it fails.
  lemma CircularLessExact(a: int, b: int)
    requires -HALF <= a - b <= HALF
    ensures (CircularLess(Wrap(a), Wrap(b)) <==> a < b) <==> a - b != -HALF
  {
    WrapDifference(a, b);
  }

  lemma WrapDifference(a: int, b: int)
    ensures Wrap(Wrap(a) - Wrap(b)) == Wrap(a - b)
  {
    assert a == WORD * (a / WORD) + Wrap(a) && b == WORD * (b / WORD) + Wrap(b);
    WrapShift(Wrap(a) - Wrap(b), a / WORD - b / WORD);
  }

  lemma WrapShift(x: int, k: int)
    ensures Wrap(x + WORD * k) == Wrap(x)
  {
    var q := (x + WORD * k) / WORD - k;
    assert x == WORD * q + Wrap(x + WORD * k);
  }

  // ---- The state machine -------------------------------------------------

  type Thread = nat

  datatype Op = One | Many(max: nat)

  // The next atomic access of a consumer, with the locals it depends on.
  datatype Pc =
    | Idle
    | LoadOver(op: Op, tail: nat)
    | LoadCount(op: Op, tail: nat, over: nat)
    | Reserve(op: Op, over: nat, want: nat)
    | LoadTail(op: Op, over: nat, want: nat, mine: nat)
    | GiveBack(want: nat, mine: nat, won: nat)
    | Take(mine: nat, won: nat)

  datatype State = State(
    tail: nat,     // tailIndex
    head: nat,     // headIndex
    count: nat,    // dequeueOptimisticCount
    over: nat,     // dequeueOvercommit
    pc: map<Thread, Pc>)

  datatype Action = Enqueue(n: nat) | Call(thread: Thread, op: Op) | Run(thread: Thread)

  predicate Enabled(s: State, a: Action) {
    match a
    case Enqueue(_) => true
    case Call(t, _) => t in s.pc && s.pc[t] == Idle
    case Run(t) => t in s.pc && s.pc[t] != Idle
  }

  function Min(a: nat, b: nat): nat {
    if a < b then a else b
  }

  // How many elements a consumer that has seen `used` of `tail` asks for: the
  // single form compares, the bulk form subtracts. Zero means give up.
  function Ask(op: Op, used: int, tail: nat): nat {
    match op
    case One => if CircularLess(Wrap(used), Wrap(tail)) then 1 else 0
    case Many(_) => if CircularLess(0, Wrap(tail - used)) then Wrap(tail - used) else 0
  }

  function Limit(op: Op): nat {
    match op
    case One => 1
    case Many(max) => max
  }

  function RunConsumer(s: State, t: Thread, p: Pc): State {
    match p
    case Idle => s
    case LoadOver(op, tail) => Goto(s, t, LoadCount(op, tail, s.over))
    case LoadCount(op, tail, over) =>
      var n := Ask(op, s.count - over, tail);
      Goto(s, t, if n > 0 then Reserve(op, over, Min(n, Limit(op))) else Idle)
    case Reserve(op, over, want) =>
      Goto(s, t, LoadTail(op, over, want, s.count)).(count := s.count + want)
    case LoadTail(op, over, want, mine) =>
      var n := Ask(op, mine - over, s.tail);
      var won := Min(want, n);
      Goto(s, t, if n > 0 && won == want then Take(mine, won) else GiveBack(want, mine, won))
    case GiveBack(want, mine, won) =>
      Goto(s, t, if won > 0 then Take(mine, won) else Idle).(
        over := s.over + if won <= want then want - won else 0)
    case Take(mine, won) => Goto(s, t, Idle).(head := s.head + won)
  }

  function Goto(s: State, t: Thread, p: Pc): State {
    s.(pc := s.pc[t := p])
  }

  function Step(s: State, a: Action): State
    requires Enabled(s, a)
  {
    match a
    case Enqueue(n) => s.(tail := s.tail + n)
    case Call(t, op) => Goto(s, t, LoadOver(op, s.tail))
    case Run(t) => RunConsumer(s, t, s.pc[t])
  }

  predicate Near(a: int, b: int) {
    -HALF < a - b <= HALF
  }

  // The counters a step compares are less than half the word range apart.
  predicate Fits(s: State, a: Action)
    requires Enabled(s, a)
  {
    a.Run? ==>
      match s.pc[a.thread]
      case LoadCount(_, tail, over) => Near(s.count - over, tail)
      case LoadTail(_, over, _, mine) => Near(mine - over, s.tail)
      case _ => true
  }

  lemma AskExact(op: Op, used: int, tail: nat)
    requires Near(used, tail)
    ensures Ask(op, used, tail) == if used >= tail then 0 else if op.One? then 1 else tail - used
  {
    CircularLessExact(used, tail);
    CircularLessExact(0, tail - used);
    WrapDifference(0, tail - used);
  }

  // ---- Reservations ------------------------------------------------------

  // Every unit ever added to the optimistic count has one fate. A consumer's
  // reservation starts pending; reading the tail decides it won or lost; then
  // the overcommit absorbs the lost part and the head the won part.
  datatype Unit = Pending(thread: Thread) | Won(thread: Thread) | Lost(thread: Thread) | Taken | Absorbed

  datatype Class = Winners | Losers | Takens | Absorbeds

  predicate In(u: Unit, c: Class) {
    match c
    case Winners => u.Won? || u.Taken?
    case Losers => u.Lost? || u.Absorbed?
    case Takens => u.Taken?
    case Absorbeds => u.Absorbed?
  }

  function Tally(us: seq<Unit>, c: Class): nat {
    if us == [] then 0
    else Tally(us[..|us| - 1], c) + if In(us[|us| - 1], c) then 1 else 0
  }

  lemma {:induction false} TallyConcat(xs: seq<Unit>, ys: seq<Unit>, c: Class)
    ensures Tally(xs + ys, c) == Tally(xs, c) + Tally(ys, c)
  {
    if ys == [] {
      assert xs + ys == xs;
    } else {
      TallyConcat(xs, ys[..|ys| - 1], c);
      assert (xs + ys)[..|xs + ys| - 1] == xs + ys[..|ys| - 1];
    }
  }

  lemma {:induction false} TallyUniform(us: seq<Unit>, u: Unit, c: Class)
    requires forall i :: 0 <= i < |us| ==> us[i] == u
    ensures Tally(us, c) == if In(u, c) then |us| else 0
  {
    if us != [] { TallyUniform(us[..|us| - 1], u, c); }
  }

  lemma {:induction false} TallyGrows(xs: seq<Unit>, ys: seq<Unit>, c: Class)
    requires |xs| == |ys| && forall i :: 0 <= i < |xs| && In(xs[i], c) ==> In(ys[i], c)
    ensures Tally(xs, c) <= Tally(ys, c)
  {
    if xs != [] { TallyGrows(xs[..|xs| - 1], ys[..|ys| - 1], c); }
  }

  lemma {:induction false} TallyDisjoint(us: seq<Unit>)
    ensures Tally(us, Winners) + Tally(us, Losers) <= |us|
    ensures Tally(us, Takens) <= Tally(us, Winners) && Tally(us, Absorbeds) <= Tally(us, Losers)
  {
    if us != [] { TallyDisjoint(us[..|us| - 1]); }
  }

  // Units [at, at + n) all become u.
  function Fill(us: seq<Unit>, at: nat, n: nat, u: Unit): seq<Unit>
    requires at + n <= |us|
  {
    us[..at] + seq(n, _ => u) + us[at + n..]
  }

  predicate All(us: seq<Unit>, at: nat, n: nat, u: Unit) {
    at + n <= |us| && forall i :: at <= i < at + n ==> us[i] == u
  }

  // Fill, unit by unit.
  predicate Filled(us: seq<Unit>, us': seq<Unit>, at: nat, n: nat, u: Unit) {
    |us'| == |us| && at + n <= |us|
    && forall k :: 0 <= k < |us| ==> us'[k] == if at <= k < at + n then u else us[k]
  }

  lemma FillIsFilled(us: seq<Unit>, at: nat, n: nat, u: Unit)
    requires at + n <= |us|
    ensures Filled(us, Fill(us, at, n, u), at, n, u)
  {
  }

  lemma FillTally(us: seq<Unit>, at: nat, n: nat, old': Unit, u: Unit, c: Class)
    requires All(us, at, n, old')
    ensures Tally(Fill(us, at, n, u), c) ==
      Tally(us, c) + (if In(u, c) then n else 0) - (if In(old', c) then n else 0)
  {
    var a, m, m', b := us[..at], us[at..at + n], seq(n, _ => u), us[at + n..];
    assert us == a + m + b;
    TallyConcat(a + m, b, c);
    TallyConcat(a, m, c);
    TallyConcat(a + m', b, c);
    TallyConcat(a, m', c);
    TallyUniform(m, old', c);
    TallyUniform(m', u, c);
  }

  // A won unit was free to win: the units below it that were not lost leave
  // room for it under the tail.
  ghost predicate Room(us: seq<Unit>, tail: nat) {
    forall k :: 0 <= k < |us| && In(us[k], Winners) ==> k + 1 <= tail + Tally(us[..k], Losers)
  }

  lemma {:induction false} RoomBound(us: seq<Unit>, tail: nat)
    requires Room(us, tail)
    ensures Tally(us, Winners) <= tail
  {
    if us != [] {
      var init := us[..|us| - 1];
      if In(us[|us| - 1], Winners) {
        TallyDisjoint(us);
      } else {
        forall k | 0 <= k < |init| ensures init[..k] == us[..k] {}
        RoomBound(init, tail);
      }
    }
  }

  // Room is kept when units only ever join the losers and new winners have room.
  lemma RoomKept(us: seq<Unit>, us': seq<Unit>, tail: nat, tail': nat)
    requires Room(us, tail) && tail <= tail' && |us| == |us'|
    requires forall i :: 0 <= i < |us| && In(us[i], Losers) ==> In(us'[i], Losers)
    requires forall k :: 0 <= k < |us| && In(us'[k], Winners) && !In(us[k], Winners)
               ==> k + 1 <= tail' + Tally(us[..k], Losers)
    ensures Room(us', tail')
  {
    forall k | 0 <= k < |us'| && In(us'[k], Winners)
      ensures k + 1 <= tail' + Tally(us'[..k], Losers)
    {
      TallyGrows(us[..k], us'[..k], Losers);
    }
  }

  // ---- The invariant -----------------------------------------------------

  ghost predicate ThreadOk(s: State, us: seq<Unit>, t: Thread, p: Pc) {
    match p
    case Idle => true
    case LoadOver(_, tail) => tail <= s.tail
    case LoadCount(_, tail, over) => tail <= s.tail && over <= s.over
    case Reserve(op, over, want) => over <= s.over && want <= Limit(op)
    case LoadTail(op, over, want, mine) =>
      All(us, mine, want, Pending(t)) && over <= Tally(us[..mine], Losers) && want <= Limit(op)
    case GiveBack(want, mine, won) =>
      won <= want && All(us, mine, won, Won(t)) && All(us, mine + won, want - won, Lost(t))
    case Take(mine, won) => All(us, mine, won, Won(t))
  }

  // A unit still in motion belongs to the reservation its thread is working on.
  predicate Belongs(p: Pc, u: Unit, k: nat) {
    match u
    case Pending(_) => p.LoadTail? && p.mine <= k < p.mine + p.want
    case Won(_) => (p.GiveBack? || p.Take?) && p.mine <= k < p.mine + p.won
    case Lost(_) => p.GiveBack? && p.mine + p.won <= k < p.mine + p.want
    case _ => true
  }

  predicate Moving(u: Unit) {
    u.Pending? || u.Won? || u.Lost?
  }

  ghost predicate Safe(s: State, us: seq<Unit>) {
    && |us| == s.count && Tally(us, Takens) == s.head && Tally(us, Absorbeds) == s.over
    && Room(us, s.tail)
    && (forall t :: t in s.pc ==> ThreadOk(s, us, t, s.pc[t]))
    && (forall k :: 0 <= k < |us| && Moving(us[k]) ==>
          us[k].thread in s.pc && Belongs(s.pc[us[k].thread], us[k], k))
  }

  ghost predicate Invariant(s: State) {
    exists us :: Safe(s, us)
  }

  // The fates after a consumer's step.
  function NextUnits(s: State, us: seq<Unit>, t: Thread, p: Pc): seq<Unit> {
    match p
    case Reserve(_, _, want) => us + seq(want, _ => Pending(t))
    case LoadTail(op, over, want, mine) =>
      var won := Min(want, Ask(op, mine - over, s.tail));
      if mine + want <= |us| then
        Fill(Fill(us, mine, won, Won(t)), mine + won, want - won, Lost(t))
      else us
    case GiveBack(want, mine, won) =>
      if won <= want && mine + want <= |us| then Fill(us, mine + won, want - won, Absorbed) else us
    case Take(mine, won) => if mine + won <= |us| then Fill(us, mine, won, Taken) else us
    case _ => us
  }

  // ---- Every step keeps the invariant ------------------------------------

  // Thread t changes only units of its own reservation and may append to it.
  ghost predicate OwnChange(us: seq<Unit>, us': seq<Unit>, t: Thread) {
    && |us| <= |us'|
    && (forall k :: 0 <= k < |us| && us'[k] != us[k] ==> Moving(us[k]) && us[k].thread == t)
    && (forall k :: 0 <= k < |us'| && (k < |us| ==> us'[k] != us[k]) && Moving(us'[k]) ==> us'[k].thread == t)
    && (forall k :: 0 <= k < |us| && In(us[k], Losers) ==> In(us'[k], Losers))
  }

  lemma ThreadKept(s: State, us: seq<Unit>, s': State, us': seq<Unit>, t: Thread, u: Thread, p: Pc)
    requires ThreadOk(s, us, u, p) && OwnChange(us, us', t) && u != t
    requires s.tail <= s'.tail && s.over <= s'.over
    ensures ThreadOk(s', us', u, p)
  {
    if p.LoadTail? { TallyGrows(us[..p.mine], us'[..p.mine], Losers); }
  }

  lemma Frame(s: State, us: seq<Unit>, s': State, us': seq<Unit>, t: Thread)
    requires Safe(s, us) && t in s.pc && t in s'.pc && s'.pc == s.pc[t := s'.pc[t]]
    requires s.tail <= s'.tail && s.over <= s'.over && OwnChange(us, us', t)
    requires |us'| == s'.count && Tally(us', Takens) == s'.head && Tally(us', Absorbeds) == s'.over
    requires Room(us', s'.tail) && ThreadOk(s', us', t, s'.pc[t])
    requires forall k :: 0 <= k < |us'| && Moving(us'[k]) && us'[k].thread == t ==> Belongs(s'.pc[t], us'[k], k)
    ensures Safe(s', us')
  {
    forall u | u in s'.pc ensures ThreadOk(s', us', u, s'.pc[u]) {
      if u != t { ThreadKept(s, us, s', us', t, u, s.pc[u]); }
    }
    hide ThreadOk, Room, Tally;
    forall k | 0 <= k < |us'| && Moving(us'[k])
      ensures us'[k].thread in s'.pc && Belongs(s'.pc[us'[k].thread], us'[k], k)
    {
      if us'[k].thread != t { assert us'[k] == us[k]; }
    }
  }

  lemma ReserveSafe(s: State, us: seq<Unit>, t: Thread)
    requires Safe(s, us) && t in s.pc && s.pc[t].Reserve?
    ensures Safe(RunConsumer(s, t, s.pc[t]), NextUnits(s, us, t, s.pc[t]))
  {
    var p := s.pc[t];
    var fresh' := seq(p.want, _ => Pending(t));
    var s', us' := RunConsumer(s, t, p), us + fresh';
    forall c ensures Tally(us', c) == Tally(us, c) {
      TallyConcat(us, fresh', c);
      TallyUniform(fresh', Pending(t), c);
    }
    forall k | 0 <= k < |us'| && In(us'[k], Winners) ensures k + 1 <= s.tail + Tally(us'[..k], Losers) {
      assert us'[..k] == us[..k];
    }
    assert us'[..s.count] == us;
    TallyDisjoint(us);
    assert ThreadOk(s, us, t, p);
    Frame(s, us, s', us', t);
  }

  lemma OwnFill(us: seq<Unit>, us': seq<Unit>, at: nat, n: nat, old': Unit, u: Unit, t: Thread)
    requires All(us, at, n, old') && Filled(us, us', at, n, u) && Moving(old') && old'.thread == t
    requires Moving(u) ==> u.thread == t
    requires In(old', Losers) ==> In(u, Losers)
    ensures OwnChange(us, us', t)
  {
  }

  // A reservation held by t whose units all become u: nothing else is t's.
  lemma TakeSafe(s: State, us: seq<Unit>, t: Thread)
    requires Safe(s, us) && t in s.pc && s.pc[t].Take?
    ensures Safe(RunConsumer(s, t, s.pc[t]), NextUnits(s, us, t, s.pc[t]))
  {
    hide Fill, Tally, Room;
    var p := s.pc[t];
    assert ThreadOk(s, us, t, p);
    var us' := Fill(us, p.mine, p.won, Taken);
    FillIsFilled(us, p.mine, p.won, Taken);
    OwnFill(us, us', p.mine, p.won, Won(t), Taken, t);
    FillTally(us, p.mine, p.won, Won(t), Taken, Takens);
    FillTally(us, p.mine, p.won, Won(t), Taken, Absorbeds);
    RoomKept(us, us', s.tail, s.tail);
    assert forall k :: 0 <= k < |us| && Moving(us[k]) && us[k].thread == t ==> Belongs(p, us[k], k);
    hide Safe, OwnChange;
    assert RunConsumer(s, t, p).pc[t] == Idle;
    Frame(s, us, RunConsumer(s, t, p), us', t);
  }

  lemma GiveBackSafe(s: State, us: seq<Unit>, t: Thread)
    requires Safe(s, us) && t in s.pc && s.pc[t].GiveBack?
    ensures Safe(RunConsumer(s, t, s.pc[t]), NextUnits(s, us, t, s.pc[t]))
  {
    hide Fill, Tally, Room;
    var p := s.pc[t];
    assert ThreadOk(s, us, t, p);
    var at, n := p.mine + p.won, p.want - p.won;
    var us' := Fill(us, at, n, Absorbed);
    FillIsFilled(us, at, n, Absorbed);
    OwnFill(us, us', at, n, Lost(t), Absorbed, t);
    FillTally(us, at, n, Lost(t), Absorbed, Takens);
    FillTally(us, at, n, Lost(t), Absorbed, Absorbeds);
    RoomKept(us, us', s.tail, s.tail);
    assert forall k :: 0 <= k < |us| && Moving(us[k]) && us[k].thread == t ==> Belongs(p, us[k], k);
    hide Safe, OwnChange;
    Frame(s, us, RunConsumer(s, t, p), us', t);
  }

  // The decision: of the pending units, the first `won` are won.
  predicate Decided(us: seq<Unit>, us': seq<Unit>, t: Thread, mine: nat, want: nat, won: nat) {
    && |us'| == |us| && mine + want <= |us| && won <= want
    && forall k :: 0 <= k < |us| ==>
         us'[k] == if mine <= k < mine + won then Won(t) else if mine + won <= k < mine + want then Lost(t) else us[k]
  }

  lemma DecideTally(us: seq<Unit>, t: Thread, mine: nat, want: nat, won: nat)
    requires All(us, mine, want, Pending(t)) && won <= want
    ensures var us' := Fill(Fill(us, mine, won, Won(t)), mine + won, want - won, Lost(t));
      Decided(us, us', t, mine, want, won)
      && Tally(us', Takens) == Tally(us, Takens) && Tally(us', Absorbeds) == Tally(us, Absorbeds)
  {
    hide Fill, Tally;
    var mid := Fill(us, mine, won, Won(t));
    FillIsFilled(us, mine, won, Won(t));
    FillIsFilled(mid, mine + won, want - won, Lost(t));
    FillTally(us, mine, won, Pending(t), Won(t), Takens);
    FillTally(mid, mine + won, want - won, Pending(t), Lost(t), Takens);
    FillTally(us, mine, won, Pending(t), Won(t), Absorbeds);
    FillTally(mid, mine + won, want - won, Pending(t), Lost(t), Absorbeds);
  }

  lemma DecideRoom(us: seq<Unit>, us': seq<Unit>, t: Thread, mine: nat, want: nat, won: nat, over: nat, tail: nat)
    requires All(us, mine, want, Pending(t)) && Decided(us, us', t, mine, want, won) && Room(us, tail)
    requires over <= Tally(us[..mine], Losers) && (won > 0 ==> mine - over + won <= tail)
    ensures Room(us', tail)
  {
    hide Tally, Room;
    forall k | 0 <= k < |us| && In(us'[k], Winners) && !In(us[k], Winners)
      ensures k + 1 <= tail + Tally(us[..k], Losers)
    {
      assert us[..k] == us[..mine] + us[mine..k];
      TallyConcat(us[..mine], us[mine..k], Losers);
    }
    RoomKept(us, us', tail, tail);
  }

  lemma DecideOwn(us: seq<Unit>, us': seq<Unit>, t: Thread, p: Pc, won: nat)
    requires p.LoadTail? && All(us, p.mine, p.want, Pending(t)) && Decided(us, us', t, p.mine, p.want, won)
    requires forall k :: 0 <= k < |us| && Moving(us[k]) && us[k].thread == t ==> Belongs(p, us[k], k)
    ensures OwnChange(us, us', t)
    ensures All(us', p.mine, won, Won(t)) && All(us', p.mine + won, p.want - won, Lost(t))
    ensures forall k :: 0 <= k < |us'| && Moving(us'[k]) && us'[k].thread == t ==>
              Belongs(GiveBack(p.want, p.mine, won), us'[k], k)
                && (won == p.want ==> Belongs(Take(p.mine, won), us'[k], k))
  {
  }

  lemma LoadTailSafe(s: State, us: seq<Unit>, t: Thread)
    requires Safe(s, us) && t in s.pc && s.pc[t].LoadTail? && Near(s.pc[t].mine - s.pc[t].over, s.tail)
    ensures Safe(RunConsumer(s, t, s.pc[t]), NextUnits(s, us, t, s.pc[t]))
  {
    hide Fill, Tally, Room, Decided, All, OwnChange;
    var p := s.pc[t];
    assert ThreadOk(s, us, t, p);
    AllWithin(us, p.mine, p.want, Pending(t));
    AskExact(p.op, p.mine - p.over, s.tail);
    var won := Min(p.want, Ask(p.op, p.mine - p.over, s.tail));
    var us' := NextUnits(s, us, t, p);
    DecideTally(us, t, p.mine, p.want, won);
    DecideRoom(us, us', t, p.mine, p.want, won, p.over, s.tail);
    DecideOwn(us, us', t, p, won);
    assert |us'| == |us| by { DecidedLength(us, us', t, p.mine, p.want, won); }
    hide Ask, Safe, NextUnits;
    Frame(s, us, RunConsumer(s, t, p), us', t);
  }

  lemma AllWithin(us: seq<Unit>, at: nat, n: nat, u: Unit)
    requires All(us, at, n, u)
    ensures at + n <= |us|
  {
  }

  lemma DecidedLength(us: seq<Unit>, us': seq<Unit>, t: Thread, mine: nat, want: nat, won: nat)
    requires Decided(us, us', t, mine, want, won)
    ensures |us'| == |us|
  {
  }

  lemma QuietSafe(s: State, us: seq<Unit>, t: Thread, p: Pc)
    requires Safe(s, us) && t in s.pc && ThreadOk(s, us, t, p)
    requires s.pc[t].Idle? || s.pc[t].LoadOver? || s.pc[t].LoadCount?
    requires p.Idle? || p.LoadOver? || p.LoadCount? || p.Reserve?
    ensures Safe(Goto(s, t, p), us)
  {
    forall k | 0 <= k < |us| && Moving(us[k]) ensures us[k].thread != t {}
    Frame(s, us, Goto(s, t, p), us, t);
  }

  lemma EnqueueSafe(s: State, us: seq<Unit>, n: nat)
    requires Safe(s, us)
    ensures Safe(s.(tail := s.tail + n), us)
  {
    forall t | t in s.pc ensures ThreadOk(s.(tail := s.tail + n), us, t, s.pc[t]) {
      assert ThreadOk(s, us, t, s.pc[t]);
    }
  }

  lemma StepSafe(s: State, a: Action)
    requires Invariant(s) && Enabled(s, a) && Fits(s, a)
    ensures Invariant(Step(s, a))
  {
    var us :| Safe(s, us);
    match a {
      case Enqueue(n) => EnqueueSafe(s, us, n);
      case Call(t, op) => QuietSafe(s, us, t, LoadOver(op, s.tail));
      case Run(t) =>
        match s.pc[t] {
          case LoadOver(op, tail) => QuietSafe(s, us, t, LoadCount(op, tail, s.over));
          case LoadCount(op, tail, over) => QuietSafe(s, us, t, RunConsumer(s, t, s.pc[t]).pc[t]);
          case Reserve(_, _, _) => ReserveSafe(s, us, t);
          case LoadTail(_, _, _, _) => LoadTailSafe(s, us, t);
          case GiveBack(_, _, _) => GiveBackSafe(s, us, t);
          case Take(_, _) => TakeSafe(s, us, t);
        }
    }
  }

  // ---- Whole runs --------------------------------------------------------

  predicate Init(s: State) {
    s.tail == 0 && s.head == 0 && s.count == 0 && s.over == 0 && forall t :: t in s.pc ==> s.pc[t] == Idle
  }

  ghost predicate IsRun(run: seq<State>, actions: seq<Action>) {
    && |run| == |actions| + 1 && Init(run[0])
    && forall i :: 0 <= i < |actions| ==>
         Enabled(run[i], actions[i]) && Fits(run[i], actions[i]) && run[i + 1] == Step(run[i], actions[i])
  }

  lemma {:induction false} RunsAreSafe(run: seq<State>, actions: seq<Action>, n: nat)
    requires IsRun(run, actions) && n < |run|
    ensures Invariant(run[n])
  {
    if n == 0 {
      assert Safe(run[0], []);
    } else {
      RunsAreSafe(run, actions, n - 1);
      StepSafe(run[n - 1], actions[n - 1]);
    }
  }

  // What a consumer is about to take exists: its whole range is below the tail.
  lemma TakesBelowTail(s: State, t: Thread)
    requires Invariant(s) && t in s.pc && s.pc[t].Take?
    ensures s.head + s.pc[t].won <= s.tail
  {
    var us: seq<Unit> :| Safe(s, us);
    var p := s.pc[t];
    assert ThreadOk(s, us, t, p);
    RoomBound(us, s.tail);
    WonUnits(us, p.mine, p.won, t);
  }

  // Units won and not yet taken count as winners beyond the taken ones.
  lemma WonUnits(us: seq<Unit>, at: nat, n: nat, t: Thread)
    requires All(us, at, n, Won(t))
    ensures Tally(us, Takens) + n <= Tally(us, Winners)
  {
    FillTally(us, at, n, Won(t), Taken, Winners);
    FillTally(us, at, n, Won(t), Taken, Takens);
    TallyDisjoint(Fill(us, at, n, Taken));
  }

  lemma HeadBelowTail(s: State)
    requires Invariant(s)
    ensures s.head <= s.tail
  {
    var us :| Safe(s, us);
    RoomBound(us, s.tail);
    TallyDisjoint(us);
  }

  function Indices(from: nat, n: nat): seq<nat> {
    seq(n, i requires 0 <= i => from + i)
  }

  // The indices handed out by the first n steps, in order.
  ghost function Given(run: seq<State>, actions: seq<Action>, n: nat): seq<nat>
    requires IsRun(run, actions) && n < |run|
  {
    if n == 0 then [] else
    var s, a := run[n - 1], actions[n - 1];
    Given(run, actions, n - 1) +
    if a.Run? && s.pc[a.thread].Take? then Indices(s.head, s.pc[a.thread].won) else []
  }

  lemma StartsEmpty(s: State)
    requires Init(s)
    ensures s.head == 0
  {
  }

  lemma OnlyTakesMoveTheHead(s: State, a: Action)
    requires Enabled(s, a)
    ensures Step(s, a).head == s.head + if a.Run? && s.pc[a.thread].Take? then s.pc[a.thread].won else 0
  {
  }

  // Safety over every run: the indices handed out are exactly 0, 1, 2, ... up
  // to the head, each once and in order, and all of them have been enqueued.
  lemma {:induction false} EachIndexOnce(run: seq<State>, actions: seq<Action>, n: nat)
    requires IsRun(run, actions) && n < |run|
    ensures Given(run, actions, n) == Indices(0, run[n].head)
    ensures run[n].head <= run[n].tail
  {
    hide Fits, Invariant, Init, Step;
    RunsAreSafe(run, actions, n);
    HeadBelowTail(run[n]);
    if n == 0 {
      StartsEmpty(run[0]);
    } else {
      EachIndexOnce(run, actions, n - 1);
      OnlyTakesMoveTheHead(run[n - 1], actions[n - 1]);
    }
  }

  // ---- When nobody is dequeuing ------------------------------------------

  lemma {:induction false} AllSettled(us: seq<Unit>)
    requires forall k :: 0 <= k < |us| ==> !Moving(us[k])
    ensures |us| == Tally(us, Takens) + Tally(us, Absorbeds)
  {
    if us != [] { AllSettled(us[..|us| - 1]); }
  }

  // The optimistic count, corrected by the overcommit, is then the head.
  lemma SettledCount(s: State)
    requires Invariant(s) && forall t :: t in s.pc ==> s.pc[t] == Idle
    ensures s.count == s.over + s.head
  {
    var us: seq<Unit> :| Safe(s, us);
    forall k | 0 <= k < |us| ensures !Moving(us[k]) {}
    AllSettled(us);
  }

  function RunFor(s: State, t: Thread, n: nat): State
    decreases n
  {
    if n == 0 || t !in s.pc then s else RunFor(RunConsumer(s, t, s.pc[t]), t, n - 1)
  }

  lemma Advance(s: State, t: Thread, p: Pc, n: nat)
    requires t in s.pc && p != Idle
    ensures RunFor(Goto(s, t, p), t, n + 1) == RunFor(RunConsumer(s, t, p), t, n)
  {
    hide RunFor;
    forall q ensures Goto(Goto(s, t, p), t, q) == Goto(s, t, q) {}
    assert RunConsumer(Goto(s, t, p), t, p) == RunConsumer(s, t, p);
    RunForUnfold(Goto(s, t, p), t, n);
  }

  lemma RunForUnfold(s: State, t: Thread, n: nat)
    requires t in s.pc
    ensures RunFor(s, t, n + 1) == RunFor(RunConsumer(s, t, s.pc[t]), t, n)
    ensures RunFor(s, t, 0) == s
    ensures s.pc[t] == Idle ==> RunFor(s, t, n) == s
  {
    if n > 0 && s.pc[t] == Idle { RunForUnfold(s, t, n - 1); }
  }

  // So a consumer that runs alone gets all it may have: the smaller of its
  // limit and what is left, and nothing only if the queue is empty.
  lemma LoneDequeueIsExact(s: State, t: Thread, op: Op)
    requires Invariant(s) && t in s.pc && (forall u :: u in s.pc ==> s.pc[u] == Idle)
    requires s.tail - s.head < HALF && Limit(op) > 0
    ensures s.head <= s.tail
    ensures var s' := RunFor(Step(s, Call(t, op)), t, 5);
      && s'.pc == s.pc && s'.tail == s.tail
      && s'.head == s.head + Min(Limit(op), s.tail - s.head)
      && s'.count - s'.over == s'.head
  {
    SettledCount(s);
    HeadBelowTail(s);
    AskExact(op, s.head, s.tail);
    hide *;
    StartLone(s, t, op);
    if s.head < s.tail {
      ReserveLone(s, t, op, Min(Limit(op), s.tail - s.head));
    }
  }

  lemma StartLone(s: State, t: Thread, op: Op)
    requires t in s.pc && s.pc[t] == Idle && s.count - s.over == s.head <= s.tail && s.tail - s.head < HALF
    requires Limit(op) > 0
    requires Ask(op, s.head, s.tail) == if s.head >= s.tail then 0 else if op.One? then 1 else s.tail - s.head
    ensures RunFor(Step(s, Call(t, op)), t, 5) ==
      if s.head < s.tail then RunFor(Goto(s, t, Reserve(op, s.over, Min(Limit(op), s.tail - s.head))), t, 3) else s
    ensures Min(Limit(op), s.tail - s.head) == if s.head < s.tail then Min(Ask(op, s.head, s.tail), Limit(op)) else 0
  {
    hide Ask, RunFor;
    Advance(s, t, LoadOver(op, s.tail), 4);
    Advance(s, t, LoadCount(op, s.tail, s.over), 3);
    assert Goto(s, t, Idle) == s;
    RunForUnfold(s, t, 3);
  }

  lemma ReserveLone(s: State, t: Thread, op: Op, n: nat)
    requires t in s.pc && s.pc[t] == Idle && s.count - s.over == s.head < s.tail
    requires n > 0 && n == Min(Ask(op, s.head, s.tail), Limit(op))
    ensures RunFor(Goto(s, t, Reserve(op, s.over, n)), t, 3) == s.(count := s.count + n, head := s.head + n)
  {
    hide Ask, RunFor;
    Advance(s, t, Reserve(op, s.over, n), 2);
    var r := s.(count := s.count + n);
    assert Ask(op, s.count - s.over, s.tail) == Ask(op, s.head, s.tail);
    Advance(r, t, LoadTail(op, s.over, n, s.count), 1);
    Advance(r, t, Take(s.count, n), 0);
    assert Goto(r, t, Idle) == r;
    RunForUnfold(RunConsumer(r, t, Take(s.count, n)), t, 0);
  }

  // ---- What a consumer does in any interleaving --------------------------

  // Its first look finds the elements that are not reserved; with none it gives
  // up, otherwise it reserves as many as it wants of them.
  lemma FirstLook(s: State, t: Thread)
    requires t in s.pc && s.pc[t].LoadCount? && Limit(s.pc[t].op) > 0 && Near(s.count - s.pc[t].over, s.pc[t].tail)
    ensures var p := s.pc[t];
      var left := p.tail - (s.count - p.over);
      RunConsumer(s, t, p) ==
        Goto(s, t, if left <= 0 then Idle
                   else Reserve(p.op, p.over, if left <= Limit(p.op) then left else Limit(p.op)))
  {
    AskExact(s.pc[t].op, s.count - s.pc[t].over, s.pc[t].tail);
  }

  // Its second look, after reserving, finds how many of them there are by now:
  // it takes what it reserved, or what is left, and gives the others back.
  lemma SecondLook(s: State, t: Thread)
    requires t in s.pc && s.pc[t].LoadTail? && 0 < s.pc[t].want <= Limit(s.pc[t].op)
    requires Near(s.pc[t].mine - s.pc[t].over, s.tail)
    ensures var p := s.pc[t];
      var left := s.tail - (p.mine - p.over);
      RunConsumer(s, t, p) ==
        Goto(s, t, if left >= p.want then Take(p.mine, p.want)
                   else GiveBack(p.want, p.mine, if left <= 0 then 0 else left))
  {
    AskExact(s.pc[t].op, s.pc[t].mine - s.pc[t].over, s.tail);
  }

  // A consumer goes away with nothing only where one of its looks found
  // nothing: the first, or the second, after which it has given back all it
  // reserved.
  lemma NothingOnlyFromEmpty(s: State, t: Thread)
    requires t in s.pc && s.pc[t] != Idle && Limit(OpOf(s.pc[t])) > 0 && Fits(s, Run(t))
    requires RunConsumer(s, t, s.pc[t]).pc[t] == Idle && !s.pc[t].Take?
    ensures match s.pc[t]
      case LoadCount(_, tail, over) => s.count - over >= tail
      case GiveBack(want, _, won) => won == 0 && RunConsumer(s, t, s.pc[t]).over == s.over + want
      case _ => false
  {
    if s.pc[t].LoadCount? { FirstLook(s, t); }
  }

  function OpOf(p: Pc): Op {
    if p.LoadOver? || p.LoadCount? || p.Reserve? || p.LoadTail? then p.op else One
  }

  function Enqueued(actions: seq<Action>): nat {
    if actions == [] then 0
    else Enqueued(actions[..|actions| - 1]) + if actions[|actions| - 1].Enqueue? then actions[|actions| - 1].n else 0
  }

  // Over every run the tail counts what was enqueued, so the indices given out,
  // and those still there, are together those of the elements enqueued.
  lemma {:induction false} TailCounts(run: seq<State>, actions: seq<Action>, n: nat)
    requires IsRun(run, actions) && n <= |actions|
    ensures run[n].head <= run[n].tail == Enqueued(actions[..n])
    ensures Given(run, actions, n) + Indices(run[n].head, run[n].tail - run[n].head)
      == Indices(0, Enqueued(actions[..n]))
  {
    EachIndexOnce(run, actions, n);
    TailGrows(run, actions, n);
  }

  lemma {:induction false} TailGrows(run: seq<State>, actions: seq<Action>, n: nat)
    requires IsRun(run, actions) && n <= |actions|
    ensures run[n].tail == Enqueued(actions[..n])
  {
    if n > 0 {
      TailGrows(run, actions, n - 1);
      assert actions[..n][..n - 1] == actions[..n - 1];
      assert run[n] == Step(run[n - 1], actions[n - 1]);
    }
  }
}
