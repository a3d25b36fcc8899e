/**
 * The lightweight semaphore: a counter in front of a kernel semaphore.
 *
 * Any number of threads wait (for one permit or many, with or without a
 * timeout) and signal. Each atomic access is one step; a weak compare-and-swap
 * may fail for no reason, and a kernel wait may give up at any moment.
 */
module Semaphore {

  datatype Timeout = Forever | Now | Later

  // What follows a `tryWaitMany` that got nothing.
  datatype Next = Return | Spin(timeout: Timeout)

  // The next access of a thread. `max` is how many more permits it would take.
  datatype Pc =
    | Idle
    // tryWaitMany (tryWait is the case max == 1)
    | TryLoad(max: nat, next: Next)
    | TryCas(max: nat, seen: int, next: Next)
    // the spin loop of a wait, then its fetch_sub
    | SpinLoad(max: nat, spins: nat, timeout: Timeout)
    | SpinCas(max: nat, seen: int, spins: nat, timeout: Timeout)
    | Subtract(max: nat, timeout: Timeout)
    // the thread has subtracted and has no permit yet
    | Sleep(max: nat)
    | Recheck(max: nat)
    | TryKernel(max: nat)
    | Undo(max: nat, seen: int)
    // signal: kernel posts still to be made
    | Post(posts: nat)

  // `acquired` and `signalled` count the permits handed to waiters and given
  // by signallers since the start; `asked` and `got` belong to each thread's
  // current (or last) call and are what it asked for and has acquired.
  datatype State = State(
    count: int, kernel: nat, maxSpins: nat, pc: seq<Pc>,
    initial: nat, acquired: nat, signalled: nat,
    asked: seq<nat>, got: seq<nat>)

  datatype Action =
    | TryWait(t: nat, max: nat)
    | Wait(t: nat, max: nat, timeout: Timeout)
    | Signal(t: nat, n: nat)
    | Run(t: nat)        // the next access of the thread
    | Spurious(t: nat)   // a weak swap fails without cause
    | GiveUp(t: nat)     // the kernel wait times out or reports an error

  predicate Enabled(s: State, a: Action) {
    a.t < |s.pc| &&
    match a
    case TryWait(t, _) => s.pc[t] == Idle
    case Wait(t, max, _) => s.pc[t] == Idle && max > 0
    case Signal(t, _) => s.pc[t] == Idle
    case Run(t) => s.pc[t] != Idle && (s.pc[t].Sleep? ==> s.kernel > 0)
    case Spurious(t) => s.pc[t].TryCas?
    case GiveUp(t) => s.pc[t].Sleep?
  }

  function Goto(s: State, t: nat, p: Pc): State
    requires t < |s.pc|
  {
    s.(pc := s.pc[t := p])
  }

  // Thread t has acquired n permits and moves on to p.
  function Acquire(s: State, t: nat, n: nat, p: Pc): State
    requires t < |s.pc| == |s.got|
  {
    Goto(s, t, p).(acquired := s.acquired + n, got := s.got[t := s.got[t] + n])
  }

  // What is left after taking up to max permits from a positive count.
  function Left(seen: int, max: nat): int {
    if seen > max then seen - max else 0
  }

  function AfterTry(s: State, max: nat, seen: int, next: Next): Pc {
    if seen > 0 then TryCas(max, seen, next)
    else match next
         case Return => Idle
         case Spin(timeout) => AfterSpin(max, s.maxSpins, timeout)
  }

  function AfterSpin(max: nat, spins: nat, timeout: Timeout): Pc {
    if spins > 0 then SpinLoad(max, spins - 1, timeout) else Subtract(max, timeout)
  }

  // A waiter that got one permit greedily tries for the rest.
  function Rest(max: nat): Pc {
    if max > 1 then TryLoad(max - 1, Return) else Idle
  }

  // The swap of `seen` for what is left after taking up to max permits.
  function Swap(s: State, t: nat, seen: int, max: nat, otherwise: Pc): State
    requires t < |s.pc| == |s.got| && seen > 0
  {
    if s.count == seen then
      Acquire(s, t, seen - Left(seen, max), Idle).(count := Left(seen, max))
    else Goto(s, t, otherwise)
  }

  function TakeKernel(s: State, t: nat, max: nat): State
    requires t < |s.pc| == |s.got| && s.kernel > 0
  {
    Acquire(s, t, 1, Rest(max)).(kernel := s.kernel - 1)
  }

  // Narrowing to a signed 32-bit integer.
  function ToInt(x: int): int {
    (x + 0x8000_0000) % 0x1_0000_0000 - 0x8000_0000
  }

  function AfterPost(posts: int): Pc {
    if posts > 0 then Post(posts) else Idle
  }

  // Permits are swapped out of a positive count only, a wait is undone only on
  // a negative one.
  predicate Wf(p: Pc) {
    && (p.TryCas? ==> p.seen > 0) && (p.SpinCas? ==> p.seen > 0)
    && (p.Undo? ==> p.seen < 0) && (p.Post? ==> p.posts > 0)
  }

  function RunThread(s: State, t: nat, p: Pc): State
    requires t < |s.pc| == |s.got| && Wf(p) && (p.Sleep? ==> s.kernel > 0)
  {
    match p
    case Idle => s
    case TryLoad(max, next) => Goto(s, t, AfterTry(s, max, s.count, next))
    case TryCas(max, seen, next) => Swap(s, t, seen, max, AfterTry(s, max, s.count, next))
    case SpinLoad(max, spins, timeout) =>
      Goto(s, t, if s.count > 0 then SpinCas(max, s.count, spins, timeout) else AfterSpin(max, spins, timeout))
    case SpinCas(max, seen, spins, timeout) => Swap(s, t, seen, max, AfterSpin(max, spins, timeout))
    case Subtract(max, timeout) =>
      if s.count > 0 then Acquire(s, t, 1, Rest(max)).(count := s.count - 1)
      else Goto(s, t, if timeout.Now? then Recheck(max) else Sleep(max)).(count := s.count - 1)
    case Sleep(max) => TakeKernel(s, t, max)
    case Recheck(max) => Goto(s, t, if s.count >= 0 then TryKernel(max) else Undo(max, s.count))
    case TryKernel(max) => if s.kernel > 0 then TakeKernel(s, t, max) else Goto(s, t, Recheck(max))
    case Undo(max, seen) =>
      if s.count == seen then Goto(s, t, Idle).(count := seen + 1) else Goto(s, t, Recheck(max))
    case Post(posts) => Goto(s, t, AfterPost(posts - 1)).(kernel := s.kernel + 1)
  }

  predicate WfState(s: State) {
    |s.pc| == |s.got| == |s.asked| && forall t :: 0 <= t < |s.pc| ==> Wf(s.pc[t])
  }

  function Begin(s: State, t: nat, max: nat, p: Pc): State
    requires t < |s.pc| == |s.got| == |s.asked|
  {
    Goto(s, t, p).(asked := s.asked[t := max], got := s.got[t := 0])
  }

  function Step(s: State, a: Action): State
    requires Enabled(s, a) && WfState(s)
  {
    match a
    case TryWait(t, max) => Begin(s, t, max, TryLoad(max, Return))
    case Wait(t, max, timeout) => Begin(s, t, max, TryLoad(max, Spin(timeout)))
    case Signal(t, n) =>
      var release := Min(-s.count, n);
      Goto(s, t, if release > 0 then AfterPost(ToInt(release)) else Idle).(
        count := s.count + n, signalled := s.signalled + n)
    case Run(t) => RunThread(s, t, s.pc[t])
    case Spurious(t) => Goto(s, t, AfterTry(s, s.pc[t].max, s.count, s.pc[t].next))
    case GiveUp(t) => Goto(s, t, Recheck(s.pc[t].max))
  }

  function Min(a: int, b: int): int {
    if a < b then a else b
  }

  function Pos(x: int): nat {
    if x > 0 then x else 0
  }

  // ---- Conservation ------------------------------------------------------

  // The thread has lowered the count and has neither a permit nor undone it.
  function Waiting(p: Pc): nat {
    if p.Sleep? || p.Recheck? || p.TryKernel? || p.Undo? then 1 else 0
  }

  function Posting(p: Pc): nat {
    if p.Post? then p.posts else 0
  }

  function Waiters(pc: seq<Pc>): nat {
    if pc == [] then 0 else Waiters(pc[..|pc| - 1]) + Waiting(pc[|pc| - 1])
  }

  function Posts(pc: seq<Pc>): nat {
    if pc == [] then 0 else Posts(pc[..|pc| - 1]) + Posting(pc[|pc| - 1])
  }

  lemma {:induction false} SumsMoved(pc: seq<Pc>, t: nat, p: Pc)
    requires t < |pc|
    ensures Waiters(pc[t := p]) == Waiters(pc) - Waiting(pc[t]) + Waiting(p)
    ensures Posts(pc[t := p]) == Posts(pc) - Posting(pc[t]) + Posting(p)
  {
    var n := |pc| - 1;
    if t < n {
      SumsMoved(pc[..n], t, p);
      assert pc[t := p][..n] == pc[..n][t := p];
    } else {
      assert pc[t := p][..n] == pc[..n];
    }
  }

  lemma {:induction false} WaitersBound(pc: seq<Pc>)
    ensures Waiters(pc) <= |pc|
  {
    if pc != [] { WaitersBound(pc[..|pc| - 1]); }
  }

  // Waiters without a permit are those the count still owes, those a kernel
  // permit is ready for, and those whose post is on its way; and every permit
  // ever given is acquired, in the count, in the kernel or on its way.
  predicate Conserved(s: State) {
    && WfState(s) && |s.pc| < 0x8000_0000
    && Waiters(s.pc) == Pos(-s.count) + s.kernel + Posts(s.pc)
    && s.acquired + Pos(s.count) + s.kernel + Posts(s.pc) == s.initial + s.signalled
  }

  // Thread t moves to p while the counters change as given.
  lemma MoveConserves(s: State, s': State, t: nat, p: Pc)
    requires Conserved(s) && t < |s.pc| && s'.pc == s.pc[t := p] && Wf(p) && s'.initial == s.initial
    requires |s'.got| == |s.got| && |s'.asked| == |s.asked|
    requires Waiting(p) - Pos(-s'.count) - s'.kernel - Posting(p) ==
             Waiting(s.pc[t]) - Pos(-s.count) - s.kernel - Posting(s.pc[t])
    requires s'.acquired + Pos(s'.count) + s'.kernel + Posting(p) - s'.signalled ==
             s.acquired + Pos(s.count) + s.kernel + Posting(s.pc[t]) - s.signalled
    ensures Conserved(s')
  {
    SumsMoved(s.pc, t, p);
  }

  lemma WaiterConserves(s: State, t: nat)
    requires Conserved(s) && Enabled(s, Run(t)) && (Waiting(s.pc[t]) == 1 || s.pc[t].Post?)
    ensures WfState(s) && Conserved(RunThread(s, t, s.pc[t]))
  {
    assert Wf(s.pc[t]) && WfState(s);
    hide Conserved, WfState;
    var s' := RunThread(s, t, s.pc[t]);
    MoveConserves(s, s', t, s'.pc[t]);
  }

  lemma RunConserves(s: State, t: nat)
    requires Conserved(s) && Enabled(s, Run(t))
    ensures WfState(s) && Conserved(RunThread(s, t, s.pc[t]))
  {
    if Waiting(s.pc[t]) == 1 || s.pc[t].Post? {
      WaiterConserves(s, t);
    } else {
      assert Wf(s.pc[t]) && WfState(s);
      hide Conserved, WfState;
      var s' := RunThread(s, t, s.pc[t]);
      MoveConserves(s, s', t, s'.pc[t]);
    }
  }

  lemma CallConserves(s: State, a: Action)
    requires Conserved(s) && Enabled(s, a) && !a.Run?
    ensures WfState(s) && Conserved(Step(s, a))
  {
    WaitersBound(s.pc);
    assert Wf(s.pc[a.t]) && WfState(s) && Pos(-s.count) <= |s.pc| < 0x8000_0000;
    hide Conserved, WfState;
    MoveConserves(s, Step(s, a), a.t, Step(s, a).pc[a.t]);
  }

  lemma StepConserves(s: State, a: Action)
    requires Conserved(s) && Enabled(s, a)
    ensures Conserved(Step(s, a))
  {
    hide Conserved, Waiters, Posts, RunThread;
    if a.Run? {
      RunConserves(s, a.t);
    } else {
      CallConserves(s, a);
    }
  }

  // ---- Whole runs --------------------------------------------------------

  ghost predicate Init(s: State) {
    && s.count == s.initial && s.kernel == 0 && s.acquired == 0 && s.signalled == 0
    && |s.pc| == |s.got| == |s.asked| < 0x8000_0000
    && forall t :: 0 <= t < |s.pc| ==> s.pc[t] == Idle && s.got[t] <= s.asked[t]
  }

  ghost predicate IsRun(run: seq<State>, actions: seq<Action>) {
    && |run| == |actions| + 1 && Init(run[0])
    && forall i :: 0 <= i < |actions| ==>
         WfState(run[i]) && Enabled(run[i], actions[i]) && run[i + 1] == Step(run[i], actions[i])
  }

  lemma {:induction false} NobodyMoves(pc: seq<Pc>)
    requires forall t :: 0 <= t < |pc| ==> pc[t] == Idle
    ensures Waiters(pc) == 0 && Posts(pc) == 0
  {
    if pc != [] { NobodyMoves(pc[..|pc| - 1]); }
  }

  // Both conservation laws hold after every step of every run, so permits are
  // never over-granted.
  lemma {:induction false} RunsConserve(run: seq<State>, actions: seq<Action>, n: nat)
    requires IsRun(run, actions) && n < |run|
    ensures Conserved(run[n]) && run[n].initial == run[0].initial
    ensures run[n].acquired <= run[0].initial + run[n].signalled
  {
    if n == 0 {
      NobodyMoves(run[0].pc);
    } else {
      RunsConserve(run, actions, n - 1);
      StepConserves(run[n - 1], actions[n - 1]);
    }
  }

  // No wake-up is lost: if some thread sleeps without a permit although the
  // count owes nobody, a kernel permit is ready or a post is on its way.
  lemma {:induction false} NoLostWakeUp(s: State, t: nat)
    requires Conserved(s) && t < |s.pc| && s.pc[t].Sleep? && s.count >= 0
    ensures s.kernel > 0 || exists u :: 0 <= u < |s.pc| && s.pc[u].Post?
  {
    WaiterCounts(s.pc, t);
    if s.kernel == 0 { SomePost(s.pc); }
  }

  lemma {:induction false} WaiterCounts(pc: seq<Pc>, t: nat)
    requires t < |pc|
    ensures Waiters(pc) >= Waiting(pc[t])
  {
    if t < |pc| - 1 { WaiterCounts(pc[..|pc| - 1], t); }
  }

  lemma {:induction false} SomePost(pc: seq<Pc>)
    requires Posts(pc) > 0
    ensures exists u :: 0 <= u < |pc| && pc[u].Post?
  {
    var n := |pc| - 1;
    if pc[n].Post? {
    } else {
      SomePost(pc[..n]);
      var u :| 0 <= u < n && pc[..n][u].Post?;
      assert pc[u].Post?;
    }
  }

  // With everybody outside, every permit not acquired is in the count.
  lemma NothingLost(s: State)
    requires Conserved(s) && forall t :: 0 <= t < |s.pc| ==> s.pc[t] == Idle
    ensures s.count == s.initial + s.signalled - s.acquired && s.kernel == 0
  {
    NobodyMoves(s.pc);
  }

  // ---- What one call gets ------------------------------------------------

  // How many more permits the call may still acquire.
  function More(p: Pc): nat {
    if p.Idle? || p.Post? then 0 else p.max
  }

  // A call that has reached its wait has nothing yet.
  predicate EmptyHanded(p: Pc) {
    p.SpinLoad? || p.SpinCas? || p.Subtract? || p.Sleep? || p.Recheck? || p.TryKernel? || p.Undo?
    || (p.TryLoad? && p.next.Spin?) || (p.TryCas? && p.next.Spin?)
  }

  predicate CallOk(p: Pc, got: nat, asked: nat) {
    got + More(p) <= asked && (EmptyHanded(p) ==> got == 0 && p.max > 0)
  }

  predicate CallsOk(s: State) {
    WfState(s) && forall t :: 0 <= t < |s.pc| ==> CallOk(s.pc[t], s.got[t], s.asked[t])
  }

  ghost predicate OnlyAt(s: State, s': State, t: nat) {
    && t < |s.pc| == |s.got| == |s.asked| == |s'.pc| == |s'.got| == |s'.asked|
    && s'.pc == s.pc[t := s'.pc[t]] && s'.got == s.got[t := s'.got[t]] && s'.asked == s.asked[t := s'.asked[t]]
  }

  lemma OnlyAtKeepsCalls(s: State, s': State, t: nat)
    requires CallsOk(s) && OnlyAt(s, s', t) && Wf(s'.pc[t]) && CallOk(s'.pc[t], s'.got[t], s'.asked[t])
    ensures CallsOk(s')
  {
    hide Wf, CallOk;
  }

  lemma RunKeepsCall(s: State, t: nat, p: Pc)
    requires t < |s.pc| == |s.got| == |s.asked| && p == s.pc[t] && Wf(p) && (p.Sleep? ==> s.kernel > 0)
    requires CallOk(p, s.got[t], s.asked[t])
    ensures var s' := RunThread(s, t, p);
      && OnlyAt(s, s', t) && Wf(s'.pc[t]) && CallOk(s'.pc[t], s'.got[t], s'.asked[t])
      && (EmptyHanded(p) && s'.pc[t] == Idle && !p.Undo? ==> s'.got[t] > 0)
  {
  }

  // No call ever acquires more than it asked for, and a wait that returns has
  // acquired something unless it returns by undoing its subtraction.
  lemma StepKeepsCalls(s: State, a: Action)
    requires CallsOk(s) && Enabled(s, a)
    ensures CallsOk(Step(s, a))
    ensures EmptyHanded(s.pc[a.t]) && Step(s, a).pc[a.t] == Idle && !s.pc[a.t].Undo? ==> Step(s, a).got[a.t] > 0
  {
    var s' := Step(s, a);
    assert CallOk(s.pc[a.t], s.got[a.t], s.asked[a.t]) && Wf(s.pc[a.t]);
    if a.Run? { RunKeepsCall(s, a.t, s.pc[a.t]); }
    hide CallsOk, RunThread;
    OnlyAtKeepsCalls(s, s', a.t);
  }

  lemma {:induction false} CallsStayOk(run: seq<State>, actions: seq<Action>, n: nat, t: nat)
    requires IsRun(run, actions) && n < |run|
    ensures CallsOk(run[n])
    ensures t < |run[n].pc| ==> run[n].got[t] <= run[n].asked[t]
  {
    if n > 0 {
      CallsStayOk(run, actions, n - 1, t);
      StepKeepsCalls(run[n - 1], actions[n - 1]);
    }
    assert t < |run[n].pc| ==> CallOk(run[n].pc[t], run[n].got[t], run[n].asked[t]);
  }

  // ---- A thread that runs alone ------------------------------------------

  // Up to n accesses of thread t, until it is outside or asleep without a
  // kernel permit.
  function RunFor(s: State, t: nat, n: nat): State
    decreases n
  {
    if n == 0 || !WfState(s) || !Enabled(s, Run(t)) then s else RunFor(Step(s, Run(t)), t, n - 1)
  }

  // Thread t's call has got n permits out of the count and is over.
  function Served(s: State, t: nat, max: nat, n: nat): State
    requires t < |s.got| == |s.asked|
  {
    s.(count := s.count - n, acquired := s.acquired + n, asked := s.asked[t := max], got := s.got[t := n])
  }

  lemma Advance(s: State, t: nat, n: nat)
    requires WfState(s) && t < |s.pc| && s.pc[t] != Idle && (s.pc[t].Sleep? ==> s.kernel > 0)
    ensures Wf(s.pc[t]) && RunFor(s, t, n + 1) == RunFor(RunThread(s, t, s.pc[t]), t, n)
  {
  }

  lemma Stays(s: State, t: nat, n: nat)
    requires t < |s.pc| && s.pc[t] == Idle
    ensures RunFor(s, t, n) == s
  {
  }

  // A try that runs alone gets the smaller of what it asks for and what the
  // count has to give.
  lemma TryAlone(s: State, t: nat, max: nat, next: Next)
    requires WfState(s) && t < |s.pc| && s.pc[t] == Idle && s.count > 0
    ensures RunFor(Begin(s, t, max, TryLoad(max, next)), t, 2) == Served(s, t, max, Min(max, s.count))
  {
    hide RunFor;
    var s0 := Begin(s, t, max, TryLoad(max, next));
    Advance(s0, t, 1);
    var s1 := Goto(s0, t, TryCas(max, s.count, next));
    assert RunThread(s0, t, s0.pc[t]) == s1;
    Advance(s1, t, 0);
    var s2 := Served(s, t, max, Min(max, s.count));
    assert s.pc[t := TryLoad(max, next)][t := TryCas(max, s.count, next)][t := Idle] == s.pc;
    assert s.got[t := 0][t := Min(max, s.count)] == s.got[t := Min(max, s.count)];
    assert RunThread(s1, t, s1.pc[t]) == s2;
    Stays(s2, t, 0);
  }

  lemma LoneTryWait(s: State, t: nat, max: nat)
    requires WfState(s) && t < |s.pc| && s.pc[t] == Idle
    ensures RunFor(Step(s, TryWait(t, max)), t, 2) == Served(s, t, max, Min(max, Pos(s.count)))
  {
    if s.count > 0 {
      TryAlone(s, t, max, Return);
    } else {
      hide RunFor;
      var s0 := Begin(s, t, max, TryLoad(max, Return));
      Advance(s0, t, 1);
      assert s.pc[t := TryLoad(max, Return)][t := Idle] == s.pc;
      assert RunThread(s0, t, s0.pc[t]) == Served(s, t, max, 0);
      Stays(Served(s, t, max, 0), t, 1);
    }
  }

  // A wait that runs alone does the same if the count is positive.
  lemma LoneWaitMany(s: State, t: nat, max: nat, timeout: Timeout)
    requires WfState(s) && t < |s.pc| && s.pc[t] == Idle && max > 0 && s.count > 0
    ensures RunFor(Step(s, Wait(t, max, timeout)), t, 2) == Served(s, t, max, Min(max, s.count))
  {
    TryAlone(s, t, max, Spin(timeout));
  }

  // Where a wait is after spinning in vain.
  lemma {:induction false} SpinAlone(s: State, t: nat, max: nat, spins: nat, timeout: Timeout, n: nat)
    requires WfState(s) && t < |s.pc| && s.count <= 0 && s.pc[t] == AfterSpin(max, spins, timeout)
    ensures RunFor(s, t, spins + n) == RunFor(Goto(s, t, Subtract(max, timeout)), t, n)
    decreases spins
  {
    if spins > 0 {
      hide RunFor;
      Advance(s, t, spins - 1 + n);
      var s1 := Goto(s, t, AfterSpin(max, spins - 1, timeout));
      assert RunThread(s, t, s.pc[t]) == s1;
      SpinAlone(s1, t, max, spins - 1, timeout, n);
      assert Goto(s1, t, Subtract(max, timeout)) == Goto(s, t, Subtract(max, timeout));
    } else {
      assert Goto(s, t, Subtract(max, timeout)) == s;
    }
  }

  // A wait without time that runs alone on a count with nothing to give spins,
  // and then leaves everything as it was.
  lemma LoneWaitGivesUp(s: State, t: nat, max: nat)
    requires WfState(s) && t < |s.pc| && s.pc[t] == Idle && max > 0 && s.count <= 0
    ensures RunFor(Step(s, Wait(t, max, Now)), t, s.maxSpins + 4) == Served(s, t, max, 0)
  {
    hide RunFor;
    var s0 := Begin(s, t, max, TryLoad(max, Spin(Now)));
    Advance(s0, t, s.maxSpins + 3);
    var s1 := Goto(s0, t, AfterSpin(max, s.maxSpins, Now));
    assert RunThread(s0, t, s0.pc[t]) == s1;
    SpinAlone(s1, t, max, s.maxSpins, Now, 3);
    GiveUpAlone(s, s0, s1, t, max);
  }

  lemma GiveUpAlone(s: State, s0: State, s1: State, t: nat, max: nat)
    requires WfState(s) && t < |s.pc| && s.pc[t] == Idle && s.count <= 0
    requires s0 == Begin(s, t, max, TryLoad(max, Spin(Now))) && |s1.pc| == |s.pc| && s1 == Goto(s0, t, s1.pc[t])
    ensures RunFor(Goto(s1, t, Subtract(max, Now)), t, 3) == Served(s, t, max, 0)
  {
    hide RunFor;
    var s2 := Goto(s1, t, Subtract(max, Now));
    Advance(s2, t, 2);
    var s3 := Goto(s2, t, Recheck(max)).(count := s.count - 1);
    assert RunThread(s2, t, s2.pc[t]) == s3;
    Advance(s3, t, 1);
    var s4 := Goto(s3, t, Undo(max, s.count - 1));
    assert RunThread(s3, t, s3.pc[t]) == s4;
    Advance(s4, t, 0);
    var s5 := Served(s, t, max, 0);
    assert s4.pc[t := Idle] == s.pc;
    assert RunThread(s4, t, s4.pc[t]) == s5;
    Stays(s5, t, 0);
  }

  // A wait that may sleep goes to sleep with the count lowered by one.
  lemma LoneWaitSleeps(s: State, t: nat, max: nat, timeout: Timeout)
    requires WfState(s) && t < |s.pc| && s.pc[t] == Idle && max > 0 && s.count <= 0 && timeout != Now
    ensures RunFor(Step(s, Wait(t, max, timeout)), t, s.maxSpins + 2)
         == s.(count := s.count - 1, pc := s.pc[t := Sleep(max)], asked := s.asked[t := max], got := s.got[t := 0])
  {
    hide RunFor;
    var s0 := Begin(s, t, max, TryLoad(max, Spin(timeout)));
    Advance(s0, t, s.maxSpins + 1);
    var s1 := Goto(s0, t, AfterSpin(max, s.maxSpins, timeout));
    assert RunThread(s0, t, s0.pc[t]) == s1;
    SpinAlone(s1, t, max, s.maxSpins, timeout, 1);
    var s2 := Goto(s1, t, Subtract(max, timeout));
    Advance(s2, t, 0);
    var s3 := s.(count := s.count - 1, pc := s.pc[t := Sleep(max)], asked := s.asked[t := max], got := s.got[t := 0]);
    assert s2.pc[t := Sleep(max)] == s3.pc;
    assert RunThread(s2, t, s2.pc[t]) == s3;
    Done(s3, t);
  }

  lemma Done(s: State, t: nat)
    ensures RunFor(s, t, 0) == s
  {
  }

  // A signal that runs alone gives n permits, and posts one for every sleeper
  // the count owed, up to n.
  lemma LoneSignal(s: State, t: nat, n: nat)
    requires Conserved(s) && t < |s.pc| && s.pc[t] == Idle
    ensures WfState(s)
    ensures var release := Pos(Min(-s.count, n));
      RunFor(Step(s, Signal(t, n)), t, release)
        == s.(count := s.count + n, signalled := s.signalled + n, kernel := s.kernel + release)
  {
    hide RunFor;
    WaitersBound(s.pc);
    var release := Pos(Min(-s.count, n));
    var s1 := s.(count := s.count + n, signalled := s.signalled + n);
    assert release <= |s.pc| < 0x8000_0000 && (release > 0 ==> ToInt(release) == release);
    assert Step(s, Signal(t, n)) == Goto(s1, t, AfterPost(release));
    PostAlone(s1, t, release);
  }

  lemma {:induction false} PostAlone(s: State, t: nat, posts: nat)
    requires WfState(s) && t < |s.pc| && s.pc[t] == Idle
    ensures RunFor(Goto(s, t, AfterPost(posts)), t, posts) == s.(kernel := s.kernel + posts)
    decreases posts
  {
    if posts == 0 {
      assert Goto(s, t, Idle) == s;
    } else {
      hide RunFor;
      var s1 := Goto(s, t, Post(posts));
      Advance(s1, t, posts - 1);
      var s2 := s.(kernel := s.kernel + 1);
      assert s.pc[t := Post(posts)][t := AfterPost(posts - 1)] == s.pc[t := AfterPost(posts - 1)];
      assert RunThread(s1, t, s1.pc[t]) == Goto(s2, t, AfterPost(posts - 1));
      PostAlone(s2, t, posts - 1);
    }
  }

  // A sleeper with a kernel permit ready takes it, and then tries for the rest.
  lemma SleeperWakes(s: State, t: nat, max: nat)
    requires WfState(s) && t < |s.pc| && s.pc[t] == Sleep(max) && s.kernel > 0
    ensures var s' := Step(s, Run(t));
      && s'.kernel == s.kernel - 1 && s'.acquired == s.acquired + 1 && s'.got == s.got[t := s.got[t] + 1]
      && s'.count == s.count && s'.pc == s.pc[t := if max > 1 then TryLoad(max - 1, Return) else Idle]
  {
  }

  // In every interleaving, a try that asks for something and ends with nothing
  // ends at a moment when the count has nothing to give.
  lemma TryFailsOnlyOnNothing(s: State, a: Action)
    requires WfState(s) && Enabled(s, a) && (a.Run? || a.Spurious?)
    requires (s.pc[a.t].TryLoad? || s.pc[a.t].TryCas?) && s.pc[a.t].next == Return && s.pc[a.t].max > 0
    requires Step(s, a).pc[a.t] == Idle && Step(s, a).got[a.t] == s.got[a.t]
    ensures s.count <= 0
  {
    assert Wf(s.pc[a.t]);
  }

  // And a try goes on, or gets something, whenever the count has something.
  lemma TrySeesWhatThereIs(s: State, a: Action)
    requires WfState(s) && Enabled(s, a) && (a.Run? || a.Spurious?) && s.count > 0
    requires (s.pc[a.t].TryLoad? || s.pc[a.t].TryCas?) && s.pc[a.t].max > 0
    ensures var p, p' := s.pc[a.t], Step(s, a).pc[a.t];
      || Step(s, a).got[a.t] > s.got[a.t]
      || p' == TryCas(p.max, s.count, p.next)
  {
    assert Wf(s.pc[a.t]);
  }

  // A thread that spins takes, left alone, the smaller of what it asks for and a
  // positive count.
  lemma SpinnerTakes(s: State, t: nat)
    requires WfState(s) && t < |s.pc| && s.pc[t].SpinLoad? && s.count > 0
    ensures var n := Min(s.pc[t].max, s.count);
      RunFor(s, t, 2)
        == s.(pc := s.pc[t := Idle], count := s.count - n, acquired := s.acquired + n, got := s.got[t := s.got[t] + n])
  {
    hide RunFor;
    var p := s.pc[t];
    var s1 := Goto(s, t, SpinCas(p.max, s.count, p.spins, p.timeout));
    Advance(s, t, 1);
    assert RunThread(s, t, p) == s1;
    Advance(s1, t, 0);
    assert s1.pc[t := Idle] == s.pc[t := Idle];
    var s2 := RunThread(s1, t, s1.pc[t]);
    assert s2.pc == s.pc[t := Idle];
    ZeroSteps(s2, t);
  }

  // A wait whose time is over takes, left alone, a kernel permit that is ready
  // if the count owes nobody, and then tries for the rest.
  lemma LateWaiterTakes(s: State, t: nat)
    requires WfState(s) && t < |s.pc| && s.pc[t].Recheck? && s.count >= 0 && s.kernel > 0
    ensures RunFor(s, t, 2) == Acquire(s, t, 1, Rest(s.pc[t].max)).(kernel := s.kernel - 1)
  {
    hide RunFor;
    var max := s.pc[t].max;
    var s1 := Goto(s, t, TryKernel(max));
    Advance(s, t, 1);
    assert RunThread(s, t, s.pc[t]) == s1;
    Advance(s1, t, 0);
    assert s1.pc[t := Rest(max)] == s.pc[t := Rest(max)];
    ZeroSteps(TakeKernel(s1, t, max), t);
  }

  // Otherwise it takes its subtraction back.
  lemma LateWaiterLeaves(s: State, t: nat)
    requires WfState(s) && t < |s.pc| && s.pc[t].Recheck? && s.count < 0
    ensures RunFor(s, t, 2) == s.(pc := s.pc[t := Idle], count := s.count + 1)
  {
    hide RunFor;
    var s1 := Goto(s, t, Undo(s.pc[t].max, s.count));
    Advance(s, t, 1);
    assert RunThread(s, t, s.pc[t]) == s1;
    Advance(s1, t, 0);
    assert s1.pc[t := Idle] == s.pc[t := Idle];
    ZeroSteps(RunThread(s1, t, s1.pc[t]), t);
  }

  lemma ZeroSteps(s: State, t: nat)
    ensures RunFor(s, t, 0) == s
  {
  }
}
