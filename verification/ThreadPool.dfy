/**
 * The thread pool: a bounded task queue behind a mutex, core and dynamic
 * workers, a manager that adds and removes dynamic workers, and closing under
 * three policies.
 *
 * Each critical section and each atomic access is one step, interleaved in any
 * order. A task is known by its place in the order of acceptance.
 */
module ThreadPool {

  type Task = nat

  datatype Strategy = DiscardAllTasks | WaitAllTaskFinish | ReturnTaskAndClose

  // What became of a task that left the queue.
  datatype Fate = Held(worker: nat) | Finished | Dropped | Returned

  datatype WorkerPc = Off | AtLock | Running(k: nat) | Ending(k: nat) | Exited

  datatype CommitPc = Checking(tasks: seq<Task>) | Pushing(tasks: seq<Task>)

  // Acting works on a vacant count that may be long out of date.
  datatype ManagerPc = Absent | AtCheck | Loading | Acting(seen: int) | Joining(i: nat) | Stopped

  datatype ClosePc = Open | Stopping | Polling | JoinManager | StopRun | Draining | JoinWorkers | Terminating | Closed

  datatype State = State(
    cores: nat, maxQueue: nat, strategy: Strategy,
    queue: seq<Task>, accepted: seq<Task>, left: seq<Task>, fates: seq<Fate>,
    vacant: int, run: bool, stop: bool, terminated: bool, dynamic: int,
    pc: seq<WorkerPc>, running: seq<bool>,
    commits: map<nat, CommitPc>, manager: ManagerPc, closer: ClosePc,
    overlap: bool)   // a commit was past its check when close began

  datatype Action =
    | Commit(c: nat, tasks: seq<Task>)   // a call of commit_executor(s)
    | Committer(c: nat)                  // its next step
    | Worker(i: nat)
    | Manager
    | Close                              // a call of close
    | Closer

  // ---- Steps -------------------------------------------------------------

  predicate Idle(p: WorkerPc) {
    p.Off? || p.Exited?
  }

  predicate Enabled(s: State, a: Action) {
    match a
    case Commit(c, _) => c !in s.commits
    case Committer(c) => c in s.commits
    case Worker(i) =>
      && i < |s.pc| == |s.running|
      && (match s.pc[i]
          case AtLock => s.queue != [] || !s.run || (i >= s.cores && !s.running[i])
          case Running(_) => true
          case Ending(_) => true
          case _ => false)
    case Manager =>
      && |s.pc| == |s.running|
      && (match s.manager
          case AtCheck => true
          case Loading => true
          case Acting(_) => true
          case Joining(i) => i < |s.pc| && s.pc[i] == Exited
          case _ => false)
    case Close => s.closer == Open
    case Closer =>
      match s.closer
      case Open => false
      case Closed => false
      case JoinManager => s.manager.Absent? || s.manager.Stopped?
      case JoinWorkers => forall i :: 0 <= i < |s.pc| ==> Idle(s.pc[i])
      case _ => true
  }

  function Goto(s: State, i: nat, p: WorkerPc): State
    requires i < |s.pc|
  {
    s.(pc := s.pc[i := p])
  }

  function RunWorker(s: State, i: nat): State
    requires Enabled(s, Worker(i))
  {
    match s.pc[i]
    case AtLock =>
      if !s.run || (i >= s.cores && !s.running[i]) then Goto(s, i, Exited)
      else
        Goto(s, i, Running(|s.left|)).(
          queue := s.queue[1..], left := s.left + [s.queue[0]], fates := s.fates + [Held(i)],
          vacant := s.vacant - 1)
    case Running(k) =>
      if k < |s.fates| then Goto(s, i, Ending(k)).(fates := s.fates[k := Finished]) else s
    case Ending(_) => Goto(s, i, AtLock).(vacant := s.vacant + 1)
    case _ => s
  }

  function Min(a: nat, b: nat): nat {
    if a < b then a else b
  }

  // How many of n tasks are accepted: the rest find the queue full.
  function Room(s: State, n: nat): nat {
    if |s.queue| <= s.maxQueue then Min(s.maxQueue - |s.queue|, n) else 0
  }

  function RunCommit(s: State, c: nat): State
    requires c in s.commits
  {
    match s.commits[c]
    case Checking(tasks) =>
      if s.stop then s.(commits := s.commits - {c}) else s.(commits := s.commits[c := Pushing(tasks)])
    case Pushing(tasks) =>
      var taken := tasks[..Room(s, |tasks|)];
      s.(queue := s.queue + taken, accepted := s.accepted + taken, commits := s.commits - {c})
  }

  // The first dynamic slot from i on whose running flag is r.
  function FindSlot(running: seq<bool>, i: nat, r: bool): (k: nat)
    ensures i <= |running| ==> i <= k <= |running|
    ensures k < |running| ==> running[k] == r
    decreases |running| - i
  {
    if i < |running| && running[i] != r then FindSlot(running, i + 1, r) else i
  }

  // What the manager works on.
  datatype Crew = Crew(pc: seq<WorkerPc>, running: seq<bool>, dynamic: int, manager: ManagerPc)

  // With more than two vacant it stops the first dynamic worker; with at most
  // one it starts a worker in the first free slot.
  function Manage(w: Crew, cores: nat, vacant: int): Crew
    requires |w.pc| == |w.running|
  {
    if vacant > 2 then
      var i := FindSlot(w.running, cores, true);
      if w.dynamic > 0 && i < |w.running| then w.(running := w.running[i := false], manager := Joining(i))
      else w.(manager := AtCheck)
    else if vacant <= 1 then
      var i := FindSlot(w.running, cores, false);
      if w.dynamic < |w.running| - cores && i < |w.running| then
        Crew(w.pc[i := AtLock], w.running[i := true], w.dynamic + 1, AtCheck)
      else w.(manager := AtCheck)
    else w.(manager := AtCheck)
  }

  function ManagerStep(w: Crew, cores: nat, vacant: int, stop: bool): Crew
    requires |w.pc| == |w.running|
  {
    match w.manager
    case AtCheck => w.(manager := if stop then Stopped else Loading)
    case Loading => w.(manager := Acting(vacant))
    case Acting(seen) => Manage(w, cores, seen)
    case Joining(_) => w.(dynamic := w.dynamic - 1, manager := AtCheck)
    case _ => w
  }

  function RunManager(s: State): State
    requires Enabled(s, Manager)
  {
    var w := ManagerStep(Crew(s.pc, s.running, s.dynamic, s.manager), s.cores, s.vacant, s.stop);
    s.(pc := w.pc, running := w.running, dynamic := w.dynamic, manager := w.manager)
  }

  function Drain(s: State, f: Fate): State {
    s.(left := s.left + s.queue, fates := s.fates + seq(|s.queue|, _ => f), queue := [])
  }

  function Drained(s: State): State {
    match s.strategy
    case DiscardAllTasks => Drain(s, Dropped)
    case ReturnTaskAndClose => Drain(s, Returned)
    case WaitAllTaskFinish => s
  }

  // The switches that close turns, one after the other.
  datatype Gate = Gate(stop: bool, overlap: bool, run: bool, terminated: bool, closer: ClosePc)

  function CloseStep(g: Gate, strategy: Strategy, empty: bool, inFlight: bool): Gate {
    match g.closer
    case Stopping =>
      g.(stop := true, overlap := inFlight,
         closer := if strategy.WaitAllTaskFinish? then Polling else JoinManager)
    case Polling => if empty then g.(closer := JoinManager) else g
    case JoinManager => g.(closer := StopRun)
    case StopRun => g.(run := false, closer := Draining)
    case Draining => g.(closer := JoinWorkers)
    case JoinWorkers => g.(closer := Terminating)
    case Terminating => g.(terminated := true, closer := Closed)
    case _ => g
  }

  function RunClose(s: State): State
    requires Enabled(s, Closer)
  {
    var g := CloseStep(Gate(s.stop, s.overlap, s.run, s.terminated, s.closer), s.strategy, s.queue == [],
                       exists c :: c in s.commits && s.commits[c].Pushing?);
    (if s.closer.Draining? then Drained(s) else s).(
      stop := g.stop, overlap := g.overlap, run := g.run, terminated := g.terminated, closer := g.closer)
  }

  function Step(s: State, a: Action): State
    requires Enabled(s, a)
  {
    match a
    case Commit(c, tasks) => s.(commits := s.commits[c := Checking(tasks)])
    case Committer(c) => RunCommit(s, c)
    case Worker(i) => RunWorker(s, i)
    case Manager => RunManager(s)
    case Close => s.(closer := if s.terminated then Closed else Stopping)
    case Closer => RunClose(s)
  }

  // ---- The invariant -----------------------------------------------------

  function Busy(pc: seq<WorkerPc>): nat {
    if pc == [] then 0
    else Busy(pc[..|pc| - 1]) + if pc[|pc| - 1].Running? || pc[|pc| - 1].Ending? then 1 else 0
  }

  function One(p: WorkerPc): nat {
    if p.Running? || p.Ending? then 1 else 0
  }

  lemma {:induction false} BusyMoved(pc: seq<WorkerPc>, i: nat, p: WorkerPc)
    requires i < |pc|
    ensures Busy(pc[i := p]) == Busy(pc) - One(pc[i]) + One(p)
  {
    var n := |pc| - 1;
    if i < n {
      BusyMoved(pc[..n], i, p);
      assert pc[i := p][..n] == pc[..n][i := p];
    } else {
      assert pc[i := p][..n] == pc[..n];
    }
  }

  // Tasks leave the queue in the order they were accepted.
  predicate QueueOk(s: State) {
    s.accepted == s.left + s.queue && |s.fates| == |s.left| && |s.queue| <= s.maxQueue
  }

  // A held task and the worker that holds it know each other.
  predicate WorkerOk(p: WorkerPc, i: nat, fates: seq<Fate>) {
    match p
    case Running(k) => k < |fates| && fates[k] == Held(i)
    case Ending(k) => k < |fates| && fates[k] == Finished
    case _ => true
  }

  predicate FateOk(f: Fate, k: nat, pc: seq<WorkerPc>, strategy: Strategy) {
    match f
    case Held(i) => i < |pc| && pc[i] == Running(k)
    case Dropped => strategy.DiscardAllTasks?
    case Returned => strategy.ReturnTaskAndClose?
    case Finished => true
  }

  ghost predicate HoldersOk(pc: seq<WorkerPc>, fates: seq<Fate>, strategy: Strategy) {
    && (forall i :: 0 <= i < |pc| ==> WorkerOk(pc[i], i, fates))
    && (forall k :: 0 <= k < |fates| ==> FateOk(fates[k], k, pc, strategy))
  }

  // A dynamic slot is free, or its worker is being waited for, or it runs.
  ghost predicate SlotsOk(cores: nat, pc: seq<WorkerPc>, running: seq<bool>, manager: ManagerPc) {
    && cores <= |pc| == |running|
    && (forall i :: cores <= i < |pc| && !running[i] ==> Idle(pc[i]) || manager == Joining(i))
    && (manager.Joining? ==> cores <= manager.i < |running| && !running[manager.i])
  }

  // How far close has come, and what is settled by then.
  predicate Past(c: ClosePc, stage: nat) {
    stage <= match c
             case Open => 0 case Stopping => 1 case Polling => 2 case JoinManager => 3 case StopRun => 4
             case Draining => 5 case JoinWorkers => 6 case Terminating => 7 case Closed => 8
  }

  ghost predicate CloseOk(s: State) {
    && (Past(s.closer, 2) ==> s.stop)
    && (Past(s.closer, 4) ==> s.manager.Absent? || s.manager.Stopped?)
    && (Past(s.closer, 5) ==> !s.run)
    && (Past(s.closer, 7) ==> forall i :: 0 <= i < |s.pc| ==> Idle(s.pc[i]))
    && (Past(s.closer, 2) && !s.overlap ==> forall c :: c in s.commits ==> s.commits[c].Checking?)
    && (Past(s.closer, 3) && !s.overlap && s.strategy.WaitAllTaskFinish? ==> s.queue == [])
    && (Past(s.closer, 6) && !s.overlap ==> s.queue == [])
    && (s.terminated ==> Past(s.closer, 8))
  }

  ghost predicate Invariant(s: State) {
    && QueueOk(s) && s.vacant + Busy(s.pc) == s.cores
    && HoldersOk(s.pc, s.fates, s.strategy) && SlotsOk(s.cores, s.pc, s.running, s.manager) && CloseOk(s)
  }

  // ---- Every step keeps it -----------------------------------------------

  // A worker that holds nothing may move between places where it holds nothing.
  lemma QuietMove(pc: seq<WorkerPc>, fates: seq<Fate>, strategy: Strategy, i: nat, p: WorkerPc)
    requires HoldersOk(pc, fates, strategy) && i < |pc| && !pc[i].Running? && !p.Running? && !p.Ending?
    ensures HoldersOk(pc[i := p], fates, strategy)
  {
    forall k | 0 <= k < |fates| ensures FateOk(fates[k], k, pc[i := p], strategy) {
      assert FateOk(fates[k], k, pc, strategy);
    }
  }

  lemma TakeMove(pc: seq<WorkerPc>, fates: seq<Fate>, strategy: Strategy, i: nat)
    requires HoldersOk(pc, fates, strategy) && i < |pc| && pc[i] == AtLock
    ensures HoldersOk(pc[i := Running(|fates|)], fates + [Held(i)], strategy)
  {
    var pc', fates' := pc[i := Running(|fates|)], fates + [Held(i)];
    forall k | 0 <= k < |fates'| ensures FateOk(fates'[k], k, pc', strategy) {
      if k < |fates| { assert FateOk(fates[k], k, pc, strategy); }
    }
    forall j | 0 <= j < |pc'| ensures WorkerOk(pc'[j], j, fates') {
      assert WorkerOk(pc[j], j, fates);
    }
  }

  lemma FinishMove(pc: seq<WorkerPc>, fates: seq<Fate>, strategy: Strategy, i: nat, k: nat)
    requires HoldersOk(pc, fates, strategy) && i < |pc| && pc[i] == Running(k)
    ensures k < |fates| && HoldersOk(pc[i := Ending(k)], fates[k := Finished], strategy)
  {
    assert WorkerOk(pc[i], i, fates);
    var pc', fates' := pc[i := Ending(k)], fates[k := Finished];
    forall l | 0 <= l < |fates'| ensures FateOk(fates'[l], l, pc', strategy) {
      assert FateOk(fates[l], l, pc, strategy);
    }
    forall j | 0 <= j < |pc'| ensures WorkerOk(pc'[j], j, fates') {
      assert WorkerOk(pc[j], j, fates);
    }
  }

  lemma DrainMove(pc: seq<WorkerPc>, fates: seq<Fate>, strategy: Strategy, n: nat, f: Fate)
    requires HoldersOk(pc, fates, strategy)
    requires (f == Dropped && strategy.DiscardAllTasks?) || (f == Returned && strategy.ReturnTaskAndClose?)
    ensures HoldersOk(pc, fates + seq(n, _ => f), strategy)
  {
    var fates' := fates + seq(n, _ => f);
    forall k | 0 <= k < |fates'| ensures FateOk(fates'[k], k, pc, strategy) {
      if k < |fates| { assert FateOk(fates[k], k, pc, strategy); }
    }
    forall j | 0 <= j < |pc| ensures WorkerOk(pc[j], j, fates') {
      assert WorkerOk(pc[j], j, fates);
    }
  }

  lemma WorkerHolders(s: State, i: nat)
    requires HoldersOk(s.pc, s.fates, s.strategy) && |s.fates| == |s.left| && Enabled(s, Worker(i))
    ensures var s' := RunWorker(s, i); s'.strategy == s.strategy && HoldersOk(s'.pc, s'.fates, s.strategy)
  {
    hide HoldersOk;
    match s.pc[i] {
      case AtLock =>
        QuietMove(s.pc, s.fates, s.strategy, i, Exited);
        TakeMove(s.pc, s.fates, s.strategy, i);
      case Running(k) => FinishMove(s.pc, s.fates, s.strategy, i, k);
      case Ending(k) => QuietMove(s.pc, s.fates, s.strategy, i, AtLock);
    }
  }

  lemma SlotMove(cores: nat, pc: seq<WorkerPc>, running: seq<bool>, manager: ManagerPc, i: nat, p: WorkerPc)
    requires SlotsOk(cores, pc, running, manager) && i < |pc| && !Idle(pc[i])
    ensures SlotsOk(cores, pc[i := p], running, manager)
  {
  }

  lemma WorkerSlots(s: State, i: nat)
    requires SlotsOk(s.cores, s.pc, s.running, s.manager) && Enabled(s, Worker(i))
    ensures var s' := RunWorker(s, i); SlotsOk(s'.cores, s'.pc, s'.running, s'.manager)
  {
    hide SlotsOk;
    SlotMove(s.cores, s.pc, s.running, s.manager, i, Running(|s.left|));
    SlotMove(s.cores, s.pc, s.running, s.manager, i, Exited);
    SlotMove(s.cores, s.pc, s.running, s.manager, i, AtLock);
    if s.pc[i].Running? { SlotMove(s.cores, s.pc, s.running, s.manager, i, Ending(s.pc[i].k)); }
  }

  lemma WorkerClose(s: State, i: nat)
    requires CloseOk(s) && Enabled(s, Worker(i))
    ensures CloseOk(RunWorker(s, i))
  {
  }

  lemma WorkerQueue(s: State, i: nat)
    requires QueueOk(s) && s.vacant + Busy(s.pc) == s.cores && Enabled(s, Worker(i))
    requires s.pc[i].Running? ==> s.pc[i].k < |s.fates|
    ensures var s' := RunWorker(s, i); QueueOk(s') && s'.vacant + Busy(s'.pc) == s'.cores
  {
    hide Busy;
    BusyMoved(s.pc, i, Running(|s.left|));
    BusyMoved(s.pc, i, Exited);
    BusyMoved(s.pc, i, AtLock);
    if s.pc[i].Running? { BusyMoved(s.pc, i, Ending(s.pc[i].k)); }
    if s.queue != [] { PopKeepsOrder(s.left, s.queue); }
  }

  lemma PopKeepsOrder(left: seq<Task>, queue: seq<Task>)
    requires queue != []
    ensures left + queue == left + [queue[0]] + queue[1..]
  {
  }

  lemma WorkerKeeps(s: State, i: nat)
    requires Invariant(s) && Enabled(s, Worker(i))
    ensures Invariant(RunWorker(s, i))
  {
    if s.pc[i].Running? { FinishMove(s.pc, s.fates, s.strategy, i, s.pc[i].k); }
    hide HoldersOk, Busy, SlotsOk, CloseOk, RunWorker;
    WorkerHolders(s, i);
    WorkerSlots(s, i);
    WorkerClose(s, i);
    WorkerQueue(s, i);
  }

  lemma CommitKeeps(s: State, c: nat)
    requires Invariant(s) && Enabled(s, Committer(c))
    ensures Invariant(RunCommit(s, c))
  {
    hide HoldersOk, Busy, SlotsOk;
  }

  // A commit past its check accepts its tasks from the first on, all of them
  // unless the queue gets full, behind those accepted before; nothing else
  // changes the accepted tasks, and once close has set its flag no new commit
  // gets past its check.
  lemma CommitAccepts(s: State, a: Action)
    requires Invariant(s) && Enabled(s, a)
    ensures var s' := Step(s, a);
      if a.Committer? && s.commits[a.c].Pushing? then
        var tasks := s.commits[a.c].tasks;
        && |s'.accepted| - |s.accepted| <= |tasks|
        && s'.accepted == s.accepted + tasks[..|s'.accepted| - |s.accepted|]
        && (|s'.accepted| - |s.accepted| == |tasks| || |s'.queue| == s.maxQueue)
      else s'.accepted == s.accepted
    ensures s.stop ==> forall c :: c in Step(s, a).commits && Step(s, a).commits[c].Pushing? ==>
                         c in s.commits && s.commits[c] == Step(s, a).commits[c]
  {
    hide HoldersOk, Busy, SlotsOk, ManagerStep, CloseStep;
    if a.Closer? { DrainedFrame(s); }
  }

  lemma SlotKill(cores: nat, pc: seq<WorkerPc>, running: seq<bool>, manager: ManagerPc, i: nat)
    requires SlotsOk(cores, pc, running, manager) && !manager.Joining? && cores <= i < |pc|
    ensures SlotsOk(cores, pc, running[i := false], Joining(i))
  {
  }

  lemma SlotAdd(cores: nat, pc: seq<WorkerPc>, running: seq<bool>, manager: ManagerPc, i: nat)
    requires SlotsOk(cores, pc, running, manager) && !manager.Joining? && cores <= i < |pc|
    ensures SlotsOk(cores, pc[i := AtLock], running[i := true], AtCheck)
  {
  }

  lemma SlotJoined(cores: nat, pc: seq<WorkerPc>, running: seq<bool>, manager: ManagerPc, manager': ManagerPc)
    requires SlotsOk(cores, pc, running, manager) && !manager'.Joining?
    requires manager.Joining? ==> pc[manager.i] == Exited
    ensures SlotsOk(cores, pc, running, manager')
  {
  }

  lemma ManagerSlots(s: State)
    requires SlotsOk(s.cores, s.pc, s.running, s.manager) && Enabled(s, Manager) && s.cores <= |s.pc|
    ensures var s' := RunManager(s); SlotsOk(s'.cores, s'.pc, s'.running, s'.manager)
  {
    hide FindSlot, SlotsOk;
    var i, k := FindSlot(s.running, s.cores, false), FindSlot(s.running, s.cores, true);
    if !s.manager.Joining? {
      if i < |s.pc| { SlotAdd(s.cores, s.pc, s.running, s.manager, i); }
      if k < |s.pc| { SlotKill(s.cores, s.pc, s.running, s.manager, k); }
    }
    SlotJoined(s.cores, s.pc, s.running, s.manager, AtCheck);
    SlotJoined(s.cores, s.pc, s.running, s.manager, Loading);
    SlotJoined(s.cores, s.pc, s.running, s.manager, Acting(s.vacant));
    SlotJoined(s.cores, s.pc, s.running, s.manager, Stopped);
  }

  lemma ManagerHolders(s: State)
    requires SlotsOk(s.cores, s.pc, s.running, s.manager) && Enabled(s, Manager)
    requires HoldersOk(s.pc, s.fates, s.strategy)
    ensures var s' := RunManager(s);
      HoldersOk(s'.pc, s.fates, s.strategy) && Busy(s'.pc) == Busy(s.pc)
  {
    hide HoldersOk, Busy, FindSlot;
    var i := FindSlot(s.running, s.cores, false);
    if s.manager.Acting? && i < |s.pc| {
      assert !s.running[i] && Idle(s.pc[i]);
      BusyMoved(s.pc, i, AtLock);
      QuietMove(s.pc, s.fates, s.strategy, i, AtLock);
    }
  }

  lemma ManagerFrame(s: State)
    requires Enabled(s, Manager)
    ensures var s' := RunManager(s);
      && s'.queue == s.queue && s'.accepted == s.accepted && s'.left == s.left && s'.fates == s.fates
      && s'.cores == s.cores && s'.maxQueue == s.maxQueue && s'.strategy == s.strategy && s'.vacant == s.vacant
  {
    hide ManagerStep;
  }

  lemma ManagerClose(s: State)
    requires CloseOk(s) && Enabled(s, Manager)
    ensures CloseOk(RunManager(s))
  {
    hide FindSlot;
  }

  lemma ManagerKeeps(s: State)
    requires Invariant(s) && Enabled(s, Manager)
    ensures Invariant(RunManager(s))
  {
    assert s.cores <= |s.pc|;
    hide HoldersOk, Busy, SlotsOk, CloseOk, RunManager;
    ManagerSlots(s);
    ManagerHolders(s);
    ManagerFrame(s);
    ManagerClose(s);
  }

  lemma CloserClose(s: State)
    requires CloseOk(s) && Enabled(s, Closer)
    ensures CloseOk(RunClose(s))
  {
  }

  predicate SameWork(s: State, s': State) {
    s'.queue == s.queue && s'.accepted == s.accepted && s'.left == s.left && s'.fates == s.fates
  }

  predicate SameCrew(s: State, s': State) {
    && s'.pc == s.pc && s'.running == s.running && s'.manager == s.manager
    && s'.vacant == s.vacant && s'.cores == s.cores && s'.maxQueue == s.maxQueue && s'.strategy == s.strategy
  }

  lemma DrainKeeps(s: State, f: Fate)
    requires QueueOk(s) && HoldersOk(s.pc, s.fates, s.strategy)
    requires (f == Dropped && s.strategy.DiscardAllTasks?) || (f == Returned && s.strategy.ReturnTaskAndClose?)
    ensures QueueOk(Drain(s, f)) && HoldersOk(s.pc, Drain(s, f).fates, s.strategy)
  {
    hide HoldersOk;
    DrainMove(s.pc, s.fates, s.strategy, |s.queue|, f);
    assert s.left + s.queue + [] == s.left + s.queue;
  }

  lemma DrainedKeeps(s: State)
    requires QueueOk(s) && HoldersOk(s.pc, s.fates, s.strategy)
    ensures var d := Drained(s); QueueOk(d) && HoldersOk(s.pc, d.fates, s.strategy) && SameCrew(s, d)
  {
    hide HoldersOk;
    if s.strategy.DiscardAllTasks? { DrainKeeps(s, Dropped); }
    if s.strategy.ReturnTaskAndClose? { DrainKeeps(s, Returned); }
  }

  lemma CloserFrame(s: State)
    requires Enabled(s, Closer)
    ensures SameCrew(s, RunClose(s))
    ensures s.closer != Draining ==> SameWork(s, RunClose(s))
    ensures s.closer == Draining ==> SameWork(Drained(s), RunClose(s))
  {
    hide CloseStep, Drained;
    DrainedFrame(s);
  }

  lemma DrainedFrame(s: State)
    ensures SameCrew(s, Drained(s)) && Drained(s).accepted == s.accepted
  {
  }

  lemma CloserHolders(s: State)
    requires QueueOk(s) && HoldersOk(s.pc, s.fates, s.strategy) && Enabled(s, Closer)
    ensures var s' := RunClose(s);
      QueueOk(s') && HoldersOk(s'.pc, s'.fates, s'.strategy) && SameCrew(s, s')
  {
    hide HoldersOk, Drained, RunClose;
    CloserFrame(s);
    DrainedKeeps(s);
    assert QueueOk(RunClose(s));
  }

  lemma CloserKeeps(s: State)
    requires Invariant(s) && Enabled(s, Closer)
    ensures Invariant(RunClose(s))
  {
    hide HoldersOk, Busy, SlotsOk, CloseOk, RunClose;
    CloserClose(s);
    CloserHolders(s);
  }

  lemma StepKeeps(s: State, a: Action)
    requires Invariant(s) && Enabled(s, a)
    ensures Invariant(Step(s, a))
  {
    hide HoldersOk, Busy, SlotsOk, RunWorker, RunManager, RunClose, RunCommit;
    match a {
      case Committer(c) => CommitKeeps(s, c);
      case Worker(i) => WorkerKeeps(s, i);
      case Manager => ManagerKeeps(s);
      case Closer => CloserKeeps(s);
      case _ =>
    }
  }

  // ---- Whole runs --------------------------------------------------------

  // After initialisation: the core workers wait, the other slots are free.
  predicate Init(s: State) {
    && s.queue == [] && s.accepted == [] && s.left == [] && s.fates == []
    && s.cores <= |s.pc| == |s.running| && s.vacant == s.cores
    && s.run && !s.stop && !s.terminated && s.dynamic == 0
    && (forall i :: 0 <= i < |s.pc| ==> s.pc[i] == if i < s.cores then AtLock else Off)
    && (forall i :: 0 <= i < |s.running| ==> (s.running[i] <==> i < s.cores))
    && (s.manager == AtCheck || s.manager == Absent) && s.closer == Open && s.commits == map[] && !s.overlap
  }

  lemma {:induction false} NobodyBusy(pc: seq<WorkerPc>)
    requires forall i :: 0 <= i < |pc| ==> !pc[i].Running? && !pc[i].Ending?
    ensures Busy(pc) == 0
  {
    if pc != [] { NobodyBusy(pc[..|pc| - 1]); }
  }

  ghost predicate IsRun(run: seq<State>, actions: seq<Action>) {
    && |run| == |actions| + 1 && Init(run[0])
    && forall i :: 0 <= i < |actions| ==> Enabled(run[i], actions[i]) && run[i + 1] == Step(run[i], actions[i])
  }

  lemma {:induction false} RunsKeepInvariant(run: seq<State>, actions: seq<Action>, n: nat)
    requires IsRun(run, actions) && n < |run|
    ensures Invariant(run[n])
  {
    if n == 0 {
      NobodyBusy(run[0].pc);
    } else {
      hide Invariant, Enabled, Step, Init;
      RunsKeepInvariant(run, actions, n - 1);
      StepKeeps(run[n - 1], actions[n - 1]);
    }
  }

  // ---- What the invariant says -------------------------------------------

  // Every accepted task is in one place: at its turn in the queue, with the
  // one worker that runs it, or finished, dropped or returned; tasks leave in
  // the order of acceptance, the queue keeps its bound, and the vacant count is
  // the cores minus the busy workers, dynamic ones included.
  lemma TasksAreConserved(s: State, k: nat, i: nat)
    requires Invariant(s) && k < |s.accepted|
    ensures s.vacant + Busy(s.pc) == s.cores
    ensures |s.queue| <= s.maxQueue && s.accepted == s.left + s.queue && |s.fates| == |s.left|
    ensures if k < |s.left| then s.accepted[k] == s.left[k] else s.accepted[k] == s.queue[k - |s.left|]
    ensures i < |s.pc| ==> (s.pc[i] == Running(k) <==> k < |s.fates| && s.fates[k] == Held(i))
  {
    if i < |s.pc| { assert WorkerOk(s.pc[i], i, s.fates); }
    if k < |s.fates| { assert FateOk(s.fates[k], k, s.pc, s.strategy); }
  }

  // When a close that waits for all tasks is done, a task that was accepted is
  // finished if and only if it has left the queue; the queue is empty unless a
  // commit was already past its check when close began.
  lemma WaitingCloseExact(s: State, k: nat)
    requires Invariant(s) && s.closer == Closed && s.strategy.WaitAllTaskFinish? && k < |s.accepted|
    ensures (k < |s.fates| && s.fates[k] == Finished) <==> k < |s.left|
    ensures !s.overlap ==> s.queue == []
  {
    if k < |s.fates| { assert FateOk(s.fates[k], k, s.pc, s.strategy); }
  }

  // So if no commit overlapped the close, every accepted task has finished.
  lemma WaitingCloseFinishesAll(s: State, k: nat)
    requires Invariant(s) && s.closer == Closed && s.strategy.WaitAllTaskFinish? && !s.overlap
    requires k < |s.accepted|
    ensures k < |s.fates| && s.fates[k] == Finished
  {
    WaitingCloseExact(s, k);
  }

  // What a close does with every accepted task, if no commit overlapped it: it
  // has finished, or was still queued and met the fate of the strategy.
  lemma CloseSettlesAll(s: State, k: nat)
    requires Invariant(s) && s.closer == Closed && !s.overlap && k < |s.accepted|
    ensures k < |s.fates| && s.queue == []
    ensures match s.strategy
      case DiscardAllTasks => s.fates[k] == Finished || s.fates[k] == Dropped
      case ReturnTaskAndClose => s.fates[k] == Finished || s.fates[k] == Returned
      case WaitAllTaskFinish => s.fates[k] == Finished
  {
    assert FateOk(s.fates[k], k, s.pc, s.strategy);
    if s.fates[k].Held? { ClosedHoldsNothing(s, k); }
  }

  // A run in which a commit overlaps the close: the commit passes its check,
  // close finds the queue empty, the task is pushed, the workers are stopped.
  function OverlapAction(i: nat): Action {
    if i == 0 then Commit(0, [42]) else if i == 2 then Close
    else if i == 1 || i == 6 then Committer(0) else if i == 9 then Worker(0) else Closer
  }

  function OverlapStart(): State {
    State(1, 8, WaitAllTaskFinish, [], [], [], [], 1, true, false, false, 0, [AtLock], [true], map[], Absent, Open,
      false)
  }

  function OverlapState(i: nat): State {
    var s := OverlapStart();
    if i == 0 then s
    else if i == 1 then s.(commits := map[0 := Checking([42])])
    else if i == 2 then s.(commits := map[0 := Pushing([42])])
    else if i == 3 then s.(commits := map[0 := Pushing([42])], closer := Stopping)
    else if i <= 6 then
      s.(commits := map[0 := Pushing([42])], stop := true, overlap := true,
         closer := if i == 4 then Polling else if i == 5 then JoinManager else StopRun)
    else
      s.(queue := [42], accepted := [42], stop := true, overlap := true, run := i < 8, terminated := i >= 12,
         pc := if i < 10 then [AtLock] else [Exited],
         closer := if i == 7 then StopRun else if i == 8 then Draining else if i <= 10 then JoinWorkers
                   else if i == 11 then Terminating else Closed)
  }

  lemma OverlapStep(i: nat)
    requires i < 12
    ensures Enabled(OverlapState(i), OverlapAction(i))
    ensures Step(OverlapState(i), OverlapAction(i)) == OverlapState(i + 1)
  {
    var s := OverlapState(i);
    if i < 4 {
      OverlapBegins(i);
    } else if i == 6 {
      assert s.commits - {0} == map[] && [42][..1] == [42];
    } else if i == 9 {
      assert s.pc[0 := Exited] == [Exited];
    }
  }

  lemma OverlapBegins(i: nat)
    requires i < 4
    ensures Enabled(OverlapState(i), OverlapAction(i))
    ensures Step(OverlapState(i), OverlapAction(i)) == OverlapState(i + 1)
  {
    var s := OverlapState(i);
    if i == 0 {
      assert s.commits[0 := Checking([42])] == map[0 := Checking([42])];
    } else if i == 1 {
      assert s.commits[0 := Pushing([42])] == map[0 := Pushing([42])];
    } else if i == 3 {
      assert s.commits[0].Pushing?;
    }
  }

  // With an overlapping commit a waiting close can leave a task behind.
  lemma OverlapCanLeaveATask() returns (run: seq<State>, actions: seq<Action>)
    ensures IsRun(run, actions) && |actions| == 12
    ensures var s := run[12];
      s.closer == Closed && s.strategy.WaitAllTaskFinish? && s.accepted == [42] && s.queue == [42] && s.fates == []
  {
    hide Step, Enabled;
    run := seq(13, i requires 0 <= i => OverlapState(i));
    actions := seq(12, i requires 0 <= i => OverlapAction(i));
    forall i | 0 <= i < 12 ensures Enabled(run[i], actions[i]) && run[i + 1] == Step(run[i], actions[i]) {
      OverlapStep(i);
    }
  }

  // Under the other policies a closed pool has no task half done either.
  lemma ClosedHoldsNothing(s: State, k: nat)
    requires Invariant(s) && s.closer == Closed && k < |s.fates|
    ensures !s.fates[k].Held?
  {
    assert FateOk(s.fates[k], k, s.pc, s.strategy);
  }

  // ---- What a worker does ------------------------------------------------

  // A worker at the lock leaves if the pool has stopped or it is a dynamic
  // worker that is not wanted any more; otherwise it takes the first task.
  lemma WorkerAtLock(s: State, i: nat)
    requires Invariant(s) && i < |s.pc| && s.pc[i] == AtLock && Enabled(s, Worker(i))
    ensures var s' := Step(s, Worker(i));
      if !s.run || (i >= s.cores && !s.running[i]) then s' == s.(pc := s.pc[i := Exited])
      else
        && s.queue != [] && s'.pc == s.pc[i := Running(|s.left|)] && s'.queue == s.queue[1..]
        && s'.left == s.left + [s.queue[0]] && s'.fates == s.fates + [Held(i)] && s'.vacant == s.vacant - 1
  {
    hide HoldersOk, Busy, CloseOk;
  }

  // A worker that has taken a task finishes it and comes back to the lock,
  // whatever the state of the pool.
  lemma WorkerComesBack(s: State, i: nat, k: nat)
    requires Invariant(s) && i < |s.pc| && s.pc[i] == Running(k)
    ensures Enabled(s, Worker(i))
    ensures var s1 := Step(s, Worker(i));
      && Enabled(s1, Worker(i)) && k < |s.fates|
      && Step(s1, Worker(i)) == s.(pc := s.pc[i := AtLock], fates := s.fates[k := Finished], vacant := s.vacant + 1)
  {
    hide Busy, CloseOk, SlotsOk;
    assert |s.pc| == |s.running| by { SlotCount(s); }
    assert WorkerOk(s.pc[i], i, s.fates);
    var s1 := Step(s, Worker(i));
    assert s1.pc[i] == Ending(k);
    assert s.pc[i := Ending(k)][i := AtLock] == s.pc[i := AtLock];
  }

  lemma SlotCount(s: State)
    requires SlotsOk(s.cores, s.pc, s.running, s.manager)
    ensures |s.pc| == |s.running|
  {
  }

  // So a worker that runs alone at a queue with a task, in a pool that runs,
  // finishes that task in three steps and is at the lock again.
  lemma WorkerServes(s: State, i: nat)
    requires Invariant(s) && i < |s.pc| && s.pc[i] == AtLock && s.run && s.queue != []
    requires i < s.cores || s.running[i]
    ensures Enabled(s, Worker(i))
    ensures var s1 := Step(s, Worker(i));
      && Enabled(s1, Worker(i)) && Enabled(Step(s1, Worker(i)), Worker(i))
      && Step(Step(s1, Worker(i)), Worker(i))
         == s.(queue := s.queue[1..], left := s.left + [s.queue[0]], fates := s.fates + [Finished])
  {
    hide Busy, CloseOk, SlotsOk, HoldersOk;
    SlotCount(s);
    WorkerAtLock(s, i);
    WorkerKeeps(s, i);
    var s1 := Step(s, Worker(i));
    WorkerComesBack(s1, i, |s.left|);
    assert s.pc[i := Running(|s.left|)][i := AtLock] == s.pc;
    assert (s.fates + [Held(i)])[|s.left| := Finished] == s.fates + [Finished];
  }

  // ---- What the manager does ---------------------------------------------

  // Slot k is the first dynamic slot whose running flag is r.
  predicate IsFirst(running: seq<bool>, cores: nat, k: nat, r: bool) {
    cores <= k < |running| && running[k] == r && forall j :: cores <= j < k ==> running[j] != r
  }

  lemma {:induction false} FindSlotFirst(running: seq<bool>, i: nat, r: bool)
    requires i <= |running|
    ensures var k := FindSlot(running, i, r); if k < |running| then IsFirst(running, i, k, r)
                                              else forall j :: i <= j < |running| ==> running[j] != r
    decreases |running| - i
  {
    if i < |running| && running[i] != r { FindSlotFirst(running, i + 1, r); }
  }

  // Acting on a vacant count: with at most one vacant a dynamic worker is
  // started, at the lock, in the first free slot, if fewer are counted than
  // there are slots; with more than two the first one is told to stop and waited
  // for, if any is counted; nothing else changes, and with two nothing at all.
  lemma ManagerActs(s: State, seen: int)
    requires Invariant(s) && s.manager == Acting(seen)
    ensures Enabled(s, Manager)
    ensures var s' := Step(s, Manager);
      && (forall k: nat :: IsFirst(s.running, s.cores, k, false) && seen <= 1 && s.dynamic < |s.running| - s.cores ==>
            s' == s.(pc := s.pc[k := AtLock], running := s.running[k := true], dynamic := s.dynamic + 1,
                     manager := AtCheck))
      && (forall k: nat :: IsFirst(s.running, s.cores, k, true) && seen > 2 && s.dynamic > 0 ==>
            s' == s.(running := s.running[k := false], manager := Joining(k)))
      && (seen == 2 || (seen <= 1 && s.dynamic >= |s.running| - s.cores) || (seen > 2 && s.dynamic <= 0)
          || (forall j :: s.cores <= j < |s.running| ==> s.running[j] == (seen <= 1)) ==>
            s' == s.(manager := AtCheck))
  {
    hide HoldersOk, Busy, CloseOk, QueueOk, FindSlot, IsFirst;
    SlotCount(s);
    assert s.cores <= |s.running|;
    forall k: nat, r | IsFirst(s.running, s.cores, k, r) ensures k < |s.running|
      && FindSlot(s.running, s.cores, r) == k {
      FirstIsFound(s.running, s.cores, k, r);
    }
    forall r | forall j :: s.cores <= j < |s.running| ==> s.running[j] != r
      ensures FindSlot(s.running, s.cores, r) >= |s.running|
    {
      NoneIsFound(s.running, s.cores, r);
    }
  }

  lemma FirstIsFound(running: seq<bool>, cores: nat, k: nat, r: bool)
    requires IsFirst(running, cores, k, r)
    ensures k < |running| && FindSlot(running, cores, r) == k
  {
    FindSlotFirst(running, cores, r);
  }

  lemma NoneIsFound(running: seq<bool>, cores: nat, r: bool)
    requires cores <= |running| && forall j :: cores <= j < |running| ==> running[j] != r
    ensures FindSlot(running, cores, r) >= |running|
  {
    FindSlotFirst(running, cores, r);
  }

  // The manager looks at the switch, loads the count and acts on it; once close
  // has set the switch it stops. A worker it waits for is no longer counted.
  lemma ManagerGoesOn(s: State)
    requires Invariant(s) && Enabled(s, Manager)
    ensures s.manager == AtCheck ==> Step(s, Manager) == s.(manager := if s.stop then Stopped else Loading)
    ensures s.manager == Loading ==> Step(s, Manager) == s.(manager := Acting(s.vacant))
    ensures s.manager.Joining? ==>
      Step(s, Manager) == s.(dynamic := s.dynamic - 1, manager := AtCheck) && s.pc[s.manager.i] == Exited
  {
    hide HoldersOk, Busy, CloseOk;
  }

  // ---- A commit on its own -----------------------------------------------

  // A commit gets past its check if and only if close has not set its flag.
  lemma CommitChecks(s: State, c: nat)
    requires Enabled(s, Committer(c)) && s.commits[c].Checking?
    ensures Step(s, Committer(c))
      == s.(commits := if s.stop then s.commits - {c} else s.commits[c := Pushing(s.commits[c].tasks)])
  {
  }

  // With nothing in between, a commit to an open pool queues as many of its
  // tasks as there is room for, behind what is queued, and is over.
  lemma LoneCommit(s: State, c: nat, tasks: seq<Task>, n: nat)
    requires Invariant(s) && !s.stop && c !in s.commits
    requires n <= |tasks| && |s.queue| + n <= s.maxQueue && (n == |tasks| || |s.queue| + n == s.maxQueue)
    ensures var s1 := Step(s, Commit(c, tasks));
      && Enabled(s, Commit(c, tasks)) && Enabled(s1, Committer(c)) && Enabled(Step(s1, Committer(c)), Committer(c))
      && Step(Step(s1, Committer(c)), Committer(c))
           == s.(queue := s.queue + tasks[..n], accepted := s.accepted + tasks[..n])
  {
    hide HoldersOk, SlotsOk, CloseOk, Busy;
    var s1 := Step(s, Commit(c, tasks));
    CommitChecks(s1, c);
    var s2 := Step(s1, Committer(c));
    assert s2.commits[c] == Pushing(tasks);
    assert s2.commits - {c} == s.commits;
    assert Room(s2, |tasks|) == n;
  }
}
