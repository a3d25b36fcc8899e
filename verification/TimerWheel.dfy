/**
 * The first two levels of the timer wheel: placing a task, cascading level two
 * into level one, and running the tasks of a tick.
 *
 * The clock is ideal: the iteration for tick k happens at k * 5 ms. Tasks are
 * set between iterations; they may be cancelled but do not repeat.
 */
module TimerWheel {
  import opened Binary

  const GAP: nat := 5            // tickGap, in milliseconds
  const ONE: nat := 256          // LevelOneSize
  const TWO: nat := 64           // LevelTwoSize
  const CHECK_ONE: nat := 0xFF
  const CHECK_TWO: nat := 0x3F00
  const WORD: nat := 0x1_0000_0000

  function IndexOne(place: nat): nat { place % ONE }

  function IndexTwo(place: nat): nat { place / 256 % TWO }

  // The masks and shifts of the code are these indices.
  lemma MasksAreIndices(place: nat)
    ensures And(place, CHECK_ONE) == IndexOne(place)
    ensures And(place, CHECK_TWO) / 256 == IndexTwo(place)
  {
    hide And;
    assert Pow2(6) == 64 && Pow2(8) == 256;
    AndIsRemainder(place, 8);
    AndShifted(place, 63, 8);
    AndIsRemainder(place / 256, 6);
  }

  lemma TurnIsMasked(turn: nat)
    ensures And(turn, TWO - 1) == turn % TWO
  {
    assert Pow2(6) == TWO;
    AndIsRemainder(turn, 6);
  }

  datatype Task = Task(id: nat, expire: int)

  // `tick` counts every iteration; the code keeps its low 32 bits.
  datatype Wheel = Wheel(tick: nat, one: seq<seq<Task>>, two: seq<seq<Task>>, cancelled: set<nat>)

  predicate Wf(w: Wheel) {
    |w.one| == ONE && |w.two| == TWO
  }

  function Place(w: Wheel): nat { w.tick % WORD }

  function Push(buckets: seq<seq<Task>>, b: nat, x: Task): seq<seq<Task>>
    requires b < |buckets|
  {
    buckets[b := buckets[b] + [x]]
  }

  // Level one up to 255 gaps ahead, level two up to 16128.
  function SetTask(w: Wheel, delay: nat, x: Task): (r: Wheel)
    requires Wf(w) && delay / GAP <= CHECK_TWO
    ensures Wf(r)
  {
    var gaps := delay / GAP;
    if gaps <= CHECK_ONE then
      w.(one := Push(w.one, (IndexOne(Place(w)) + gaps) % ONE, x))
    else
      w.(two := Push(w.two, IndexTwo(Place(w) + gaps), x))
  }

  // How far ahead of tick k a task expiring then is put; early or late is clamped.
  function GapsLeft(expire: int, k: nat): (g: nat)
    ensures g <= CHECK_ONE
  {
    var delay := expire - GAP * k;
    var gaps := if delay < 0 then 0 else delay / GAP;
    if gaps >= CHECK_ONE then CHECK_ONE else gaps
  }

  function Distribute(w: Wheel, one: seq<seq<Task>>, tasks: seq<Task>): (r: seq<seq<Task>>)
    requires |one| == ONE
    ensures |r| == ONE
  {
    if tasks == [] then one else
    var before := Distribute(w, one, tasks[..|tasks| - 1]);
    var x := tasks[|tasks| - 1];
    if x.id in w.cancelled then before
    else Push(before, (IndexOne(Place(w)) + GapsLeft(x.expire, w.tick)) % ONE, x)
  }

  // Level two moves to its next bucket with the next tick.
  predicate Turns(w: Wheel) {
    (IndexTwo(Place(w)) + 1) % TWO == IndexTwo((Place(w) + 1) % WORD)
  }

  function NextTwo(w: Wheel): (b: nat)
    ensures b < TWO
  {
    IndexTwo((Place(w) + 1) % WORD)
  }

  function Cascade(w: Wheel): (r: Wheel)
    requires Wf(w)
    ensures Wf(r)
  {
    if !Turns(w) then w
    else w.(one := Distribute(w, w.one, w.two[NextTwo(w)]), two := w.two[NextTwo(w) := []])
  }

  function Live(w: Wheel, tasks: seq<Task>): seq<Task> {
    if tasks == [] then []
    else Live(w, tasks[..|tasks| - 1]) + if tasks[|tasks| - 1].id in w.cancelled then [] else [tasks[|tasks| - 1]]
  }

  // What the iteration runs, in order.
  function Ran(w: Wheel): seq<Task>
    requires Wf(w)
  {
    Live(w, Cascade(w).one[IndexOne(Place(w))])
  }

  function Advance(w: Wheel): (r: Wheel)
    requires Wf(w)
    ensures Wf(r)
  {
    var c := Cascade(w);
    c.(one := c.one[IndexOne(Place(w)) := []], tick := w.tick + 1)
  }

  // ---- Indices do not notice the 32-bit wrap -----------------------------

  lemma ModShift(y: nat, m: nat, q: nat)
    requires m > 0
    ensures (y + m * q) % m == y % m
  {
    assert y + m * q == m * (y / m + q) + y % m;
    var r := y + m * q;
    var d := r / m - (y / m + q);
    assert m * d == y % m - r % m;
    assert d > 0 ==> m * d >= m;
    assert d < 0 ==> m * d + m <= 0;
  }

  lemma IndexShift(x: nat, q: nat)
    ensures IndexTwo(x + 0x4000 * q) == IndexTwo(x) && IndexOne(x + 0x4000 * q) == IndexOne(x)
  {
    assert (x + 0x4000 * q) / 256 == x / 256 + 64 * q;
    ModShift(x / 256, 64, q);
    ModShift(x, 256, 64 * q);
  }

  lemma PlaceIndices(w: Wheel, k: nat)
    ensures IndexOne(Place(w)) == IndexOne(w.tick)
    ensures IndexTwo(Place(w) + k) == IndexTwo(w.tick + k)
    ensures NextTwo(w) == IndexTwo(w.tick + 1)
    ensures Turns(w) <==> w.tick % 256 == 255
  {
    hide IndexOne, IndexTwo;
    var q := w.tick / WORD;
    assert w.tick == Place(w) + 0x4000 * (0x4_0000 * q);
    IndexShift(Place(w), 0x4_0000 * q);
    IndexShift(Place(w) + k, 0x4_0000 * q);
    IndexShift(Place(w) + 1, 0x4_0000 * q);
    if Place(w) + 1 == WORD { IndexShift(0, 0x4_0000); }
    TurnsEvery256(w.tick);
  }

  lemma TurnsEvery256(k: nat)
    ensures (IndexTwo(k) + 1) % TWO == IndexTwo(k + 1) <==> k % 256 == 255
  {
    assert (k + 1) / 256 == if k % 256 == 255 then k / 256 + 1 else k / 256;
  }

  // ---- Where a task is ---------------------------------------------------

  function Times(bucket: seq<Task>, x: Task): nat {
    multiset(bucket)[x]
  }

  // x is in bucket b, once, and nowhere else in the level.
  predicate Alone(level: seq<seq<Task>>, b: int, x: Task) {
    forall i :: 0 <= i < |level| ==> Times(level[i], x) == if i == b then 1 else 0
  }

  predicate Absent(level: seq<seq<Task>>, x: Task) {
    Alone(level, -1, x)
  }

  // x waits in level one for tick k.
  predicate InOne(w: Wheel, x: Task, k: nat) {
    w.tick <= k < w.tick + ONE && Alone(w.one, IndexOne(k), x) && Absent(w.two, x)
  }

  // x waits in level two for the cascade at the end of tick c.
  predicate InTwo(w: Wheel, x: Task, c: nat) {
    && w.tick <= c < w.tick + 0x4000 && c % 256 == 255
    && Alone(w.two, IndexTwo(c + 1), x) && Absent(w.one, x)
  }

  // x is in the wheel once, is not cancelled, and will run at tick k.
  ghost predicate Scheduled(w: Wheel, x: Task, k: nat) {
    && x.id !in w.cancelled
    && (InOne(w, x, k) || exists c: nat :: InTwo(w, x, c) && k == c + GapsLeft(x.expire, c))
  }

  ghost predicate Gone(w: Wheel, x: Task) {
    Absent(w.one, x) && Absent(w.two, x)
  }

  lemma {:induction false} DistributeTimes(w: Wheel, one: seq<seq<Task>>, tasks: seq<Task>, x: Task, b: nat)
    requires |one| == ONE && b < ONE && x.id !in w.cancelled
    ensures Times(Distribute(w, one, tasks)[b], x) == Times(one[b], x) +
      if b == (IndexOne(Place(w)) + GapsLeft(x.expire, w.tick)) % ONE then Times(tasks, x) else 0
  {
    if tasks != [] {
      DistributeTimes(w, one, tasks[..|tasks| - 1], x, b);
      assert tasks == tasks[..|tasks| - 1] + [tasks[|tasks| - 1]];
    }
  }

  // A cancelled task does not come down: level one gets nothing of it.
  lemma {:induction false} DistributeDrops(w: Wheel, one: seq<seq<Task>>, tasks: seq<Task>, x: Task, b: nat)
    requires |one| == ONE && b < ONE && x.id in w.cancelled
    ensures Times(Distribute(w, one, tasks)[b], x) == Times(one[b], x)
  {
    if tasks != [] { DistributeDrops(w, one, tasks[..|tasks| - 1], x, b); }
  }

  lemma {:induction false} LiveTimes(w: Wheel, tasks: seq<Task>, x: Task)
    requires x.id !in w.cancelled
    ensures Times(Live(w, tasks), x) == Times(tasks, x)
  {
    if tasks != [] {
      LiveTimes(w, tasks[..|tasks| - 1], x);
      assert tasks == tasks[..|tasks| - 1] + [tasks[|tasks| - 1]];
    }
  }

  // ---- One iteration -----------------------------------------------------

  lemma CascadeOne(w: Wheel, x: Task, k: nat)
    requires Wf(w) && x.id !in w.cancelled && InOne(w, x, k)
    ensures InOne(Cascade(w), x, k)
  {
    hide Distribute, Times;
    if Turns(w) {
      forall b: nat | b < ONE ensures Times(Cascade(w).one[b], x) == Times(w.one[b], x) {
        DistributeTimes(w, w.one, w.two[NextTwo(w)], x, b);
      }
      NoTimes(x);
    }
  }

  lemma NoTimes(x: Task)
    ensures Times([], x) == 0
  {
  }

  lemma CascadeTwo(w: Wheel, x: Task, c: nat)
    requires Wf(w) && x.id !in w.cancelled && InTwo(w, x, c)
    ensures w.tick == c ==> InOne(Cascade(w), x, c + GapsLeft(x.expire, c))
    ensures w.tick != c ==> InTwo(Cascade(w), x, c)
  {
    hide Distribute, Times, Turns, NextTwo, IndexOne, IndexTwo, GapsLeft, Place;
    PlaceIndices(w, 0);
    NoTimes(x);
    if Turns(w) {
      if w.tick != c { DifferentTurns(w.tick, c); }
      AddIndex(w.tick, GapsLeft(x.expire, w.tick));
      forall b: nat | b < ONE ensures Times(Cascade(w).one[b], x) ==
        if w.tick == c && b == IndexOne(c + GapsLeft(x.expire, c)) then 1 else 0
      {
        DistributeTimes(w, w.one, w.two[NextTwo(w)], x, b);
      }
    }
  }

  lemma AddIndex(k: nat, g: nat)
    ensures (IndexOne(k) + g) % ONE == IndexOne(k + g)
  {
  }

  lemma DifferentTurns(a: nat, c: nat)
    requires a < c < a + 0x4000 && a % 256 == 255 && c % 256 == 255
    ensures IndexTwo(a + 1) != IndexTwo(c + 1)
  {
    var i, j := (a + 1) / 256, (c + 1) / 256;
    assert a + 1 == 256 * i && c + 1 == 256 * j && 0 < j - i < 64;
  }

  // A scheduled task runs at its tick, once, and is then gone; before that it
  // stays scheduled and does not run.
  lemma AdvanceScheduled(w: Wheel, x: Task, k: nat)
    requires Wf(w) && Scheduled(w, x, k)
    ensures w.tick <= k
    ensures w.tick == k ==> Times(Ran(w), x) == 1 && Gone(Advance(w), x)
    ensures w.tick < k ==> Times(Ran(w), x) == 0 && Scheduled(Advance(w), x, k)
  {
    hide Times, Cascade, Turns, GapsLeft;
    PlaceIndices(w, 0);
    var c := Cascade(w);
    CascadeFrame(w);
    LiveTimes(w, c.one[IndexOne(Place(w))], x);
    NoTimes(x);
    if InOne(w, x, k) {
      CascadeOne(w, x, k);
      RunOne(w, x, k);
    } else {
      var d: nat :| InTwo(w, x, d) && k == d + GapsLeft(x.expire, d);
      CascadeTwo(w, x, d);
      if w.tick == d {
        RunOne(w, x, k);
      } else {
        assert InTwo(Advance(w), x, d);
      }
    }
  }

  lemma CascadeFrame(w: Wheel)
    requires Wf(w)
    ensures Cascade(w).tick == w.tick && Cascade(w).cancelled == w.cancelled
  {
  }

  lemma RunOne(w: Wheel, x: Task, k: nat)
    requires Wf(w) && x.id !in w.cancelled && InOne(Cascade(w), x, k) && Cascade(w).tick == w.tick
    requires Cascade(w).cancelled == w.cancelled
    ensures w.tick == k ==> Times(Ran(w), x) == 1 && Gone(Advance(w), x)
    ensures w.tick < k ==> Times(Ran(w), x) == 0 && Scheduled(Advance(w), x, k)
  {
    hide Times, Cascade, Turns, GapsLeft;
    PlaceIndices(w, 0);
    LiveTimes(w, Cascade(w).one[IndexOne(Place(w))], x);
    NoTimes(x);
    if w.tick < k { DifferentPlaces(w.tick, k); }
  }

  lemma DifferentPlaces(a: nat, k: nat)
    requires a < k < a + ONE
    ensures IndexOne(a) != IndexOne(k)
  {
  }

  // ---- Setting a task ----------------------------------------------------

  lemma PushAlone(level: seq<seq<Task>>, b: nat, x: Task)
    requires b < |level| && Absent(level, x)
    ensures Alone(Push(level, b, x), b, x)
  {
    assert Push(level, b, x)[b] == level[b] + [x];
  }

  lemma PushOther(level: seq<seq<Task>>, b: nat, y: Task, x: Task, at: int)
    requires b < |level| && Alone(level, at, x) && x != y
    ensures Alone(Push(level, b, y), at, x)
  {
    assert Push(level, b, y)[b] == level[b] + [y];
  }

  // The cascade that will move a level-two task: the next time level two
  // turns to its bucket.
  function TurnBefore(k: nat): nat
    requires k >= 256
  {
    k / 256 * 256 - 1
  }

  lemma TurnIsNext(t: nat, g: nat)
    requires CHECK_ONE < g <= CHECK_TWO
    ensures var c := TurnBefore(t + g);
      t <= c < t + 0x4000 && c % 256 == 255 && IndexTwo(c + 1) == IndexTwo(t + g)
  {
    var q := (t + g) / 256;
    assert t + g == 256 * q + (t + g) % 256;
    assert (256 * q) / 256 == q;
  }

  // At the cascade the rest of the delay is rounded down, so the task lands on
  // its tick or the one before it.
  lemma LandsWithinOne(t: nat, now: int, delay: nat)
    requires GAP * t - GAP <= now <= GAP * t && CHECK_ONE < delay / GAP <= CHECK_TWO
    ensures var due, c := t + delay / GAP, TurnBefore(t + delay / GAP);
      due - 1 <= c + GapsLeft(now + delay, c) <= due
  {
    var g := delay / GAP;
    var c := TurnBefore(t + g);
    TurnIsNext(t, g);
    var left := now + delay - GAP * c;
    var k := t + g - c;
    assert t + g == 256 * ((t + g) / 256) + (t + g) % 256;
    assert 1 <= k <= 256;
    assert delay == GAP * g + delay % GAP;
    assert GAP * (k - 1) <= left < GAP * (k + 1);
    assert left / GAP == k - 1 || left / GAP == k;
  }

  // A task set at tick t runs at exactly t + G when its delay is G <= 255
  // ticks, and at t + G or one tick earlier when 256 <= G <= 16128. It is set
  // after the iteration before tick t and before the one of tick t.
  lemma SetSchedules(w: Wheel, delay: nat, now: int, x: Task)
    requires Wf(w) && delay / GAP <= CHECK_TWO && GAP * w.tick - GAP <= now <= GAP * w.tick
    requires x.expire == now + delay && x.id !in w.cancelled && Gone(w, x)
    ensures var due := w.tick + delay / GAP;
      exists k: nat :: Scheduled(SetTask(w, delay, x), x, k) && k <= due
                && (if delay / GAP <= CHECK_ONE then k == due else due - 1 <= k)
  {
    var g := delay / GAP;
    var w' := SetTask(w, delay, x);
    hide Times, IndexOne, IndexTwo, GapsLeft, Place;
    PlaceIndices(w, g);
    if g <= CHECK_ONE {
      AddIndex(w.tick, g);
      PushAlone(w.one, (IndexOne(Place(w)) + g) % ONE, x);
      assert InOne(w', x, w.tick + g);
      assert Scheduled(w', x, w.tick + g);
    } else {
      var c := TurnBefore(w.tick + g);
      TurnIsNext(w.tick, g);
      IndexInTwo(w.tick + g);
      PushAlone(w.two, IndexTwo(Place(w) + g), x);
      LandsWithinOne(w.tick, now, delay);
      assert InTwo(w', x, c);
      assert Scheduled(w', x, c + GapsLeft(x.expire, c));
    }
  }

  lemma IndexInTwo(k: nat)
    ensures IndexTwo(k) < TWO
  {
  }

  // Setting another task does not disturb it.
  lemma SetKeepsScheduled(w: Wheel, delay: nat, y: Task, x: Task, k: nat)
    requires Wf(w) && delay / GAP <= CHECK_TWO && x != y && Scheduled(w, x, k)
    ensures Scheduled(SetTask(w, delay, y), x, k)
  {
    hide Times, IndexTwo, GapsLeft, Place;
    var w' := SetTask(w, delay, y);
    IndexInTwo(Place(w) + delay / GAP);
    var b1, b2 := (IndexOne(Place(w)) + delay / GAP) % ONE, IndexTwo(Place(w) + delay / GAP);
    if InOne(w, x, k) {
      PushOther(w.one, b1, y, x, IndexOne(k));
      PushOther(w.two, b2, y, x, -1);
      assert InOne(w', x, k);
    } else {
      var c: nat :| InTwo(w, x, c) && k == c + GapsLeft(x.expire, c);
      PushOther(w.one, b1, y, x, -1);
      PushOther(w.two, b2, y, x, IndexTwo(c + 1));
      assert InTwo(w', x, c);
    }
  }

  // Neither does a task that comes down from level three.
  lemma DropKeepsScheduled(w: Wheel, b: nat, y: Task, x: Task, k: nat)
    requires Wf(w) && b < TWO && x != y && Scheduled(w, x, k)
    ensures Scheduled(w.(two := Push(w.two, b, y)), x, k)
  {
    hide Times, IndexTwo, GapsLeft, Place;
    var w' := w.(two := Push(w.two, b, y));
    if InOne(w, x, k) {
      PushOther(w.two, b, y, x, -1);
      assert InOne(w', x, k);
    } else {
      var c: nat :| InTwo(w, x, c) && k == c + GapsLeft(x.expire, c);
      PushOther(w.two, b, y, x, IndexTwo(c + 1));
      assert InTwo(w', x, c);
    }
  }

  // ---- Whole runs --------------------------------------------------------

  // Tasks with longer delays wait in the levels above, which are not part of
  // the wheel here; when their time comes, level three drops them into some
  // bucket of level two.
  datatype Event = Tick | Set(delay: nat, task: Task) | Cancel(id: nat) | Drop(bucket: nat, task: Task)

  // Events that leave x alone: others may be set with any delay, be dropped
  // from above and be cancelled.
  predicate Spares(e: Event, x: Task) {
    match e
    case Tick => true
    case Set(_, y) => y != x
    case Cancel(id) => id != x.id
    case Drop(b, y) => b < TWO && y != x
  }

  function Apply(w: Wheel, e: Event): (r: Wheel)
    requires Wf(w)
    ensures Wf(r)
  {
    match e
    case Tick => Advance(w)
    case Set(delay, y) => if delay / GAP <= CHECK_TWO then SetTask(w, delay, y) else w
    case Cancel(id) => w.(cancelled := w.cancelled + {id})
    case Drop(b, y) => if b < TWO then w.(two := Push(w.two, b, y)) else w
  }

  function After(w: Wheel, events: seq<Event>): (r: Wheel)
    requires Wf(w)
    ensures Wf(r)
    decreases |events|
  {
    if events == [] then w else After(Apply(w, events[0]), events[1..])
  }

  // The ticks at which x runs, once for each time it runs.
  function RunTicks(w: Wheel, events: seq<Event>, x: Task): seq<nat>
    requires Wf(w)
    decreases |events|
  {
    if events == [] then []
    else (if events[0].Tick? then seq(Times(Ran(w), x), _ => w.tick) else [])
         + RunTicks(Apply(w, events[0]), events[1..], x)
  }

  lemma GoneStays(w: Wheel, e: Event, x: Task)
    requires Wf(w) && Spares(e, x) && Gone(w, x) && x.id !in w.cancelled
    ensures Gone(Apply(w, e), x) && x.id !in Apply(w, e).cancelled
    ensures e.Tick? ==> Times(Ran(w), x) == 0
  {
    match e {
      case Tick => GoneAdvance(w, x);
      case Set(delay, y) =>
        hide Times, IndexTwo, Place;
        IndexInTwo(Place(w) + delay / GAP);
        PushOther(w.one, (IndexOne(Place(w)) + delay / GAP) % ONE, y, x, -1);
        PushOther(w.two, IndexTwo(Place(w) + delay / GAP), y, x, -1);
      case Cancel(_) =>
      case Drop(b, y) => PushOther(w.two, b, y, x, -1);
    }
  }

  lemma GoneAdvance(w: Wheel, x: Task)
    requires Wf(w) && Gone(w, x) && x.id !in w.cancelled
    ensures Gone(Advance(w), x) && Times(Ran(w), x) == 0
  {
    hide Times, Distribute, Turns, GapsLeft, Live, NextTwo;
    NoTimes(x);
    var c := Cascade(w);
    if Turns(w) {
      forall b: nat | b < ONE ensures Times(c.one[b], x) == 0 {
        DistributeTimes(w, w.one, w.two[NextTwo(w)], x, b);
      }
    }
    LiveTimes(w, c.one[IndexOne(Place(w))], x);
  }

  lemma {:induction false} NeverAgain(w: Wheel, events: seq<Event>, x: Task)
    requires Wf(w) && (forall i :: 0 <= i < |events| ==> Spares(events[i], x))
    requires Gone(w, x) && x.id !in w.cancelled
    ensures RunTicks(w, events, x) == []
    decreases |events|
  {
    hide Gone, Ran, Apply, Spares;
    if events != [] {
      GoneStays(w, events[0], x);
      NeverAgain(Apply(w, events[0]), events[1..], x);
    }
  }

  lemma ScheduledStep(w: Wheel, e: Event, x: Task, k: nat)
    requires Wf(w) && Spares(e, x) && Scheduled(w, x, k)
    ensures w.tick <= k && x.id !in w.cancelled && x.id !in Apply(w, e).cancelled
    ensures !e.Tick? ==> Scheduled(Apply(w, e), x, k) && Apply(w, e).tick == w.tick
    ensures e.Tick? ==> Apply(w, e) == Advance(w) && Apply(w, e).tick == w.tick + 1
  {
    hide Times, IndexOne, IndexTwo, GapsLeft, Place, Distribute, Turns, NextTwo;
    match e {
      case Tick => CascadeFrame(w);
      case Set(delay, y) => if delay / GAP <= CHECK_TWO { SetKeepsScheduled(w, delay, y, x, k); }
      case Drop(b, y) => DropKeepsScheduled(w, b, y, x, k);
      case Cancel(id) =>
        if !InOne(w, x, k) {
          var c: nat :| InTwo(w, x, c) && k == c + GapsLeft(x.expire, c);
          assert InTwo(Apply(w, e), x, c);
        }
    }
  }

  // Whatever else is set and cancelled meanwhile, a scheduled task that is not
  // itself cancelled runs exactly once, at its tick, as soon as the wheel has
  // got past it; before that it has not run.
  lemma {:induction false} RunsExactlyOnce(w: Wheel, events: seq<Event>, x: Task, k: nat)
    requires Wf(w) && (forall i :: 0 <= i < |events| ==> Spares(events[i], x)) && Scheduled(w, x, k)
    ensures RunTicks(w, events, x) == if After(w, events).tick > k then [k] else []
    decreases |events|
  {
    hide Gone, Ran, Apply, Spares, Scheduled, Advance;
    if events == [] {
      ScheduledAhead(w, x, k);
    } else {
      var e := events[0];
      ScheduledStep(w, e, x, k);
      if e.Tick? {
        AdvanceScheduled(w, x, k);
        if w.tick == k {
          NeverAgain(Advance(w), events[1..], x);
          TicksGrow(Advance(w), events[1..], x);
        } else {
          RunsExactlyOnce(Advance(w), events[1..], x, k);
        }
      } else {
        RunsExactlyOnce(Apply(w, e), events[1..], x, k);
      }
    }
  }

  lemma ScheduledAhead(w: Wheel, x: Task, k: nat)
    requires Wf(w) && Scheduled(w, x, k)
    ensures w.tick <= k
  {
  }

  lemma {:induction false} TicksGrow(w: Wheel, events: seq<Event>, x: Task)
    requires Wf(w) && forall i :: 0 <= i < |events| ==> Spares(events[i], x)
    ensures After(w, events).tick >= w.tick
    decreases |events|
  {
    if events != [] {
      CascadeFrame(w);
      TicksGrow(Apply(w, events[0]), events[1..], x);
    }
  }

  // ---- Cancelled tasks ---------------------------------------------------

  // Which of the tasks are live, by their places: all those that are not
  // cancelled, in the order they are in.
  lemma {:induction false} LiveIs(w: Wheel, tasks: seq<Task>) returns (at: seq<nat>)
    ensures |at| == |Live(w, tasks)|
    ensures forall i :: 0 <= i < |at| ==> at[i] < |tasks| && Live(w, tasks)[i] == tasks[at[i]]
    ensures forall i, j :: 0 <= i < j < |at| ==> at[i] < at[j]
    ensures forall j :: 0 <= j < |tasks| ==> (j in at <==> tasks[j].id !in w.cancelled)
  {
    if tasks == [] {
      at := [];
    } else {
      var n := |tasks| - 1;
      at := LiveIs(w, tasks[..n]);
      if tasks[n].id !in w.cancelled { at := at + [n]; }
    }
  }

  // What an iteration runs: the tasks of its bucket that are not cancelled, in
  // the order of the bucket.
  lemma RanIs(w: Wheel) returns (at: seq<nat>)
    requires Wf(w)
    ensures var tasks := Cascade(w).one[IndexOne(Place(w))];
      && |at| == |Ran(w)|
      && (forall i :: 0 <= i < |at| ==> at[i] < |tasks| && Ran(w)[i] == tasks[at[i]])
      && (forall i, j :: 0 <= i < j < |at| ==> at[i] < at[j])
      && (forall j :: 0 <= j < |tasks| ==> (j in at <==> tasks[j].id !in w.cancelled))
  {
    CascadeFrame(w);
    at := LiveIs(w, Cascade(w).one[IndexOne(Place(w))]);
  }

  lemma {:induction false} LiveWithout(w: Wheel, tasks: seq<Task>, x: Task)
    requires x.id in w.cancelled
    ensures Times(Live(w, tasks), x) == 0
  {
    NoTimes(x);
    if tasks != [] {
      var n := |tasks| - 1;
      LiveWithout(w, tasks[..n], x);
      if tasks[n].id !in w.cancelled { assert Live(w, tasks)[..|Live(w, tasks)| - 1] == Live(w, tasks[..n]); }
    }
  }

  // One iteration does not run a cancelled task, wherever it is.
  lemma CancelledDoesNotRun(w: Wheel, x: Task)
    requires Wf(w) && x.id in w.cancelled
    ensures Times(Ran(w), x) == 0
  {
    LiveWithout(w, Cascade(w).one[IndexOne(Place(w))], x);
  }

  // Once a task is cancelled it does not run again, whatever else happens: not
  // from level one, nor from level two, nor dropped from above, nor set again.
  lemma {:induction false} CancelledNeverRuns(w: Wheel, events: seq<Event>, x: Task)
    requires Wf(w) && x.id in w.cancelled
    ensures RunTicks(w, events, x) == []
    decreases |events|
  {
    hide Ran, Distribute, Turns, Place, IndexOne, IndexTwo, Push;
    if events != [] {
      CancelledDoesNotRun(w, x);
      StaysCancelled(w, events[0], x);
      CancelledNeverRuns(Apply(w, events[0]), events[1..], x);
    }
  }

  lemma StaysCancelled(w: Wheel, e: Event, x: Task)
    requires Wf(w) && x.id in w.cancelled
    ensures x.id in Apply(w, e).cancelled
  {
  }

  // So after a Cancel the rest of the run has no tick for the task.
  lemma CancelStops(w: Wheel, before: seq<Event>, after: seq<Event>, x: Task)
    requires Wf(w)
    ensures RunTicks(After(w, before + [Cancel(x.id)]), after, x) == []
  {
    AfterJoins(w, before, [Cancel(x.id)]);
    var w1 := After(w, before);
    assert [Cancel(x.id)][1..] == [];
    assert After(w1, [Cancel(x.id)]) == Apply(w1, Cancel(x.id));
    CancelledNeverRuns(Apply(w1, Cancel(x.id)), after, x);
  }

  lemma {:induction false} AfterJoins(w: Wheel, a: seq<Event>, b: seq<Event>)
    requires Wf(w)
    ensures After(w, a + b) == After(After(w, a), b)
    decreases |a|
  {
    if a == [] {
      assert a + b == b;
    } else {
      assert (a + b)[1..] == a[1..] + b;
      AfterJoins(Apply(w, a[0]), a[1..], b);
    }
  }

  // ---- Accuracy ----------------------------------------------------------

  // Timer accuracy: from the moment it is set, and for every tick including
  // those where the 32-bit counter wraps, the task runs once, at t + G when G
  // is at most 255, at t + G or the tick before it when G is at most 16128.
  lemma RunsOnTime(w: Wheel, delay: nat, now: int, x: Task, events: seq<Event>)
    requires Wf(w) && delay / GAP <= CHECK_TWO && GAP * w.tick - GAP <= now <= GAP * w.tick
    requires x.expire == now + delay && x.id !in w.cancelled && Gone(w, x)
    requires forall i :: 0 <= i < |events| ==> Spares(events[i], x)
    requires After(SetTask(w, delay, x), events).tick > w.tick + delay / GAP
    ensures var due := w.tick + delay / GAP;
      var ticks := RunTicks(SetTask(w, delay, x), events, x);
      |ticks| == 1 && ticks[0] <= due && (if delay / GAP <= CHECK_ONE then ticks[0] == due else due - 1 <= ticks[0])
  {
    hide Gone, Scheduled, SetTask, After, RunTicks;
    SetSchedules(w, delay, now, x);
    var due := w.tick + delay / GAP;
    var k: nat :| Scheduled(SetTask(w, delay, x), x, k) && k <= due
                  && (if delay / GAP <= CHECK_ONE then k == due else due - 1 <= k);
    RunsExactlyOnce(SetTask(w, delay, x), events, x, k);
  }

  // ---- The wheel in place ------------------------------------------------

  class Timer {
    var tick: nat
    const one: array<seq<Task>>
    const two: array<seq<Task>>
    var cancelled: set<nat>

    ghost predicate Valid()
      reads this
    {
      one.Length == ONE && two.Length == TWO && one != two
    }

    ghost function Value(): Wheel
      reads this, one, two
    {
      Wheel(tick, one[..], two[..], cancelled)
    }

    constructor ()
      ensures Valid() && fresh(one) && fresh(two)
      ensures Value().tick == 0 && forall x: Task :: Gone(Value(), x)
    {
      tick, cancelled := 0, {};
      one := new seq<Task>[ONE](_ => []);
      two := new seq<Task>[TWO](_ => []);
      new;
      forall x: Task ensures Times([], x) == 0 {}
    }

    method SetTimeout(delay: nat, x: Task)
      requires Valid() && delay / GAP <= CHECK_TWO
      modifies one, two
      ensures Valid() && Value() == SetTask(old(Value()), delay, x)
    {
      hide And;
      var gaps := delay / GAP;
      var place := tick % WORD;
      MasksAreIndices(place);
      MasksAreIndices(place + gaps);
      if gaps <= CHECK_ONE {
        MasksAreIndices(gaps);
        MasksAreIndices(IndexOne(place) + gaps);
        var bucket := And(And(place, CHECK_ONE) + And(gaps, CHECK_ONE), ONE - 1);
        one[bucket] := one[bucket] + [x];
      } else {
        var bucket := And(place + gaps, CHECK_TWO) / 256;
        two[bucket] := two[bucket] + [x];
      }
    }

    // Cancels a task: the event of that name.
    method ClearTimeout(x: Task)
      requires Valid()
      modifies this`cancelled
      ensures Valid() && Value() == old(Value()).(cancelled := old(cancelled) + {x.id})
      ensures Value() == Apply(old(Value()), Cancel(x.id))
    {
      cancelled := cancelled + {x.id};
    }

    // Moves the tasks of the bucket level two turns to into level one.
    method MoveDown(next: nat)
      requires Valid() && next < TWO
      modifies one, two
      ensures Valid()
      ensures one[..] == Distribute(old(Value()), old(one[..]), old(two[next]))
      ensures two[..] == old(two[..])[next := []]
    {
      hide And;
      ghost var w := Value();
      var tasks := two[next];
      for i := 0 to |tasks|
        invariant one[..] == Distribute(w, w.one, tasks[..i]) && two[..] == w.two
      {
        var x := tasks[i];
        assert tasks[..i + 1][..i] == tasks[..i];
        if x.id !in cancelled {
          var delay := x.expire - GAP * tick;
          if delay < 0 {
            delay := 0;
          }
          var gaps := delay / GAP;
          if gaps >= CHECK_ONE {
            gaps := CHECK_ONE;
          }
          MasksAreIndices(tick % WORD);
          MasksAreIndices(IndexOne(tick % WORD) + gaps);
          var bucket := And(And(tick % WORD, CHECK_ONE) + gaps, ONE - 1);
          one[bucket] := one[bucket] + [x];
        }
      }
      assert tasks[..|tasks|] == tasks;
      two[next] := [];
    }

    // One iteration of the loop; `ran` are the callbacks it makes, in order.
    method Iterate() returns (ran: seq<Task>)
      requires Valid()
      modifies this`tick, one, two
      ensures Valid() && ran == Ran(old(Value())) && Value() == Advance(old(Value()))
    {
      hide And;
      ghost var w := Value();
      var place := tick % WORD;
      MasksAreIndices(place);
      MasksAreIndices((place + 1) % WORD);
      TurnIsMasked(IndexTwo(place) + 1);
      var index := And(place, CHECK_ONE);
      var next := And((place + 1) % WORD, CHECK_TWO) / 256;
      if And(And(place, CHECK_TWO) / 256 + 1, TWO - 1) == next {
        MoveDown(next);
      }
      assert Value() == Cascade(w);
      ran := [];
      var tasks := one[index];
      for i := 0 to |tasks|
        invariant ran == Live(w, tasks[..i])
      {
        assert tasks[..i + 1][..i] == tasks[..i];
        if tasks[i].id !in cancelled {
          ran := ran + [tasks[i]];
        }
      }
      assert tasks[..|tasks|] == tasks;
      one[index] := [];
      tick := tick + 1;
    }
  }
}
