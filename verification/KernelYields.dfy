/** Preemption: whenever no yield is outstanding, the task that runs is ready and no ready task has a
    higher priority. */
module KernelYields {
  import opened Bytes
  import opened Rings
  import opened Worlds
  import opened Timing
  import opened Kernel
  import opened KernelInvariant
  import opened KernelRuns
  import opened KernelTheorems
  import opened KernelRanks
  import opened KernelReach

  predicate IsReady(b: Tcb) {
    b.gen.On? && b.gen.id.Ready?
  }

  /** Task t is ready and no ready task has a higher priority. */
  ghost predicate Highest(tcb: map<Task, Tcb>, t: Task) {
    && t in tcb && IsReady(tcb[t])
    && forall u :: u in tcb && IsReady(tcb[u]) ==> tcb[u].prio <= tcb[t].prio
  }

  ghost predicate RunsHighest(k: K) {
    Highest(k.w.tcb, k.current)
  }

  // ----- yields missed while the scheduler is suspended -----------------------------------------

  /** While the scheduler is suspended, a context switch is refused and remembered, and nothing
      forgets it. */
  lemma NextRemembers(k: K, s: Step)
    requires Good(k) && Enabled(k, s) && 0 < k.depth && 0 < Next(k, s).depth
    ensures Next(k, s).missedYield <==> k.missedYield || s.SwitchContext?
    ensures s.SwitchContext? ==> Next(k, s).current == k.current
  {
    hide World.L, World.Linked, World.Ordered, Inv, K.Drain, K.Replay, K.CheckDelayed, K.Detached, K.Blocked,
      ShouldDelay, K.NewBlock;
    if s.ResumeScheduler? {
      ResumeEnds(k);
    }
  }

  lemma ResumeEnds(k: K)
    requires Good(k) && 0 < k.depth
    ensures k.ResumeAll().depth == k.depth - 1 && (k.depth == 1 ==> !k.ResumeAll().missedYield)
  {
    hide World.L, World.Linked, World.Ordered, Home, NonePending;
    if k.depth == 1 {
      ResumeAllExact(k);
    }
  }

  /** Outside a suspension no yield is on record. */
  lemma NextForgets(k: K, s: Step)
    requires Good(k) && Enabled(k, s) && (k.depth == 0 ==> !k.missedYield)
    ensures Next(k, s).depth == 0 ==> !Next(k, s).missedYield
  {
    hide World.L, World.Linked, World.Ordered, Inv, K.CheckDelayed, K.Drain, K.Replay;
    if s.ResumeScheduler? {
      ResumeEnds(k);
    } else if s.Tick? && k.depth == 0 {
      CheckDelayedKeeps(k.(interrupts := k.interrupts + 1).Advanced());
    }
  }

  /** The scheduler is suspended in every state from the first to the last. */
  ghost predicate StaysSuspended(k: K, steps: seq<Step>)
    requires Good(k) && Feasible(k, steps)
    decreases |steps|
  {
    0 < k.depth && (steps != [] ==> (NextGood(k, steps[0]); StaysSuspended(Next(k, steps[0]), steps[1..])))
  }

  predicate SwitchIn(steps: seq<Step>) {
    steps != [] && (steps[0].SwitchContext? || SwitchIn(steps[1..]))
  }

  lemma {:induction false} RunRemembers(k: K, steps: seq<Step>)
    requires Good(k) && Feasible(k, steps) && StaysSuspended(k, steps)
    ensures Run(k, steps).missedYield <==> k.missedYield || SwitchIn(steps)
    ensures 0 < Run(k, steps).depth
    decreases |steps|
  {
    hide Good, Enabled, Next;
    if steps != [] {
      NextGood(k, steps[0]);
      NextRemembers(k, steps[0]);
      RunRemembers(Next(k, steps[0]), steps[1..]);
    }
  }

  lemma {:induction false} RunForgets(k: K, steps: seq<Step>)
    requires Good(k) && Feasible(k, steps) && (k.depth == 0 ==> !k.missedYield)
    ensures Run(k, steps).depth == 0 ==> !Run(k, steps).missedYield
    decreases |steps|
  {
    hide Good, Enabled, Next;
    if steps != [] {
      NextGood(k, steps[0]);
      NextForgets(k, steps[0]);
      RunForgets(Next(k, steps[0]), steps[1..]);
    }
  }

  /** A context switch that is asked for while the scheduler is suspended is not lost: from the
      outermost suspension on, a yield is on record exactly if one has been asked for, and the
      resume that ends the suspension then asks for it again. */
  lemma YieldsAreRemembered(idle: Task, k: K, steps: seq<Step>)
    requires Reachable(idle, k) && Good(k) && k.depth == 0
    requires Good(k.(depth := 1)) && Feasible(k.(depth := 1), steps) && StaysSuspended(k.(depth := 1), steps)
    ensures Next(k, SuspendScheduler) == k.(depth := 1)
    ensures var m := Run(k.(depth := 1), steps);
            (m.missedYield <==> SwitchIn(steps)) && (SwitchIn(steps) ==> m.MustYield())
  {
    hide Inv, Boot;
    var before :| Feasible(Boot(idle), before) && k == Run(Boot(idle), before);
    BootOwesNothing(idle);
    RunForgets(Boot(idle), before);
    RunRemembers(k.(depth := 1), steps);
  }

  lemma BootOwesNothing(idle: Task)
    ensures !Boot(idle).missedYield && Boot(idle).current == idle && Boot(idle).depth == 0
    ensures Highest(Boot(idle).w.tcb, idle)
  {
    hide Good;
  }

  /** A suspension in which nothing happens leaves everything as it was and asks for no yield. */
  lemma QuietSuspension(k: K)
    requires Good(k) && k.depth == 0 && !k.missedYield
    ensures Good(k.(depth := 1)) && k.(depth := 1).ResumeAll() == k && !k.(depth := 1).MustYield()
  {
    hide World.Linked, World.Ordered, Home;
    SuspendSchedulerGood(k);
    ResumeLosesNothing(k.(depth := 1));
    NothingPends(k);
  }

  lemma NothingPends(k: K)
    requires Good(k) && k.depth == 0
    ensures k.w.L(Pending).items == []
  {
    hide World.Ordered;
    if k.w.L(Pending).items != [] {
      PendingHead(k);
    }
  }

  // ----- what a step asks for -------------------------------------------------------------------

  /** The step yields, pends a context switch or tells its caller to do so. */
  ghost predicate Asks(k: K, s: Step)
    requires Good(k) && Enabled(k, s)
  {
    match s
    case Tick => true
    case ResumeScheduler => k.depth == 1 && k.MustYield()
    case Delay(_) => true
    case DelayUntil(_, _) => true
    case WaitFor(_, _) => true
    case Signal(q) =>
      HeadIsEvent(k, q);
      k.B(k.current).prio <= k.B(k.w.L(Event(q)).items[0].task).prio
    case SuspendTask(t) => t == k.current
    case DeleteTask(t) => t == k.current
    case ResumeTask(t) => t != k.current && k.IsSuspended(t) && k.B(k.current).prio <= k.B(t).prio
    case ResumeTaskFromIsr(t) => k.depth == 0 && k.IsSuspended(t) && k.B(k.current).prio <= k.B(t).prio
    case CreateTask(_, priority) => k.B(k.current).prio < priority
    case _ => false
  }

  /** A mutex is given back and no yield asked for, although the running task's own priority falls
      below that of a ready task, or another holder comes to the ready lists above it. */
  ghost predicate Sinks(k: K, s: Step)
    requires Good(k) && Enabled(k, s)
  {
    && s.Disinherit? && k.B(s.holder).prio != k.B(s.holder).base
    && var base := k.B(s.holder).base;
       if s.holder == k.current then
         exists u :: u in k.w.tcb && u != s.holder && IsReady(k.w.tcb[u]) && base < k.w.tcb[u].prio
       else k.B(k.current).prio < base
  }

  // ----- each step ------------------------------------------------------------------------------

  lemma OneBlock(tcb: map<Task, Tcb>, c: Task, t: Task, b: Tcb)
    requires Highest(tcb, c) && t != c && (IsReady(b) ==> b.prio <= tcb[c].prio)
    ensures Highest(tcb[t := b], c)
  {
  }

  lemma OneReady(tcb: map<Task, Tcb>, c: Task, h: Task, b: Tcb)
    requires Highest(tcb, c) && h in tcb && IsReady(b)
    ensures Highest(tcb[h := b], c) <==>
              if h == c then forall u :: u in tcb && u != h && IsReady(tcb[u]) ==> tcb[u].prio <= b.prio
              else b.prio <= tcb[c].prio
  {
    var r := tcb[h := b];
    if Highest(r, c) {
      forall u | u in tcb && u != h && IsReady(tcb[u]) ensures tcb[u].prio <= r[c].prio {
        assert r[u] == tcb[u];
      }
      assert h in r && IsReady(r[h]);
    }
  }

  /** Without a pending task that is no lower and without a delayed one that is due. */
  lemma NoneAbove(tcb: map<Task, Tcb>, now: nat, c: Task)
    requires Highest(tcb, c) && tcb[c].ev == Nowhere && WokenBy(tcb, now) == tcb
    requires forall t :: t in tcb && tcb[t].ev == On(Pending) ==> tcb[t].prio < tcb[c].prio
    ensures Highest(WokenBy(Drained(tcb), now), c)
  {
    forall t | t in tcb ensures WokenBy(Drained(tcb), now)[t] == Drained(tcb)[t] {
      assert WokenBy(tcb, now)[t] == tcb[t];
    }
  }

  lemma CurrentHome(k: K)
    requires Good(k) && RunsHighest(k)
    ensures k.B(k.current).ev == Nowhere
  {
    assert Home(k, k.B(k.current), k.Now() + 1);
  }

  lemma PendingAreLower(k: K)
    requires k.Sane() && !k.PendingOutranks()
    ensures forall t :: t in k.w.tcb && k.w.tcb[t].ev == On(Pending) ==> k.w.tcb[t].prio < k.B(k.current).prio
  {
    hide World.L, World.Linked, World.Ordered;
    forall t | t in k.w.tcb && k.w.tcb[t].ev == On(Pending) ensures k.w.tcb[t].prio < k.B(k.current).prio {
      ItemOn(k, Ev(t), Pending);
      assert Ev(t).task == t;
    }
  }

  lemma ResumeKeeps(k: K)
    requires Good(k) && 0 < k.depth && RunsHighest(k) && !Asks(k, ResumeScheduler)
    ensures RunsHighest(k.ResumeAll())
  {
    hide World.L, World.Linked, World.Ordered, Home, NonePending, WokenBy, Drained, K.PendingOutranks, Highest, K.Now;
    if k.depth == 1 {
      CurrentHome(k);
      CurrentKnown(k);
      PendingAreLower(k);
      ResumeAllExact(k);
      NothingOverdue(k);
      NoneAbove(k.w.tcb, k.Now(), k.current);
    }
  }

  lemma CurrentKnown(k: K)
    requires RunsHighest(k)
    ensures k.current in k.w.tcb
  {
  }

  lemma WakeKeeps(k: K, s: Step)
    requires Good(k) && Enabled(k, s) && (s.Signal? || s.ResumeTask? || s.ResumeTaskFromIsr?)
    requires RunsHighest(k) && !Asks(k, s)
    ensures RunsHighest(Next(k, s))
  {
    hide World.L, World.Linked, World.Ordered, Home, NonePending, Core, K.RemoveFromEventList, K.AddReady;
    match s
    case Signal(q) =>
      WaiterIsBlocked(k, q);
      SignalCore(k, q);
      SignalKeepsClock(k, q);
    case ResumeTask(t) =>
      if t != k.current && k.IsSuspended(t) {
        Resumed(k, t);
      }
    case ResumeTaskFromIsr(t) =>
      ResumeFromIsrCore(k, t);
      if k.depth == 0 && k.IsSuspended(t) {
        Resumed(k, t);
      }
  }

  lemma MoveKeeps(k: K, s: Step)
    requires Good(k) && Enabled(k, s) && (s.SuspendTask? || s.CreateTask? || s.DeleteTask?)
    requires RunsHighest(k) && !Asks(k, s)
    ensures RunsHighest(Next(k, s))
  {
    hide World.L, World.Linked, World.Ordered, Home, NonePending, Core, K.Detached;
    match s
    case SuspendTask(t) => SuspendCore(k, t);
    case DeleteTask(t) => DeleteCore(k, t);
    case CreateTask(t, p) => CreateCore(k, t, p);
  }

  lemma ReapKeeps(k: K)
    requires Good(k) && Enabled(k, Reap) && RunsHighest(k)
    ensures RunsHighest(Next(k, Reap))
  {
    hide World.L, World.Linked, World.Ordered, NonePending, K.Reap;
    DeadHaveNoEvent(k);
    ReapForgets(k);
  }

  lemma InheritKeeps(k: K, h: Task)
    requires Good(k) && h in k.w.tcb && RunsHighest(k)
    ensures RunsHighest(k.Inherit(h))
  {
    hide World.L, World.Linked, World.Ordered, NonePending, K.Reprioritised;
    var p := k.B(k.current).prio;
    if k.B(h).prio < p {
      CoreHome(k, h);
      if k.B(h).gen.id.Ready? {
        ReprioritisedReady(k, h, p);
        OneBlock(k.w.tcb, k.current, h, Moved(k.B(h), p));
      } else {
        InheritedWhileBlocked(k, h, p);
        OneBlock(k.w.tcb, k.current, h, k.B(h).(rank := PRIORITIES - p, prio := p));
      }
    }
  }

  /** Giving a mutex back leaves the running task the highest exactly when it does not sink. */
  lemma DisinheritKeepsExactlyWhen(k: K, h: Task)
    requires Good(k) && Enabled(k, Disinherit(h)) && RunsHighest(k)
    ensures RunsHighest(Next(k, Disinherit(h))) <==> !Sinks(k, Disinherit(h))
  {
    hide World.L, World.Linked, World.Ordered, NonePending, Core, Home, K.Reprioritised, Highest;
    if k.B(h).prio != k.B(h).base {
      ReprioritisedReady(k, h, k.B(h).base);
      OneReady(k.w.tcb, k.current, h, Moved(k.B(h), k.B(h).base));
    }
  }

  lemma SwitchMakesHighest(k: K)
    requires Good(k) && k.depth == 0
    ensures RunsHighest(Next(k, SwitchContext))
  {
    hide World.L, World.Linked, World.Ordered, Home, NonePending;
    SearchStops(k);
    SwitchPicksHighest(k);
  }

  // ----- runs -----------------------------------------------------------------------------------

  /** A yield is outstanding, or the right task runs, or the yield has been put off to the end of the
      suspension. */
  ghost predicate Prompt(k: K, owed: bool) {
    owed || RunsHighest(k) || (0 < k.depth && k.missedYield)
  }

  /** Whether a yield is outstanding after a step. */
  ghost predicate OwedAfter(k: K, owed: bool, s: Step)
    requires Good(k) && Enabled(k, s)
  {
    !s.SwitchContext? && (owed || Asks(k, s))
  }

  /** A step that asks for no yield and does not sink leaves the running task the highest. */
  lemma NextKeepsHighest(k: K, s: Step)
    requires Good(k) && Enabled(k, s) && !s.SwitchContext?
    requires RunsHighest(k) && !Asks(k, s) && !Sinks(k, s)
    ensures RunsHighest(Next(k, s))
  {
    hide RunsHighest, Inv, World.L, World.Linked, World.Ordered, K.ResumeAll, K.RemoveFromEventList, K.SuspendTask,
      K.ResumeTask, K.ResumeTaskFromIsr, K.CreateTask, K.DeleteTask, K.Reap, K.Inherit, K.Disinherit;
    match s
    case ResumeScheduler => ResumeKeeps(k);
    case Signal(_) => WakeKeeps(k, s);
    case ResumeTask(_) => WakeKeeps(k, s);
    case ResumeTaskFromIsr(_) => WakeKeeps(k, s);
    case SuspendTask(_) => MoveKeeps(k, s);
    case CreateTask(_, _) => MoveKeeps(k, s);
    case DeleteTask(_) => MoveKeeps(k, s);
    case Reap => ReapKeeps(k);
    case Inherit(h) => InheritKeeps(k, h);
    case Disinherit(h) => DisinheritKeepsExactlyWhen(k, h);
    case SuspendScheduler => SuspendKeeps(k);
  }

  lemma SuspendKeeps(k: K)
    requires RunsHighest(k)
    ensures RunsHighest(k.(depth := k.depth + 1))
  {
  }

  lemma NextDepth(k: K, s: Step)
    requires Good(k) && Enabled(k, s)
    ensures Next(k, s).depth == if s.SuspendScheduler? then k.depth + 1
                                else if s.ResumeScheduler? then k.depth - 1 else k.depth
  {
    hide World.L, World.Linked, World.Ordered, Inv, K.CheckDelayed, K.ResumeAll;
    if s.ResumeScheduler? {
      ResumeEnds(k);
    } else if s.Tick? && k.depth == 0 {
      CheckDelayedKeeps(k.(interrupts := k.interrupts + 1).Advanced());
    }
  }

  lemma NextPrompt(k: K, owed: bool, s: Step)
    requires Good(k) && Enabled(k, s) && Prompt(k, owed) && !Sinks(k, s)
    ensures Prompt(Next(k, s), OwedAfter(k, owed, s))
  {
    hide Good, Enabled, Next, Asks, Sinks, RunsHighest;
    NextDepth(k, s);
    if s.SwitchContext? {
      if k.depth == 0 { SwitchMakesHighest(k); } else { NextRemembers(k, s); }
    } else if !owed && !Asks(k, s) {
      if RunsHighest(k) { NextKeepsHighest(k, s); } else { MissedStays(k, s); }
    }
  }

  lemma MissedStays(k: K, s: Step)
    requires Good(k) && Enabled(k, s) && 0 < k.depth && k.missedYield && !Asks(k, s)
    ensures 0 < Next(k, s).depth && Next(k, s).missedYield
  {
    hide Good, Next;
    NextDepth(k, s);
    NextRemembers(k, s);
  }

  ghost predicate NeverSinks(k: K, steps: seq<Step>)
    requires Good(k) && Feasible(k, steps)
    decreases |steps|
  {
    steps != [] ==>
      && !Sinks(k, steps[0])
      && (NextGood(k, steps[0]); NeverSinks(Next(k, steps[0]), steps[1..]))
  }

  /** Whether a yield is outstanding after a run. */
  ghost predicate Owed(k: K, owed: bool, steps: seq<Step>)
    requires Good(k) && Feasible(k, steps)
    decreases |steps|
  {
    if steps == [] then owed
    else NextGood(k, steps[0]); Owed(Next(k, steps[0]), OwedAfter(k, owed, steps[0]), steps[1..])
  }

  lemma {:induction false} RunPrompt(k: K, owed: bool, steps: seq<Step>)
    requires Good(k) && Feasible(k, steps) && NeverSinks(k, steps) && Prompt(k, owed)
    ensures Prompt(Run(k, steps), Owed(k, owed, steps))
    decreases |steps|
  {
    hide Good, Enabled, Next, Prompt, OwedAfter, Sinks;
    if steps != [] {
      NextGood(k, steps[0]);
      NextPrompt(k, owed, steps[0]);
      RunPrompt(Next(k, steps[0]), OwedAfter(k, owed, steps[0]), steps[1..]);
    }
  }

  /** In every run of tasks and interrupts in which no mutex is given back in the way that sinks,
      the task that runs is ready and no ready task has a higher priority, whenever the scheduler is
      not suspended and every yield asked for has been taken.  A yield taken while the scheduler is
      suspended counts as taken: it is made up for when the suspension ends. */
  lemma HighestReadyTaskRuns(idle: Task, steps: seq<Step>)
    requires Feasible(Boot(idle), steps) && NeverSinks(Boot(idle), steps)
    requires Run(Boot(idle), steps).depth == 0 && !Owed(Boot(idle), false, steps)
    ensures var k := Run(Boot(idle), steps);
            && k.current in k.w.tcb && IsReady(k.B(k.current))
            && forall t :: t in k.w.tcb && IsReady(k.B(t)) ==> k.B(t).prio <= k.B(k.current).prio
  {
    hide Boot, Good, Enabled, Next;
    BootOwesNothing(idle);
    RunPrompt(Boot(idle), false, steps);
  }

  // ----- a give that sinks ----------------------------------------------------------------------

  /** The running task suspends another. */
  lemma Parks(idle: Task, k: K, t: Task) returns (r: K)
    requires Stands(idle, k, k.w.tcb, k.current) && t in k.w.tcb && t != idle && !k.B(t).gen.id.Dead?
    ensures Stands(idle, r, k.w.tcb[t := k.B(t).(gen := On(Suspended), ev := Nowhere)], k.current)
  {
    hide World.L, World.Linked, World.Ordered, Core, Reachable, Ranked, K.Detached;
    Reached(idle, k, SuspendTask(t));
    SuspendCore(k, t);
    SuspendGood(k, t);
    NextRanked(k, SuspendTask(t));
    r := Next(k, SuspendTask(t));
  }

  /** A ready task inherits the running task's priority. */
  lemma Lends(idle: Task, k: K, h: Task) returns (r: K)
    requires Stands(idle, k, k.w.tcb, k.current) && k.current in k.w.tcb && h in k.w.tcb && IsReady(k.B(h))
    requires k.B(h).prio < k.B(k.current).prio < PRIORITIES
    ensures Stands(idle, r, k.w.tcb[h := Moved(k.B(h), k.B(k.current).prio)], k.current)
  {
    hide World.L, World.Linked, World.Ordered, Core, Home, Reachable, Ranked, K.Reprioritised;
    HolderAtHome(k, h);
    Reached(idle, k, Inherit(h));
    ReprioritisedReady(k, h, k.B(k.current).prio);
    InheritGood(k, h);
    NextRanked(k, Inherit(h));
    r := Next(k, Inherit(h));
  }

  /** The idle task and two more. */
  function Cast(idle: Task, h: Task, bh: Tcb, t: Task, bt: Tcb): map<Task, Tcb> {
    map[idle := Readied(K.NewBlock(0)), h := bh, t := bt]
  }

  lemma Recast(idle: Task, h: Task, bh: Tcb, t: Task, bt: Tcb, b: Tcb)
    requires idle != h && h != t && t != idle
    ensures var tcb := Cast(idle, h, bh, t, bt);
            && tcb[h] == bh && tcb[t] == bt
            && tcb[h := b] == Cast(idle, h, b, t, bt) && tcb[t := b] == Cast(idle, h, bh, t, b)
    ensures 0 < bt.prio && bt.gen == On(Ready(bt.prio)) && bh.prio < bt.prio ==> Foremost(Cast(idle, h, bh, t, bt), t)
    ensures 0 < bh.prio && bh.gen == On(Ready(bh.prio)) && Blocking(bt) ==> Foremost(Cast(idle, h, bh, t, bt), h)
  {
  }

  lemma InCast(idle: Task, h: Task, bh: Tcb, t: Task, bt: Tcb)
    requires idle != h && h != t && t != idle
    ensures Cast(idle, h, bh, t, bt).Keys == {idle, h, t}
    ensures Cast(idle, h, bh, t, bt)[h] == bh && Cast(idle, h, bh, t, bt)[t] == bt
  {
  }

  lemma Arrive(idle: Task, h: Task, t: Task) returns (k: K)
    requires idle != h && h != t && t != idle
    ensures Stands(idle, k, Cast(idle, h, Readied(K.NewBlock(1)), t, Readied(K.NewBlock(3))), h)
  {
    hide Stands;
    BootIdles(idle);
    k := TakesOver(idle, Boot(idle), h, 1);
    k := Creates(idle, k, t, 3);
  }

  /** The holder, of priority 1, is ready with the priority 3 of a task that wants its mutex. */
  lemma LendsTo(idle: Task, h: Task, t: Task) returns (k: K)
    requires idle != h && h != t && t != idle
    ensures Stands(idle, k, Cast(idle, h, Moved(Readied(K.NewBlock(1)), 3), t, Readied(K.NewBlock(3))), t)
  {
    hide Stands, Good, Reachable, Ranked, Foremost, Cast, Moved;
    var bh, bt := Readied(K.NewBlock(1)), Readied(K.NewBlock(3));
    k := Arrive(idle, h, t);
    Standing(idle, k, Cast(idle, h, bh, t, bt), h);
    Recast(idle, h, bh, t, bt, Moved(bh, 3));
    k := Switches(idle, k, t);
    Standing(idle, k, Cast(idle, h, bh, t, bt), t);
    InCast(idle, h, bh, t, bt);
    k := Lends(idle, k, h);
  }

  /** That task waits for the mutex and the holder runs. */
  lemma Holds(idle: Task, h: Task, t: Task, q: nat) returns (k: K, b: Tcb)
    requires idle != h && h != t && t != idle
    ensures Stands(idle, k, Cast(idle, h, Moved(Readied(K.NewBlock(1)), 3), t, b), h)
    ensures Blocking(b) && !b.gen.id.Dead?
  {
    hide Stands, Good, Reachable, Ranked, Foremost, Cast;
    var bh, bt := Moved(Readied(K.NewBlock(1)), 3), Readied(K.NewBlock(3));
    k := LendsTo(idle, h, t);
    Standing(idle, k, Cast(idle, h, bh, t, bt), t);
    b := Waiting(bt, q);
    Recast(idle, h, bh, t, bt, b);
    InCast(idle, h, bh, t, bt);
    k := Stops(idle, k, q);
    Standing(idle, k, Cast(idle, h, bh, t, b), t);
    Recast(idle, h, bh, t, b, b);
    k := Switches(idle, k, h);
  }

  /** The wait is broken off by a suspension. */
  lemma GivesUp(idle: Task, h: Task, t: Task, q: nat) returns (k: K, b: Tcb)
    requires idle != h && h != t && t != idle
    ensures Stands(idle, k, Cast(idle, h, Moved(Readied(K.NewBlock(1)), 3), t, b), h)
    ensures Blocking(b) && b.ev == Nowhere
  {
    hide Stands, Good, Reachable, Ranked, Cast, Moved, Readied, K.NewBlock;
    k, b := Holds(idle, h, t, q);
    var bh := Moved(Readied(K.NewBlock(1)), 3);
    Standing(idle, k, Cast(idle, h, bh, t, b), h);
    InCast(idle, h, bh, t, b);
    Recast(idle, h, bh, t, b, b.(gen := On(Suspended), ev := Nowhere));
    k := Parks(idle, k, t);
    b := b.(gen := On(Suspended), ev := Nowhere);
  }

  /** The holder runs with the priority that it has inherited, nobody waits for an event, and a task
      of a priority in between is ready. */
  lemma Lingers(idle: Task, h: Task, t: Task, m: Task, q: nat) returns (k: K)
    requires idle != h && h != t && t != idle && m !in {idle, h, t}
    ensures Stands(idle, k, k.w.tcb, h) && h in k.w.tcb && m in k.w.tcb
    ensures k.B(h) == Moved(Readied(K.NewBlock(1)), 3) && k.B(m) == Readied(K.NewBlock(2))
    ensures forall u :: u in k.w.tcb ==> k.w.tcb[u].ev == Nowhere && (IsReady(k.w.tcb[u]) ==> k.w.tcb[u].prio <= 3)
  {
    hide Stands, Good, Reachable, Ranked;
    var b;
    k, b := GivesUp(idle, h, t, q);
    var tcb := Cast(idle, h, Moved(Readied(K.NewBlock(1)), 3), t, b);
    Standing(idle, k, tcb, h);
    k := Creates(idle, k, m, 2);
    Standing(idle, k, tcb[m := Readied(K.NewBlock(2))], h);
  }

  lemma NobodyWaits(k: K, q: nat)
    requires k.Sane() && forall u :: u in k.w.tcb ==> k.w.tcb[u].ev == Nowhere
    ensures k.w.L(Event(q)).items == []
  {
    hide World.Ordered;
    if k.w.L(Event(q)).items != [] {
      HeadIsEvent(k, q);
    }
  }

  lemma HolderSinks(k: K, m: Task)
    requires Good(k) && k.current in k.w.tcb && m in k.w.tcb && m != k.current && IsReady(k.w.tcb[m])
    requires RunsHighest(k) && k.B(k.current).base < k.B(m).prio && k.B(k.current).base < k.B(k.current).prio
    requires k.B(k.current).ev == Nowhere
    ensures Enabled(k, Disinherit(k.current)) && !Asks(k, Disinherit(k.current))
    ensures !RunsHighest(Next(k, Disinherit(k.current)))
  {
    hide Inv, RunsHighest;
    DisinheritKeepsExactlyWhen(k, k.current);
  }

  /** The way that sinks can happen: the holder of a mutex has inherited a priority from a task that
      has given up waiting.  As it gives the mutex back, nobody waits who could be woken, so it falls
      below another ready task and yet no yield is asked for. */
  lemma GivingBackDoesSink(idle: Task, q: nat) returns (k: K)
    ensures Reachable(idle, k) && Good(k) && k.depth == 0 && RunsHighest(k) && k.w.L(Event(q)).items == []
    ensures Enabled(k, Disinherit(k.current)) && !Asks(k, Disinherit(k.current))
    ensures !RunsHighest(Next(k, Disinherit(k.current)))
  {
    hide Reachable, Good, Ranked, World.L;
    var m := idle + 3;
    k := Lingers(idle, idle + 1, idle + 2, m, q);
    GoodIsSane(k);
    NobodyWaits(k, q);
    HolderSinks(k, m);
  }
}
