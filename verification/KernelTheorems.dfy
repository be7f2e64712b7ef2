/** What holds of the scheduler in every run. */
module KernelTheorems {
  import opened Bytes
  import opened Rings
  import opened Worlds
  import opened Timing
  import opened Kernel
  import opened KernelInvariant
  import opened KernelRuns

  ghost predicate Good(k: K) {
    Inv(k) && k.Sane()
  }

  // ----- runs -----------------------------------------------------------------------------------

  ghost function Next(k: K, s: Step): K
    requires Good(k) && Enabled(k, s)
  {
    match s
    case Tick => k.(interrupts := k.interrupts + 1).IncrementTick()
    case SuspendScheduler => k.(depth := k.depth + 1)
    case ResumeScheduler => k.ResumeAll()
    case Delay(ticks) => k.Delay(ticks)
    case DelayUntil(previous, increment) => k.DelayUntil(previous, increment)
    case WaitFor(q, ticks) => BlockerIsFree(k); k.PlaceOnEventList(q, ticks)
    case Signal(q) => k.RemoveFromEventList(q)
    case SuspendTask(t) => k.SuspendTask(t)
    case ResumeTask(t) => k.ResumeTask(t)
    case ResumeTaskFromIsr(t) => k.ResumeTaskFromIsr(t)
    case CreateTask(t, priority) => k.CreateTask(t, priority)
    case DeleteTask(t) => k.DeleteTask(t)
    case Reap => DeadHaveNoEvent(k); k.Reap()
    case SwitchContext => SearchStops(k); k.Switch()
    case Inherit(h) => k.Inherit(h)
    case Disinherit(h) => k.Disinherit(h)
  }

  ghost predicate SameClock(k: K, r: K) {
    r.Now() == k.Now() && r.interrupts == k.interrupts
  }

  /** Core and the absence of pending wake-ups are all that a step outside the tick has to
      keep. */
  lemma FromCore(k: K, r: K)
    requires Good(k) && Core(r, k.Now() + 1) && r.Now() == k.Now()
    requires r.missed == k.missed && r.interrupts == k.interrupts && r.lost == k.lost && r.depth == k.depth
    requires k.depth == 0 && NonePending(k) ==> NonePending(r)
    ensures Good(r) && SameClock(k, r)
  {
    CoreSane(r, k.Now() + 1);
  }

  lemma SuspendSchedulerGood(k: K)
    requires Good(k)
    ensures Good(k.(depth := k.depth + 1)) && SameClock(k, k.(depth := k.depth + 1))
  {
    SameTasks(k, k.(depth := k.depth + 1), k.Now() + 1);
  }

  lemma DelayGood(k: K, ticks: nat)
    requires Good(k) && Enabled(k, Delay(ticks))
    ensures Good(k.Delay(ticks)) && SameClock(k, k.Delay(ticks))
  {
    DelayDue(k, k.B(k.current), ticks);
    BlockUntilCore(k, (k.tick + ticks) % WORD);
    FromCore(k, k.Delay(ticks));
  }

  lemma DelayUntilGood(k: K, previous: nat, increment: nat)
    requires Good(k) && Enabled(k, DelayUntil(previous, increment))
    ensures Good(k.DelayUntil(previous, increment)) && SameClock(k, k.DelayUntil(previous, increment))
  {
    if ShouldDelay(previous, increment, k.tick) {
      DelayUntilDiffers(k, previous, increment);
      BlockUntilCore(k, (previous + increment) % WORD);
      FromCore(k, k.DelayUntil(previous, increment));
    }
  }

  lemma WaitGood(k: K, q: nat, ticks: nat)
    requires Good(k) && Enabled(k, WaitFor(q, ticks))
    ensures k.B(k.current).ev == Nowhere && Good(k.PlaceOnEventList(q, ticks)) && SameClock(k, k.PlaceOnEventList(q, ticks))
  {
    BlockerIsFree(k);
    WaitCore(k, q, ticks);
    FromCore(k, k.PlaceOnEventList(q, ticks));
  }

  lemma ResumeGood(k: K, t: Task)
    requires Good(k) && t in k.w.tcb
    ensures Good(k.ResumeTask(t)) && SameClock(k, k.ResumeTask(t)) && Touches(k, k.ResumeTask(t), t)
  {
    hide World.L, World.Linked, World.Ordered, Home, Core;
    if t != k.current && k.IsSuspended(t) {
      Resumed(k, t);
      FromCore(k, k.ResumeTask(t));
    }
  }

  lemma TickGood(k: K)
    requires Good(k)
    ensures Good(Next(k, Tick)) && k.Now() <= Next(k, Tick).Now() && Next(k, Tick).interrupts == k.interrupts + 1
  {
    hide Core, NonePending, K.IncrementTick;
    TickInv(k);
    InvSane(Next(k, Tick));
  }

  lemma ResumeSchedulerGood(k: K)
    requires Good(k) && 0 < k.depth
    ensures Good(k.ResumeAll()) && k.Now() <= k.ResumeAll().Now() && k.ResumeAll().interrupts == k.interrupts
  {
    hide Core, NonePending, K.ResumeAll;
    ResumeSchedulerInv(k);
    InvSane(k.ResumeAll());
  }

  lemma SignalGood(k: K, q: nat)
    requires Good(k) && k.w.L(Event(q)).items != []
    ensures Good(k.RemoveFromEventList(q)) && SameClock(k, k.RemoveFromEventList(q))
  {
    hide Core, NonePending, World.L;
    SignalCore(k, q);
    SignalKeepsClock(k, q);
    FromCore(k, k.RemoveFromEventList(q));
  }

  lemma SuspendGood(k: K, t: Task)
    requires Good(k) && t in k.w.tcb && t != k.idle
    ensures Good(k.SuspendTask(t)) && SameClock(k, k.SuspendTask(t))
  {
    hide Core, NonePending, World.L, World.Linked, World.Ordered;
    SuspendCore(k, t);
    FromCore(k, k.SuspendTask(t));
  }

  lemma DeleteGood(k: K, t: Task)
    requires Good(k) && t in k.w.tcb && t != k.idle
    ensures Good(k.DeleteTask(t)) && SameClock(k, k.DeleteTask(t))
  {
    hide Core, NonePending, World.L, World.Linked, World.Ordered;
    DeleteCore(k, t);
    FromCore(k, k.DeleteTask(t));
  }

  lemma ResumeFromIsrGood(k: K, t: Task)
    requires Good(k) && t in k.w.tcb
    ensures Good(k.ResumeTaskFromIsr(t)) && SameClock(k, k.ResumeTaskFromIsr(t))
  {
    hide Core, NonePending, World.L, World.Linked, World.Ordered;
    ResumeFromIsrCore(k, t);
    FromCore(k, k.ResumeTaskFromIsr(t));
  }

  lemma CreateGood(k: K, t: Task, priority: nat)
    requires Good(k) && t !in k.w.tcb
    ensures Good(k.CreateTask(t, priority)) && SameClock(k, k.CreateTask(t, priority))
  {
    hide Core, NonePending, World.L, World.Linked, World.Ordered;
    CreateCore(k, t, priority);
    FromCore(k, k.CreateTask(t, priority));
  }

  lemma ReapGood(k: K)
    requires Good(k) && Enabled(k, Reap)
    ensures Good(Next(k, Reap)) && SameClock(k, Next(k, Reap))
  {
    hide NonePending, World.L, World.Linked, World.Ordered, K.Reap;
    DeadHaveNoEvent(k);
    ReapForgets(k);
    ReapCore(k);
    FromCore(k, k.Reap());
  }

  lemma SwitchStepGood(k: K)
    requires Good(k)
    ensures Good(Next(k, SwitchContext)) && SameClock(k, Next(k, SwitchContext))
  {
    hide NonePending, World.L, World.Linked, World.Ordered, K.Switch;
    SearchStops(k);
    SwitchInv(k);
    InvSane(k.Switch());
  }

  lemma InheritGood(k: K, h: Task)
    requires Good(k) && h in k.w.tcb
    ensures Good(k.Inherit(h)) && SameClock(k, k.Inherit(h))
  {
    hide Core, NonePending, World.L, World.Linked, World.Ordered;
    InheritCore(k, h);
    FromCore(k, k.Inherit(h));
  }

  lemma DisinheritGood(k: K, h: Task)
    requires Good(k) && Enabled(k, Disinherit(h))
    ensures Good(k.Disinherit(h)) && SameClock(k, k.Disinherit(h))
  {
    hide Core, NonePending, World.L, World.Linked, World.Ordered;
    DisinheritCore(k, h);
    FromCore(k, k.Disinherit(h));
  }

  /** Every step keeps the invariant. */
  lemma NextGood(k: K, s: Step)
    requires Good(k) && Enabled(k, s)
    ensures Good(Next(k, s)) && k.Now() <= Next(k, s).Now()
    ensures Next(k, s).interrupts == if s.Tick? then k.interrupts + 1 else k.interrupts
  {
    hide Inv, World.L, World.Linked, World.Ordered, K.ResumeAll, K.RemoveFromEventList, K.SuspendTask, K.ResumeTask,
      K.ResumeTaskFromIsr, K.CreateTask, K.DeleteTask, K.Reap, K.Switch, K.Inherit, K.Disinherit, K.Delay, K.DelayUntil,
      K.PlaceOnEventList, K.IncrementTick;
    match s
    case Tick => TickGood(k);
    case SuspendScheduler => SuspendSchedulerGood(k);
    case ResumeScheduler => ResumeSchedulerGood(k);
    case Delay(ticks) => DelayGood(k, ticks);
    case DelayUntil(previous, increment) => DelayUntilGood(k, previous, increment);
    case WaitFor(q, ticks) => WaitGood(k, q, ticks);
    case Signal(q) => SignalGood(k, q);
    case SuspendTask(t) => SuspendGood(k, t);
    case ResumeTask(t) => ResumeGood(k, t);
    case ResumeTaskFromIsr(t) => ResumeFromIsrGood(k, t);
    case CreateTask(t, p) => CreateGood(k, t, p);
    case DeleteTask(t) => DeleteGood(k, t);
    case Reap => ReapGood(k);
    case SwitchContext => SwitchStepGood(k);
    case Inherit(h) => InheritGood(k, h);
    case Disinherit(h) => DisinheritGood(k, h);
  }

  ghost predicate Feasible(k: K, steps: seq<Step>)
    requires Good(k)
    decreases |steps|
  {
    steps != [] ==> Enabled(k, steps[0]) && (NextGood(k, steps[0]); Feasible(Next(k, steps[0]), steps[1..]))
  }

  /** The state after a run; every state that is reached satisfies the invariant. */
  ghost function Run(k: K, steps: seq<Step>): (r: K)
    requires Good(k) && Feasible(k, steps)
    ensures Good(r)
    decreases |steps|
  {
    if steps == [] then k else NextGood(k, steps[0]); Run(Next(k, steps[0]), steps[1..])
  }

  // ----- the start ------------------------------------------------------------------------------

  /** The kernel just after the scheduler has started with the idle task alone. */
  ghost function Boot(idle: Task): (k: K)
    ensures Good(k)
  {
    var none := World(map[], map[]);
    assert none.Linked() && none.Ordered(DelayA) && none.Ordered(DelayB);
    var w := none.Update(idle, Tcb(0, 0, Nowhere, 0, Nowhere, PRIORITIES, 0)).Put(Ready(0), Gen(idle));
    K(w, idle, idle, 0, 0, 0, 0, false, 0, false, 0, 0)
  }

  // ----- sharing the processor ------------------------------------------------------------------

  lemma SwitchGood(k: K)
    requires Good(k) && k.depth == 0
    ensures k.Sane() && k.Highest(k.top) <= k.top && k.w.L(Ready(k.Highest(k.top))).items != []
    ensures Good(k.Switch()) && k.Switch().depth == 0
  {
    hide World.L, World.Linked, World.Ordered, Home;
    SearchStops(k);
    SwitchInv(k);
    InvSane(k.Switch());
  }

  /** The tasks that n context switches in a row choose. */
  ghost function Served(k: K, n: nat): seq<Item>
    requires Good(k) && k.depth == 0
    decreases n
  {
    if n == 0 then [] else SwitchGood(k); [Gen(k.Switch().current)] + Served(k.Switch(), n - 1)
  }

  lemma SwitchTurns(k: K)
    requires Good(k) && k.depth == 0
    ensures var p := k.Highest(k.top);
            && k.w.L(Ready(p)).items != [] && k.w.L(Ready(p)).cursor <= |k.w.L(Ready(p)).items|
            && Gen(k.Switch().current) == k.w.L(Ready(p)).Next().Here()
            && k.Switch().w.L(Ready(p)) == k.w.L(Ready(p)).Next() && k.Switch().Highest(k.Switch().top) == p
  {
    SwitchPicksHighest(k);
    NextRotates(k.w.L(Ready(k.Highest(k.top))));
  }

  /** As many context switches as there are ready tasks of the highest priority run each of them
      once, in the order in which they wait. */
  lemma {:induction false} EqualsTakeTurns(k: K, n: nat)
    requires Good(k) && k.depth == 0
    ensures var ring := k.w.L(Ready(k.Highest(k.top)));
            && ring.items != [] && ring.cursor <= |ring.items| && Served(k, n) == Walk(ring, n)
            && (n == |ring.items| ==> multiset(Served(k, n)) == multiset(ring.items))
    decreases n
  {
    hide World.L, World.Linked, World.Ordered, Home, Good, K.Switch, K.Highest, Ring.Next, Ring.Here;
    SwitchTurns(k);
    if 0 < n {
      SwitchGood(k);
      EqualsTakeTurns(k.Switch(), n - 1);
    }
    WalkServesEachOnce(k.w.L(Ready(k.Highest(k.top))));
  }

  // ----- which lists a task is on ---------------------------------------------------------------

  /** List id, and no other, holds the item. */
  ghost predicate OnlyOn(k: K, i: Item, id: ListId) {
    forall o :: i in k.w.L(o).items <==> o == id
  }

  /** Task t's generic item is on exactly one list: the ready list of the task's current
      priority, a delayed list, the suspended list or the list of the deleted. */
  ghost predicate GenericOnOneList(k: K, t: Task)
    requires t in k.w.tcb
  {
    exists id :: && OnlyOn(k, Gen(t), id)
                 && (id == Ready(k.B(t).prio) || id == DelayA || id == DelayB || id == Suspended || id == Dead)
  }

  /** Its event item is on at most one list, and on none while the task is on a ready list. */
  ghost predicate EventOnOneList(k: K, t: Task) {
    && (forall o, u :: Ev(t) in k.w.L(o).items && Ev(t) in k.w.L(u).items ==> o == u)
    && (forall o, p :: Ev(t) in k.w.L(o).items ==> Gen(t) !in k.w.L(Ready(p)).items)
  }

  lemma ItemOn(k: K, i: Item, o: ListId)
    requires k.Sane() && i.task in k.w.tcb
    ensures i in k.w.L(o).items <==> k.B(i.task).At(i) == On(o)
  {
    assert Seen(o) && Known(i);
  }

  lemma OnItsLists(k: K, t: Task)
    requires Good(k) && t in k.w.tcb
    ensures GenericOnOneList(k, t) && EventOnOneList(k, t)
  {
    hide World.L, World.Linked, World.Ordered;
    assert Home(k, k.w.tcb[t], k.Now() + 1);
    forall o ensures Gen(t) in k.w.L(o).items <==> k.B(t).gen == On(o) {
      ItemOn(k, Gen(t), o);
    }
    forall o ensures Ev(t) in k.w.L(o).items <==> k.B(t).ev == On(o) {
      ItemOn(k, Ev(t), o);
    }
    assert OnlyOn(k, Gen(t), k.B(t).gen.id);
  }

  /** In every reachable state every live task is on its lists, and uxTopReadyPriority bounds
      the priority of every ready task. */
  lemma EachTaskOnItsLists(idle: Task, steps: seq<Step>, t: Task)
    requires Feasible(Boot(idle), steps)
    requires t in Run(Boot(idle), steps).w.tcb
    ensures var k := Run(Boot(idle), steps);
            && GenericOnOneList(k, t) && EventOnOneList(k, t)
            && (Gen(t) in k.w.L(Ready(k.B(t).prio)).items ==> k.B(t).prio <= k.top)
  {
    hide Boot, World.L, World.Linked, World.Ordered;
    var k := Run(Boot(idle), steps);
    OnItsLists(k, t);
    ItemOn(k, Gen(t), Ready(k.B(t).prio));
    assert Home(k, k.w.tcb[t], k.Now() + 1);
  }

  /** What giving a mutex back does to the holder's block: only the event item stays where it
      was. */
  lemma Disinherited(k: K, h: Task)
    requires Good(k) && h in k.w.tcb && k.B(h).prio != k.B(h).base
    ensures k.Disinherit(h).Sane() && h in k.Disinherit(h).w.tcb
    ensures k.Disinherit(h).B(h) == Moved(k.B(h), k.B(h).base).(ev := k.B(h).ev)
  {
    hide World.L, World.Linked, World.Ordered;
  }

  /** The block that results fits a ready task only if the event item is on no list. */
  lemma ReadyHasNoEvent(k: K, h: Task)
    requires Good(k) && h in k.w.tcb && k.B(h).prio != k.B(h).base && Good(k.Disinherit(h))
    ensures k.B(h).ev == Nowhere
  {
    hide World.L, World.Linked, World.Ordered, K.Disinherit;
    Disinherited(k, h);
    CoreHome(k.Disinherit(h), h);
  }

  /** Giving a mutex back is the one operation that the invariant depends on its caller for: it
      keeps the invariant, and in particular the holder whose priority it lowers off every event
      list, as a ready task has to be, exactly when that task is not waiting for an event itself. */
  lemma DisinheritBreaksExactlyWhen(k: K, h: Task)
    requires Good(k) && h in k.w.tcb && k.B(h).prio != k.B(h).base
    ensures Gen(h) in k.Disinherit(h).w.L(Ready(k.B(h).base)).items
    ensures EventOnOneList(k.Disinherit(h), h) <==> k.B(h).ev == Nowhere
    ensures Good(k.Disinherit(h)) <==> k.B(h).ev == Nowhere
  {
    hide World.L, World.Linked, World.Ordered, Inv, K.Disinherit, K.Fit;
    Disinherited(k, h);
    if k.B(h).ev == Nowhere {
      DisinheritGood(k, h);
    } else if Good(k.Disinherit(h)) {
      ReadyHasNoEvent(k, h);
    }
    var r := k.Disinherit(h);
    forall o ensures Gen(h) in r.w.L(o).items <==> o == Ready(k.B(h).base) {
      ItemOn(r, Gen(h), o);
    }
    forall o ensures Ev(h) in r.w.L(o).items <==> k.B(h).ev == On(o) {
      ItemOn(r, Ev(h), o);
    }
  }

  lemma HolderAtHome(k: K, h: Task)
    requires Good(k) && h in k.w.tcb && k.B(h).gen.On? && k.B(h).gen.id.Ready?
    ensures k.B(h).gen == On(Ready(k.B(h).prio)) && k.B(h).ev == Nowhere && k.B(h).prio < PRIORITIES
    ensures k.current in k.w.tcb && k.B(k.current).prio < PRIORITIES
  {
    assert Home(k, k.B(h), k.Now() + 1);
  }

  /** A ready holder that inherits a priority and gives the mutex back is as it was. */
  lemma InheritThenDisinherit(k: K, h: Task)
    requires Good(k) && h in k.w.tcb && k.B(h).gen.On? && k.B(h).gen.id.Ready? && k.B(h).prio == k.B(h).base
    requires k.B(h).rank == PRIORITIES - k.B(h).prio
    ensures Good(k.Inherit(h)) && k.Inherit(h).B(h).prio >= k.B(k.current).prio
    ensures k.Inherit(h).Disinherit(h).w.tcb == k.w.tcb
  {
    hide World.L, World.Linked, World.Ordered, Home, Core, K.Reprioritised;
    HolderAtHome(k, h);
    var p, base := k.B(k.current).prio, k.B(h).base;
    if k.B(h).prio < p {
      ReprioritisedReady(k, h, p);
    }
    InheritCore(k, h);
    FromCore(k, k.Inherit(h));
    if k.B(h).prio < p {
      ReprioritisedReady(k.Inherit(h), h, base);
      assert Moved(Moved(k.B(h), p), base) == k.B(h);
      Overwrite(k.w.tcb, h, Moved(k.B(h), p), k.B(h));
    }
  }

  // ----- suspending the scheduler ---------------------------------------------------------------

  function TicksIn(steps: seq<Step>): nat {
    if steps == [] then 0 else (if steps[0].Tick? then 1 else 0) + TicksIn(steps[1..])
  }

  lemma {:induction false} InterruptsCounted(k: K, steps: seq<Step>)
    requires Good(k) && Feasible(k, steps)
    ensures Run(k, steps).interrupts == k.interrupts + TicksIn(steps)
    decreases |steps|
  {
    hide Good, Enabled, Next;
    if steps != [] {
      NextGood(k, steps[0]);
      InterruptsCounted(Next(k, steps[0]), steps[1..]);
    }
  }

  /** No tick is lost: in every reachable state the tick interrupts taken since the start are
      the tick count and the missed ticks together, modulo 2^32. */
  lemma TicksConserved(idle: Task, steps: seq<Step>)
    requires Feasible(Boot(idle), steps)
    ensures var k := Run(Boot(idle), steps);
            (k.tick + k.missed) % WORD == TicksIn(steps) % WORD
  {
    hide Boot, Good, Enabled, Next;
    InterruptsCounted(Boot(idle), steps);
    BootClock(idle);
    TicksBalance(Run(Boot(idle), steps));
  }

  lemma TicksBalance(k: K)
    requires Good(k)
    ensures (k.tick + k.missed) % WORD == k.interrupts % WORD
  {
    hide Core;
    WholeTurns(k.lost + k.overflows, k.tick + k.missed);
  }

  lemma BootClock(idle: Task)
    ensures Boot(idle).interrupts == 0
  {
  }

  lemma WholeTurns(turns: nat, n: nat)
    ensures Absolute(turns, n) % WORD == n % WORD
  {
  }

  /** While the scheduler is suspended, interrupts leave every ready, delayed and suspended list
      as it is. */
  lemma SuspendedListsAreStill(k: K, s: Step, id: ListId)
    requires Good(k) && Enabled(k, s) && 0 < k.depth && (s.Tick? || s.Signal? || s.ResumeTaskFromIsr?)
    requires !id.Pending? && !id.Event?
    ensures Next(k, s).w.L(id) == k.w.L(id)
  {
    hide World.Linked, World.Ordered, Home, World.L, NonePending, K.Fit;
    match s
    case Signal(q) => HeadIsEvent(k, q);
    case _ =>
  }

  /** When the outermost xTaskResumeAll ends, nothing is pending, no tick is missed, no task
      sleeps past its time, and every task that was pending or has come due is ready. */
  lemma ResumeLosesNothing(k: K)
    requires Good(k) && k.depth == 1
    ensures var r := k.ResumeAll();
            && r.w.L(Pending).items == [] && r.missed == 0 && r.Now() == k.Now() + k.missed
            && r.w.tcb.Keys == k.w.tcb.Keys
            && (forall t :: t in r.w.tcb && Delayed(r.w.tcb[t]) ==> r.Now() < r.w.tcb[t].due)
            && (forall t ::
                  t in k.w.tcb && (k.w.tcb[t].ev == On(Pending) || (Delayed(k.w.tcb[t]) && k.w.tcb[t].due <= r.Now()))
                  ==> r.w.tcb[t] == Readied(k.w.tcb[t]))
            && (forall t ::
                  t in k.w.tcb && k.w.tcb[t].ev != On(Pending) && !(Delayed(k.w.tcb[t]) && k.w.tcb[t].due <= r.Now())
                  ==> r.w.tcb[t] == k.w.tcb[t])
  {
    hide World.L, World.Linked, World.Ordered, K.ResumeAll;
    ResumeAllExact(k);
    var r := k.ResumeAll();
    EmptyList(r.w, Pending) by {
      forall i ensures !r.w.IsOn(i, Pending) {
        assert i.task in r.w.tcb ==> Home(r, r.w.tcb[i.task], r.Now() + 1);
      }
    }
    forall t | t in r.w.tcb && Delayed(r.w.tcb[t]) ensures r.Now() < r.w.tcb[t].due {
      assert Home(r, r.w.tcb[t], r.Now() + 1);
    }
  }

  /** Suspending a task and resuming it makes it ready, at its priority and off every event list,
      wherever it was. */
  lemma SuspendThenResume(k: K, t: Task)
    requires Good(k) && t in k.w.tcb && t != k.idle && t != k.current
    ensures Good(k.SuspendTask(t)) && k.SuspendTask(t).IsSuspended(t)
    ensures k.SuspendTask(t).ResumeTask(t).w.tcb == k.w.tcb[t := Readied(k.B(t))]
  {
    hide World.L, World.Linked, World.Ordered;
    SuspendCore(k, t);
    FromCore(k, k.SuspendTask(t));
    DetachedPut(k, t, Suspended);
    Resumed(k.SuspendTask(t), t);
  }

  /** A task that an interrupt resumes while the scheduler is suspended is ready once the
      suspension ends. */
  lemma ResumeFromIsrIsNotLost(k: K, t: Task)
    requires Good(k) && k.depth == 1 && t in k.w.tcb && k.IsSuspended(t)
    ensures Good(k.ResumeTaskFromIsr(t)) && t in k.ResumeTaskFromIsr(t).ResumeAll().w.tcb
    ensures k.ResumeTaskFromIsr(t).ResumeAll().w.tcb[t] == Readied(k.B(t))
  {
    hide World.L, World.Linked, World.Ordered, K.ResumeAll, Core;
    ResumeFromIsrCore(k, t);
    FromCore(k, k.ResumeTaskFromIsr(t));
    ResumeLosesNothing(k.ResumeTaskFromIsr(t));
  }

  /** An event that is signalled while the scheduler is suspended is not lost: the waiter at the
      head of the list is ready when the suspension ends. */
  lemma SignalIsNotLost(k: K, q: nat)
    requires Good(k) && k.depth == 1 && k.w.L(Event(q)).items != []
    ensures var h := k.w.L(Event(q)).items[0].task;
            && h in k.w.tcb && Good(k.RemoveFromEventList(q)) && h in k.RemoveFromEventList(q).ResumeAll().w.tcb
            && k.RemoveFromEventList(q).ResumeAll().w.tcb[h] == Readied(k.B(h))
  {
    hide World.Linked, World.Ordered, World.L, K.ResumeAll, K.RemoveFromEventList, Core;
    SignalCore(k, q);
    SignalKeepsClock(k, q);
    FromCore(k, k.RemoveFromEventList(q));
    ResumeLosesNothing(k.RemoveFromEventList(q));
  }

  /** A task that joins an empty event list is the one that the next event wakes, even one that an
      interrupt signals before the task has stopped running: it is pending at once, nothing else
      changes, and when the suspension ends it is ready. */
  lemma SoleWaiterIsSignalled(k: K, q: nat, ticks: nat)
    requires Good(k) && Enabled(k, WaitFor(q, ticks)) && k.w.L(Event(q)).items == []
    ensures var k1, t := Next(k, WaitFor(q, ticks)), k.current;
            && Good(k1) && k1.depth == k.depth && k1.w.L(Event(q)).items == [Ev(t)] && t in k1.w.tcb
            && k1.B(t).prio == k.B(t).prio && k1.B(t).ev == On(Event(q)) && Enabled(k1, Signal(q))
            && Next(k1, Signal(q)).w.tcb == k1.w.tcb[t := k1.B(t).(ev := On(Pending))]
            && (k.depth == 1 ==>
                  && Good(Next(k1, Signal(q))) && Next(k1, Signal(q)).depth == 1
                  && t in Next(k1, Signal(q)).ResumeAll().w.tcb
                  && Next(k1, Signal(q)).ResumeAll().w.tcb[t] == Readied(k1.B(t)))
  {
    hide World.Linked, World.Ordered, World.L, Core, K.PlaceOnEventList, K.RemoveFromEventList, K.ResumeAll;
    WaitGood(k, q, ticks);
    JoinsAlone(k, q, ticks);
    BlockedWaiter(k, q, ticks);
    var k1 := k.PlaceOnEventList(q, ticks);
    SignalCore(k1, q);
    SignalKeepsClock(k1, q);
    if k.depth == 1 {
      SignalIsNotLost(k1, q);
    }
  }

  lemma JoinsAlone(k: K, q: nat, ticks: nat)
    requires k.Sane() && k.w.L(Event(q)).items == [] && k.B(k.current).ev == Nowhere
    ensures k.PlaceOnEventList(q, ticks).w.L(Event(q)).items == [Ev(k.current)]
  {
    hide World.Linked, World.Ordered;
    var w := k.w.PutSorted(Event(q), Ev(k.current));
    assert w.L(Event(q)).items == [Ev(k.current)];
  }

  lemma BlockedWaiter(k: K, q: nat, ticks: nat)
    requires k.Sane() && k.B(k.current).ev == Nowhere
    ensures var k1 := k.PlaceOnEventList(q, ticks);
            && k1.depth == k.depth && k.current in k1.w.tcb && k1.B(k.current).ev == On(Event(q))
            && k1.B(k.current).prio == k.B(k.current).prio
  {
    hide World.Linked, World.Ordered, World.L, K.PlaceOnEventList;
    if ticks == MAX_DELAY { WaitForEverBlocks(k, q); } else { WaitBlocks(k, q, ticks); }
  }

  lemma SignalKeepsClock(k: K, q: nat)
    requires k.Sane() && k.w.L(Event(q)).items != []
    ensures var r := k.RemoveFromEventList(q); r == k.(w := r.w, top := r.top)
  {
    hide World.Linked, World.Ordered, World.L;
    HeadIsEvent(k, q);
  }

  // ----- waking at the right tick ---------------------------------------------------------------

  /** Task t is blocked and its wait ends at absolute tick due. */
  ghost predicate Asleep(k: K, t: Task, due: nat) {
    t in k.w.tcb && Delayed(k.w.tcb[t]) && k.w.tcb[t].due == due && k.w.tcb[t].ev != On(Pending)
  }

  /** The step does not itself wake, suspend or delete t.  Giving back a mutex of a task that sleeps
      wakes it if its priority was raised. */
  ghost predicate LeavesAlone(k: K, s: Step, t: Task) {
    match s
    case Signal(q) => k.w.L(Event(q)).items != [] ==> k.w.L(Event(q)).items[0].task != t
    case SuspendTask(u) => u != t
    case DeleteTask(u) => u != t
    case Disinherit(u) => u != t || (t in k.w.tcb && k.w.tcb[t].prio == k.w.tcb[t].base)
    case _ => true
  }

  ghost predicate SleptOrWoke(k: K, r: K, t: Task, due: nat) {
    && k.Now() <= r.Now()
    && if r.Now() < due then Asleep(r, t, due)
       else t in r.w.tcb && r.w.tcb[t].gen == On(Ready(r.w.tcb[t].prio)) && r.w.tcb[t].ev == Nowhere
  }

  lemma AsleepAhead(k: K, t: Task, due: nat)
    requires Good(k) && Asleep(k, t, due)
    ensures k.Now() < due
  {
    assert Home(k, k.w.tcb[t], k.Now() + 1);
  }

  lemma TouchedOther(k: K, r: K, u: Task, t: Task, due: nat)
    requires Good(k) && Asleep(k, t, due) && Touches(k, r, u) && u != t
    ensures SleptOrWoke(k, r, t, due)
  {
    AsleepAhead(k, t, due);
  }

  lemma WokenSleeper(k: K, r: K, t: Task, due: nat)
    requires Good(k) && Asleep(k, t, due) && k.Now() <= r.Now() && r.w.tcb == WokenBy(k.w.tcb, r.Now())
    ensures SleptOrWoke(k, r, t, due)
  {
  }

  lemma SleepTick(k: K, t: Task, due: nat)
    requires Good(k) && Asleep(k, t, due)
    ensures SleptOrWoke(k, Next(k, Tick), t, due)
  {
    hide World.L, World.Linked, World.Ordered, Home, SleptOrWoke, WokenBy, NonePending, K.IncrementTick, K.Now, Asleep;
    TickInv(k);
    if k.depth == 0 {
      WokenSleeper(k, Next(k, Tick), t, due);
    } else {
      SleepMissed(k, t, due);
    }
  }

  lemma SleepMissed(k: K, t: Task, due: nat)
    requires Good(k) && Asleep(k, t, due) && 0 < k.depth
    ensures SleptOrWoke(k, Next(k, Tick), t, due)
  {
    AsleepAhead(k, t, due);
  }

  lemma SleepResume(k: K, t: Task, due: nat)
    requires Good(k) && Asleep(k, t, due) && 0 < k.depth
    ensures SleptOrWoke(k, Next(k, ResumeScheduler), t, due)
  {
    hide World.L, World.Linked, World.Ordered, Home;
    AsleepAhead(k, t, due);
    if k.depth == 1 {
      ResumeAllExact(k);
    }
  }

  lemma BlockerIsAwake(k: K, t: Task, due: nat)
    requires Good(k) && MayBlock(k) && Asleep(k, t, due)
    ensures k.current != t
  {
  }

  lemma SleepBlock(k: K, s: Step, t: Task, due: nat)
    requires Good(k) && Enabled(k, s) && Asleep(k, t, due) && (s.Delay? || s.DelayUntil? || s.WaitFor?)
    ensures SleptOrWoke(k, Next(k, s), t, due)
  {
    hide World.L, World.Linked, World.Ordered, Home, SleptOrWoke, Touches, K.BlockUntil, K.PlaceOnEventList;
    BlockerIsAwake(k, t, due);
    match s
    case Delay(ticks) =>
      DelayDue(k, k.B(k.current), ticks);
      BlockUntilCore(k, (k.tick + ticks) % WORD);
      TouchedOther(k, Next(k, s), k.current, t, due);
    case DelayUntil(previous, increment) =>
      if ShouldDelay(previous, increment, k.tick) {
        DelayUntilDiffers(k, previous, increment);
        BlockUntilCore(k, (previous + increment) % WORD);
        TouchedOther(k, Next(k, s), k.current, t, due);
      } else {
        Unmoved(k, t, due);
      }
    case WaitFor(q, ticks) =>
      BlockerIsFree(k);
      WaitCore(k, q, ticks);
      TouchedOther(k, Next(k, s), k.current, t, due);
  }

  lemma Unmoved(k: K, t: Task, due: nat)
    requires Good(k) && Asleep(k, t, due)
    ensures SleptOrWoke(k, k, t, due)
  {
    AsleepAhead(k, t, due);
  }

  lemma SleepInherit(k: K, t: Task, h: Task, due: nat)
    requires Good(k) && h in k.w.tcb && Asleep(k, t, due)
    ensures SleptOrWoke(k, k.Inherit(h), t, due)
  {
    hide World.L, World.Linked, World.Ordered, Home;
    AsleepAhead(k, t, due);
    InheritCore(k, h);
  }

  lemma SleepSignal(k: K, q: nat, t: Task, due: nat)
    requires Good(k) && Asleep(k, t, due) && k.w.L(Event(q)).items != [] && k.w.L(Event(q)).items[0].task != t
    ensures SleptOrWoke(k, k.RemoveFromEventList(q), t, due)
  {
    SignalCore(k, q);
    TouchedOther(k, k.RemoveFromEventList(q), k.w.L(Event(q)).items[0].task, t, due);
  }

  lemma SleepReap(k: K, t: Task, due: nat)
    requires Good(k) && Asleep(k, t, due) && Enabled(k, Reap)
    ensures SleptOrWoke(k, Next(k, Reap), t, due)
  {
    DeadHaveNoEvent(k);
    ReapForgets(k);
    ReapCore(k);
    TouchedOther(k, k.Reap(), k.w.L(Dead).items[0].task, t, due);
  }

  /** A step that leaves a sleeping task alone either leaves it asleep with its wake time still
      ahead, or reaches that time and makes it ready. */
  lemma SleepStep(k: K, s: Step, t: Task, due: nat)
    requires Good(k) && Enabled(k, s) && Asleep(k, t, due) && LeavesAlone(k, s, t)
    ensures SleptOrWoke(k, Next(k, s), t, due)
  {
    hide World.L, World.Linked, World.Ordered, Home, SleptOrWoke, Core;
    match s
    case Tick => SleepTick(k, t, due);
    case ResumeScheduler => SleepResume(k, t, due);
    case Delay(_) => SleepBlock(k, s, t, due);
    case DelayUntil(_, _) => SleepBlock(k, s, t, due);
    case WaitFor(_, _) => SleepBlock(k, s, t, due);
    case Inherit(h) => SleepInherit(k, t, h, due);
    case Signal(q) => SleepSignal(k, q, t, due);
    case Reap => SleepReap(k, t, due);
    case _ => SleepOther(k, s, t, due);
  }

  lemma SleepOther(k: K, s: Step, t: Task, due: nat)
    requires Good(k) && Enabled(k, s) && Asleep(k, t, due) && LeavesAlone(k, s, t)
    requires s.SuspendScheduler? || s.SuspendTask? || s.ResumeTask? || s.ResumeTaskFromIsr? || s.CreateTask?
             || s.DeleteTask? || s.SwitchContext? || s.Disinherit?
    ensures SleptOrWoke(k, Next(k, s), t, due)
  {
    hide World.L, World.Linked, World.Ordered, Home;
    AsleepAhead(k, t, due);
    match s
    case SuspendTask(u) => SuspendCore(k, u);
    case ResumeTask(u) => ResumeGood(k, u);
    case ResumeTaskFromIsr(u) => ResumeFromIsrCore(k, u);
    case CreateTask(u, p) => CreateCore(k, u, p);
    case DeleteTask(u) => DeleteCore(k, u);
    case SwitchContext => SearchStops(k);
    case Disinherit(h) => DisinheritCore(k, h);
    case SuspendScheduler =>
  }

  /** No step of the run wakes, suspends or deletes t by itself. */
  ghost predicate AllLeaveAlone(k: K, steps: seq<Step>, t: Task)
    requires Good(k) && Feasible(k, steps)
    decreases |steps|
  {
    steps != [] ==>
      && LeavesAlone(k, steps[0], t)
      && (NextGood(k, steps[0]); AllLeaveAlone(Next(k, steps[0]), steps[1..], t))
  }

  lemma {:induction false} RunTakesTime(k: K, steps: seq<Step>)
    requires Good(k) && Feasible(k, steps)
    ensures k.Now() <= Run(k, steps).Now()
    decreases |steps|
  {
    if steps != [] {
      NextGood(k, steps[0]);
      RunTakesTime(Next(k, steps[0]), steps[1..]);
    }
  }

  /** A sleeping task stays asleep through any run that leaves it alone and ends before its
      wake time, however often the counter wraps and the scheduler is suspended. */
  lemma {:induction false} SleepsUntilDue(k: K, steps: seq<Step>, t: Task, due: nat)
    requires Good(k) && Feasible(k, steps) && Asleep(k, t, due) && AllLeaveAlone(k, steps, t)
    requires Run(k, steps).Now() < due
    ensures Asleep(Run(k, steps), t, due)
    decreases |steps|
  {
    hide Good, Asleep, Enabled, Next, LeavesAlone;
    if steps != [] {
      SleepStep(k, steps[0], t, due);
      NextGood(k, steps[0]);
      RunTakesTime(Next(k, steps[0]), steps[1..]);
      SleepsUntilDue(Next(k, steps[0]), steps[1..], t, due);
    }
  }

  lemma DelaySleeps(k: K, d: nat)
    requires Good(k) && Enabled(k, Delay(d))
    ensures Asleep(Next(k, Delay(d)), k.current, k.Now() + d)
  {
    hide World.L, World.Linked, World.Ordered, Home, NonePending, Core, K.BlockUntil, World.Refiled;
    BlockerIsFree(k);
    DelayDue(k, k.B(k.current), d);
    BlockUntilBlocks(k, (k.tick + d) % WORD);
  }

  /** A wake time less than one turn of the counter ahead is filed under its absolute time. */
  lemma DueAhead(k: K, b: Tcb, due: nat)
    requires k.tick < WORD && k.Now() < due < k.Now() + WORD
    ensures k.Blocked(b, due % WORD).due == due
  {
  }

  /** A caller that is on time has to wait. */
  lemma OnTimeDelays(k: K, previous: nat, increment: nat)
    requires k.tick < WORD && increment < WORD && previous <= k.Now() < previous + increment
    ensures ShouldDelay(previous % WORD, increment, k.tick)
  {
    hide ShouldDelay, K.Now;
    assert k.Now() % WORD == k.tick by { NowWraps(k); }
    DelaysExactlyWhenInFuture(previous, increment, k.Now());
  }

  lemma NowWraps(k: K)
    requires k.tick < WORD
    ensures k.Now() % WORD == k.tick
  {
    WholeTurns(k.overflows, k.tick);
  }

  /** And its wake time is filed as it is. */
  lemma OnTimeDue(k: K, b: Tcb, previous: nat, increment: nat)
    requires k.tick < WORD && increment < WORD && previous <= k.Now() < previous + increment
    ensures k.Blocked(b, (previous % WORD + increment) % WORD).due == previous + increment
  {
    hide K.Blocked, K.Now;
    DueAhead(k, b, previous + increment);
    AddBeforeWrap(previous, increment);
  }

  /** vTaskDelayUntil on time: the task is filed under the absolute tick previous + increment. */
  lemma DelayUntilSleeps(k: K, previous: nat, increment: nat)
    requires Good(k) && previous <= k.Now() < previous + increment
    requires Enabled(k, DelayUntil(previous % WORD, increment))
    ensures Asleep(Next(k, DelayUntil(previous % WORD, increment)), k.current, previous + increment)
  {
    hide World.L, World.Linked, World.Ordered, Home, NonePending, Core, K.BlockUntil, K.Now, ShouldDelay;
    BlockerIsFree(k);
    OnTimeDelays(k, previous, increment);
    OnTimeDue(k, k.B(k.current), previous, increment);
    BlockUntilBlocks(k, (previous % WORD + increment) % WORD);
  }

  /** A caller that is late, by less than one turn of the counter, does not wait. */
  lemma LateCallerRunsOn(k: K, previous: nat, increment: nat)
    requires Good(k) && previous + increment <= k.Now() < previous + WORD
    requires Enabled(k, DelayUntil(previous % WORD, increment))
    ensures Next(k, DelayUntil(previous % WORD, increment)) == k
  {
    hide World.L, World.Linked, World.Ordered, Home, NonePending, Core, K.BlockUntil, K.Now, ShouldDelay;
    assert k.Now() % WORD == k.tick by { NowWraps(k); }
    DelaysExactlyWhenInFuture(previous, increment, k.Now());
  }

  /** A wait for an event with a block time ends, without one, after that many ticks. */
  lemma WaitSleeps(k: K, q: nat, ticks: nat)
    requires Good(k) && Enabled(k, WaitFor(q, ticks)) && ticks != MAX_DELAY
    ensures Asleep(Next(k, WaitFor(q, ticks)), k.current, k.Now() + ticks)
  {
    hide World.L, World.Linked, World.Ordered, Home, NonePending, Core, K.PlaceOnEventList;
    BlockerIsFree(k);
    DelayDue(k, k.B(k.current).(ev := On(Event(q))), ticks);
    WaitBlocks(k, q, ticks);
  }

  /** A blocked task that nothing else wakes stays blocked until its tick and is made ready by the
      very step that processes that tick. */
  lemma SleepEndsExactly(k: K, steps: seq<Step>, t: Task, due: nat, m: K, last: Step)
    requires Good(k) && Asleep(k, t, due)
    requires Feasible(k, steps) && AllLeaveAlone(k, steps, t) && m == Run(k, steps)
    requires m.Now() < due && Enabled(m, last) && LeavesAlone(m, last, t)
    ensures Asleep(m, t, due) && SleptOrWoke(m, Next(m, last), t, due)
  {
    hide Asleep, SleptOrWoke, Good, Enabled, Next, LeavesAlone;
    SleepsUntilDue(k, steps, t, due);
    SleepStep(m, last, t, due);
  }

  /** The same from the call that blocks the task: vTaskDelay for d ticks, vTaskDelayUntil the
      absolute tick `due`, or a wait for an event with a block time. */
  lemma DelayEndsExactly(k: K, s: Step, due: nat, k1: K, steps: seq<Step>, m: K, last: Step)
    requires Good(k) && Enabled(k, s) && k1 == Next(k, s)
    requires match s
             case Delay(d) => due == k.Now() + d
             case DelayUntil(previous, increment) =>
               exists p: nat :: p % WORD == previous && p <= k.Now() < p + increment && due == p + increment
             case WaitFor(_, ticks) => ticks != MAX_DELAY && due == k.Now() + ticks
             case _ => false
    requires Good(k1) && Feasible(k1, steps) && AllLeaveAlone(k1, steps, k.current) && m == Run(k1, steps)
    requires m.Now() < due && Enabled(m, last) && LeavesAlone(m, last, k.current)
    ensures Asleep(m, k.current, due) && SleptOrWoke(m, Next(m, last), k.current, due)
  {
    hide Asleep, SleptOrWoke, Good, Next, LeavesAlone;
    match s {
      case Delay(d) => DelaySleeps(k, d);
      case DelayUntil(previous, increment) =>
        var p: nat :| p % WORD == previous && p <= k.Now() < p + increment && due == p + increment;
        DelayUntilSleeps(k, p, increment);
      case WaitFor(q, ticks) => WaitSleeps(k, q, ticks);
    }
    SleepEndsExactly(k1, steps, k.current, due, m, last);
  }
}
