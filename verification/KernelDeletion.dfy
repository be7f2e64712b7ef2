/** The account of deleted tasks: each awaits termination until the idle task reaps it. */
module KernelDeletion {
  import opened Bytes
  import opened Rings
  import opened Worlds
  import opened Timing
  import opened Kernel
  import opened KernelInvariant
  import opened KernelRuns
  import opened KernelTheorems

  /** The tasks that await termination. */
  function DeadTasks(tcb: map<Task, Tcb>): set<Task> {
    set t | t in tcb && tcb[t].gen == On(Dead)
  }

  function One(b: bool): nat {
    if b then 1 else 0
  }

  /** What one changed block does to the count. */
  lemma OneChanged(tcb: map<Task, Tcb>, t: Task, b: Tcb)
    ensures |DeadTasks(tcb[t := b])| + One(t in tcb && tcb[t].gen == On(Dead)) == |DeadTasks(tcb)| + One(b.gen == On(Dead))
  {
    var others := DeadTasks(tcb) - {t};
    assert DeadTasks(tcb) == if t in tcb && tcb[t].gen == On(Dead) then others + {t} else others;
    assert DeadTasks(tcb[t := b]) == if b.gen == On(Dead) then others + {t} else others;
  }

  lemma OneForgotten(tcb: map<Task, Tcb>, t: Task)
    requires t in tcb && tcb[t].gen == On(Dead)
    ensures |DeadTasks(tcb - {t})| + 1 == |DeadTasks(tcb)|
  {
    assert DeadTasks(tcb) == DeadTasks(tcb - {t}) + {t};
  }

  lemma NoneWoken(tcb: map<Task, Tcb>, now: nat)
    ensures DeadTasks(WokenBy(tcb, now)) == DeadTasks(tcb)
  {
  }

  lemma NoneDrained(tcb: map<Task, Tcb>)
    requires forall t :: t in tcb && tcb[t].gen == On(Dead) ==> tcb[t].ev == Nowhere
    ensures DeadTasks(Drained(tcb)) == DeadTasks(tcb)
  {
  }

  /** A mutex of a deleted task is given back while its priority is raised, which makes the task
      ready again. */
  ghost predicate Revives(k: K, s: Step)
    requires k.Sane()
  {
    s.Disinherit? && s.holder in k.w.tcb && k.B(s.holder).gen == On(Dead) && k.B(s.holder).prio != k.B(s.holder).base
  }

  /** What a step does to the count. */
  ghost predicate Accounted(k: K, s: Step, r: K)
    requires k.Sane()
  {
    |DeadTasks(r.w.tcb)| + One(s.Reap?) + One(Revives(k, s)) == |DeadTasks(k.w.tcb)| + One(s.DeleteTask?)
  }

  lemma SameDead(k: K, s: Step, r: K)
    requires k.Sane() && (s.Tick? || s.ResumeScheduler?) && DeadTasks(r.w.tcb) == DeadTasks(k.w.tcb)
    ensures Accounted(k, s, r)
  {
  }

  lemma TickAccounted(k: K)
    requires Good(k)
    ensures Accounted(k, Tick, Next(k, Tick))
  {
    hide World.L, World.Linked, World.Ordered, Core, NonePending, K.IncrementTick, K.Now, WokenBy, DeadTasks, Accounted;
    TickInv(k);
    var r := Next(k, Tick);
    NoneWoken(k.w.tcb, r.Now());
    SameDead(k, Tick, r);
  }

  lemma ResumeAccounted(k: K)
    requires Good(k) && 0 < k.depth
    ensures Accounted(k, ResumeScheduler, k.ResumeAll())
  {
    hide World.L, World.Linked, World.Ordered, Home, NonePending, WokenBy, Drained, DeadTasks, Accounted;
    if k.depth == 1 {
      ResumeAllExact(k);
      DeadHaveNoEvent(k);
      NoneDrained(k.w.tcb);
      NoneWoken(Drained(k.w.tcb), k.ResumeAll().Now());
    }
    SameDead(k, ResumeScheduler, k.ResumeAll());
  }

  lemma BlockAccounted(k: K, s: Step)
    requires Good(k) && Enabled(k, s) && (s.Delay? || s.DelayUntil? || s.WaitFor?)
    ensures Accounted(k, s, Next(k, s))
  {
    hide World.L, World.Linked, World.Ordered, Home, NonePending, Core, DeadTasks, K.BlockUntil, K.PlaceOnEventList;
    BlockerIsFree(k);
    match s
    case Delay(ticks) =>
      BlockUntilBlocks(k, (k.tick + ticks) % WORD);
      OneChanged(k.w.tcb, k.current, Next(k, s).w.tcb[k.current]);
    case DelayUntil(previous, increment) =>
      BlockUntilBlocks(k, (previous + increment) % WORD);
      OneChanged(k.w.tcb, k.current, Next(k, s).w.tcb[k.current]);
    case WaitFor(q, ticks) =>
      if ticks == MAX_DELAY { WaitForEverBlocks(k, q); } else { WaitBlocks(k, q, ticks); }
      OneChanged(k.w.tcb, k.current, Next(k, s).w.tcb[k.current]);
  }

  lemma WakeAccounted(k: K, s: Step)
    requires Good(k) && Enabled(k, s) && (s.Signal? || s.ResumeTask? || s.ResumeTaskFromIsr?)
    ensures Accounted(k, s, Next(k, s))
  {
    hide World.L, World.Linked, World.Ordered, Home, NonePending, Core, DeadTasks, K.RemoveFromEventList, K.AddReady;
    match s
    case Signal(q) =>
      WaiterIsBlocked(k, q);
      SignalCore(k, q);
      var t := k.w.L(Event(q)).items[0].task;
      OneChanged(k.w.tcb, t, Next(k, s).w.tcb[t]);
    case ResumeTask(t) =>
      if t != k.current && k.IsSuspended(t) {
        Resumed(k, t);
        OneChanged(k.w.tcb, t, Readied(k.B(t)));
      }
    case ResumeTaskFromIsr(t) =>
      ResumeFromIsrCore(k, t);
      OneChanged(k.w.tcb, t, Next(k, s).w.tcb[t]);
  }

  lemma MoveAccounted(k: K, s: Step)
    requires Good(k) && Enabled(k, s) && (s.SuspendTask? || s.CreateTask? || s.DeleteTask?)
    ensures Accounted(k, s, Next(k, s))
  {
    hide World.L, World.Linked, World.Ordered, Home, NonePending, Core, DeadTasks, K.CreateTask, K.SuspendTask, K.DeleteTask;
    match s
    case SuspendTask(t) =>
      SuspendCore(k, t);
      OneChanged(k.w.tcb, t, Next(k, s).w.tcb[t]);
    case DeleteTask(t) =>
      DeleteCore(k, t);
      OneChanged(k.w.tcb, t, Next(k, s).w.tcb[t]);
    case CreateTask(t, p) =>
      CreateCore(k, t, p);
      OneChanged(k.w.tcb, t, Next(k, s).w.tcb[t]);
  }

  lemma ReapAccounted(k: K)
    requires Good(k) && Enabled(k, Reap)
    ensures Accounted(k, Reap, Next(k, Reap))
  {
    hide World.L, World.Linked, World.Ordered, NonePending, DeadTasks, K.Reap;
    DeadHaveNoEvent(k);
    ReapForgets(k);
    OneForgotten(k.w.tcb, k.w.L(Dead).items[0].task);
  }

  lemma InheritAccounted(k: K, h: Task)
    requires Good(k) && h in k.w.tcb
    ensures Accounted(k, Inherit(h), k.Inherit(h))
  {
    hide World.L, World.Linked, World.Ordered, NonePending, DeadTasks, K.Reprioritised;
    var p := k.B(k.current).prio;
    if k.B(h).prio < p {
      CoreHome(k, h);
      if k.B(h).gen.id.Ready? {
        ReprioritisedReady(k, h, p);
        OneChanged(k.w.tcb, h, Moved(k.B(h), p));
      } else {
        InheritedWhileBlocked(k, h, p);
        OneChanged(k.w.tcb, h, k.B(h).(rank := PRIORITIES - p, prio := p));
      }
    }
  }

  lemma DisinheritAccounted(k: K, h: Task)
    requires Good(k) && Enabled(k, Disinherit(h))
    ensures Accounted(k, Disinherit(h), k.Disinherit(h))
  {
    hide World.L, World.Linked, World.Ordered, NonePending, Core, Home, DeadTasks, K.Reprioritised;
    if k.B(h).prio != k.B(h).base {
      ReprioritisedReady(k, h, k.B(h).base);
      OneChanged(k.w.tcb, h, Moved(k.B(h), k.B(h).base));
    }
  }

  lemma SwitchAccounted(k: K)
    requires Good(k)
    ensures Accounted(k, SwitchContext, Next(k, SwitchContext))
  {
    hide World.L, World.Linked, World.Ordered, NonePending, Home, DeadTasks;
    SearchStops(k);
  }

  lemma NextAccounted(k: K, s: Step)
    requires Good(k) && Enabled(k, s)
    ensures Accounted(k, s, Next(k, s))
  {
    hide Accounted, Inv, World.L, World.Linked, World.Ordered, K.ResumeAll, K.RemoveFromEventList, K.SuspendTask,
      K.ResumeTask, K.ResumeTaskFromIsr, K.CreateTask, K.DeleteTask, K.Reap, K.Switch, K.Inherit, K.Disinherit, K.Delay,
      K.DelayUntil, K.PlaceOnEventList, K.IncrementTick;
    match s
    case Tick => TickAccounted(k);
    case ResumeScheduler => ResumeAccounted(k);
    case Signal(_) => WakeAccounted(k, s);
    case ResumeTask(_) => WakeAccounted(k, s);
    case ResumeTaskFromIsr(_) => WakeAccounted(k, s);
    case SuspendTask(_) => MoveAccounted(k, s);
    case CreateTask(_, _) => MoveAccounted(k, s);
    case DeleteTask(_) => MoveAccounted(k, s);
    case Reap => ReapAccounted(k);
    case SwitchContext => SwitchAccounted(k);
    case Inherit(h) => InheritAccounted(k, h);
    case Disinherit(h) => DisinheritAccounted(k, h);
    case SuspendScheduler => SuspendAccounted(k);
    case _ => BlockAccounted(k, s);
  }

  lemma SuspendAccounted(k: K)
    requires Good(k)
    ensures Accounted(k, SuspendScheduler, Next(k, SuspendScheduler))
  {
  }

  // ----- runs -----------------------------------------------------------------------------------

  function DeletedIn(steps: seq<Step>): nat {
    if steps == [] then 0 else One(steps[0].DeleteTask?) + DeletedIn(steps[1..])
  }

  function ReapedIn(steps: seq<Step>): nat {
    if steps == [] then 0 else One(steps[0].Reap?) + ReapedIn(steps[1..])
  }

  ghost function RevivedIn(k: K, steps: seq<Step>): nat
    requires Good(k) && Feasible(k, steps)
    decreases |steps|
  {
    if steps == [] then 0
    else NextGood(k, steps[0]); One(Revives(k, steps[0])) + RevivedIn(Next(k, steps[0]), steps[1..])
  }

  lemma {:induction false} RunAccounted(k: K, steps: seq<Step>)
    requires Good(k) && Feasible(k, steps)
    ensures |DeadTasks(Run(k, steps).w.tcb)| + ReapedIn(steps) + RevivedIn(k, steps)
            == |DeadTasks(k.w.tcb)| + DeletedIn(steps)
    decreases |steps|
  {
    hide Good, Enabled, Next, DeadTasks, Revives, One;
    if steps != [] {
      NextGood(k, steps[0]);
      NextAccounted(k, steps[0]);
      RunAccounted(Next(k, steps[0]), steps[1..]);
    }
  }

  /** As many items are on the list as tasks await termination. */
  lemma DeadListed(k: K)
    requires Good(k)
    ensures |k.w.L(Dead).items| == |DeadTasks(k.w.tcb)|
  {
    var items := k.w.L(Dead).items;
    assert Seen(Dead);
    AllApart(items);
    CountTasks(items);
    forall t ensures t in DeadTasks(k.w.tcb) <==> t in TasksOf(items) {
      if t in DeadTasks(k.w.tcb) { OnList(k.w, Gen(t), Dead); }
    }
    assert DeadTasks(k.w.tcb) == TasksOf(items);
  }

  function TasksOf(items: seq<Item>): set<Task> {
    set i | i in items :: i.task
  }

  lemma {:induction false} CountTasks(items: seq<Item>)
    requires Distinct(items) && forall i :: i in items ==> i.Gen?
    ensures |TasksOf(items)| == |items|
  {
    if items != [] {
      var rest := items[1..];
      CountTasks(rest);
      assert TasksOf(items) == TasksOf(rest) + {items[0].task};
    }
  }

  /** In every run, every deleted task has been reaped by the idle task, still awaits termination,
      or has been made ready again by the return of a mutex.  uxTasksDeleted counts the deletions
      less the reapings, so it is the number of tasks that await termination exactly while nothing
      of the third kind has happened. */
  lemma DeletedAreAccountedFor(idle: Task, steps: seq<Step>)
    requires Feasible(Boot(idle), steps)
    ensures |Run(Boot(idle), steps).w.L(Dead).items| + ReapedIn(steps) + RevivedIn(Boot(idle), steps) == DeletedIn(steps)
  {
    hide Boot, Good, Enabled, Next, Revives;
    BootHasNoDead(idle);
    RunAccounted(Boot(idle), steps);
    DeadListed(Run(Boot(idle), steps));
  }

  lemma BootHasNoDead(idle: Task)
    ensures DeadTasks(Boot(idle).w.tcb) == {}
  {
  }
}
