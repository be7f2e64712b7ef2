/** tasks.c in its own form: file-level variables that each operation updates in place.  Every
    method is proved to do what the function of the same purpose in module Kernel says. */
module Tasks {
  import opened Bytes
  import opened Rings
  import opened Worlds
  import opened Timing
  import opened Kernel
  import opened KernelRuns
  import opened KernelTheorems

  class Scheduler {
    var lists: map<ListId, Ring<Item>>
    var tcb: map<Task, Tcb>
    var idle: Task
    var current: Task
    var top: nat
    var tick: nat
    var missed: nat
    var depth: nat
    var missedYield: bool
    var overflows: nat
    var swapped: bool
    var tasks: nat
    var tasksDeleted: nat
    ghost var interrupts: nat
    ghost var lost: nat

    ghost function W(): World
      reads this
    {
      World(lists, tcb)
    }

    ghost function Abs(): K
      reads this
    {
      K(W(), idle, current, top, tick, missed, depth, missedYield, overflows, swapped, interrupts, lost)
    }

    function Cur(): ListId
      reads this
    {
      if swapped then DelayB else DelayA
    }

    function L(id: ListId): Ring<Item>
      reads this
    {
      World(lists, tcb).L(id)
    }

    /** prvInitialiseTaskLists and vTaskStartScheduler, with no task but the idle task. */
    constructor (idle: Task)
      ensures Abs() == Boot(idle) && tasks == |tcb| == 1 && tasksDeleted == 0
    {
      lists := map[Ready(0) := Ring([Gen(idle)], 1)];
      tcb := map[idle := Tcb(0, 0, On(Ready(0)), 0, Nowhere, PRIORITIES, 0)];
      this.idle, current, top, tick, missed, depth := idle, idle, 0, 0, 0, 0;
      missedYield, overflows, swapped := false, 0, false;
      tasks, tasksDeleted := 1, 0;
      interrupts, lost := 0, 0;
      new;
      hide Boot;
      BootIs(idle);
    }

    // ----- the list macros ----------------------------------------------------------------------

    method InsertEnd(id: ListId, i: Item)
      requires W().Linked() && i.task in tcb && tcb[i.task].At(i) == Nowhere
      modifies `lists, `tcb
      ensures W() == old(W()).Put(id, i)
    {
      assert Seen(id);
      lists, tcb := lists[id := L(id).InsertEnd(i)], tcb[i.task := tcb[i.task].Moved(i, On(id))];
    }

    method Insert(id: ListId, i: Item)
      requires W().Linked() && i.task in tcb && tcb[i.task].At(i) == Nowhere
      modifies `lists, `tcb
      ensures W() == old(W()).PutSorted(id, i)
    {
      assert Seen(id);
      var w := World(lists, tcb);
      lists := lists[id := L(id).Insert(SortedPos(w.Values(id), w.V(i)), i)];
      tcb := tcb[i.task := tcb[i.task].Moved(i, On(id))];
    }

    method Remove(i: Item)
      requires W().Linked() && i.task in tcb && tcb[i.task].At(i).On?
      modifies `lists, `tcb
      ensures W() == old(W()).Take(i)
    {
      var id := tcb[i.task].At(i).id;
      assert Known(i) && Seen(id);
      lists, tcb := lists[id := L(id).Remove(i)], tcb[i.task := tcb[i.task].Moved(i, Nowhere)];
    }

    method AddTaskToReadyQueue(t: Task)
      requires W().Linked() && t in tcb && tcb[t].gen == Nowhere
      modifies `lists, `tcb, `top
      ensures Abs() == old(Abs()).AddReady(t)
    {
      if top < tcb[t].prio {
        top := tcb[t].prio;
      }
      InsertEnd(Ready(tcb[t].prio), Gen(t));
    }

    // ----- the tick -----------------------------------------------------------------------------

    /** What prvCheckDelayedTasks does for a task whose time has come. */
    method WakeTask(t: Task)
      requires Abs().Sane() && t in tcb
      modifies `lists, `tcb, `top
      ensures Abs() == old(Abs()).Wake(t)
    {
      hide World.L, World.Linked, World.Take, World.Put, World.Ordered;
      var onEvent := tcb[t].ev.On?;
      Remove(Gen(t));
      if onEvent {
        Remove(Ev(t));
      }
      AddTaskToReadyQueue(t);
    }

    /** prvCheckDelayedTasks. */
    method CheckDelayedTasks()
      requires Abs().Sane()
      modifies `lists, `tcb, `top
      ensures Abs().Sane() && Abs() == old(Abs()).CheckDelayed()
    {
      hide World.Linked, K.Wake;
      while L(Cur()).items != []
        invariant Abs().Sane() && Abs().CheckDelayed() == old(Abs()).CheckDelayed()
        decreases |L(Cur()).items|
      {
        HeadIsOn(W(), Cur());
        var h := L(Cur()).items[0].task;
        if tick < tcb[h].wake {
          break;
        }
        WakeShortens(Abs(), h);
        WakeTask(h);
      }
    }

    /** vTaskIncrementTick. */
    method IncrementTick()
      requires Abs().Sane()
      modifies `lists, `tcb, `top, `tick, `swapped, `overflows, `missed, `lost
      ensures Abs().Sane() && Abs() == old(Abs()).IncrementTick()
    {
      if depth == 0 {
        tick := if tick + 1 < WORD then tick + 1 else 0;
        if tick == 0 {
          swapped := !swapped;
          overflows := overflows + 1;
        }
        assert Abs() == old(Abs()).Advanced();
        CheckDelayedTasks();
      } else if missed + 1 < WORD {
        missed := missed + 1;
      } else {
        missed, lost := 0, lost + 1;
      }
    }

    // ----- suspending the scheduler ---------------------------------------------------------------

    /** vTaskSuspendAll. */
    method SuspendAll()
      modifies `depth
      ensures depth == old(depth) + 1
    {
      depth := depth + 1;
    }

    /** One round of the loop of xTaskResumeAll over the pending tasks. */
    method MoveOnePending() returns (t: Task)
      requires Abs().Sane() && L(Pending).items != []
      modifies `lists, `tcb, `top
      ensures t == old(L(Pending).items[0].task) && t in tcb && old(t in tcb && tcb[t].ev.On?)
      ensures Abs() == old(Abs()).WakeFromEvent(t)
    {
      HeadIsOn(W(), Pending);
      t := L(Pending).items[0].task;
      Remove(Ev(t));
      Remove(Gen(t));
      AddTaskToReadyQueue(t);
    }

    /** The loop of xTaskResumeAll over the pending tasks. */
    method MovePending() returns (mustYield: bool)
      requires Abs().Sane()
      modifies `lists, `tcb, `top
      ensures Abs().Sane() && Abs() == old(Abs()).Drain()
      ensures mustYield <==> old(Abs().PendingOutranks())
    {
      hide World.Linked, World.V, World.Take, World.Put, Outranked, K.WakeFromEvent;
      mustYield := false;
      while L(Pending).items != []
        invariant Abs().Sane() && Abs().Drain() == old(Abs()).Drain()
        invariant mustYield || Abs().PendingOutranks() <==> old(Abs().PendingOutranks())
        decreases |L(Pending).items|
      {
        OutrankedByHeadOrRest(Abs());
        WakeFromEventShortens(Abs(), L(Pending).items[0].task);
        ghost var k := Abs();
        var t := MoveOnePending();
        if tcb[current].prio <= tcb[t].prio {
          mustYield := true;
        }
      }
      NobodyOutranks(W(), tcb[current].prio);
    }

    /** The loop of xTaskResumeAll over the missed ticks. */
    method ReplayMissedTicks()
      requires Abs().Sane() && depth == 0
      modifies `lists, `tcb, `top, `tick, `swapped, `overflows, `missed, `lost
      ensures Abs().Sane() && Abs() == old(Abs()).Replay()
    {
      hide World.Linked, World.L, K.CheckDelayed, K.Fit;
      while 0 < missed
        invariant Abs().Sane() && depth == 0 && Abs().Replay() == old(Abs()).Replay()
        decreases missed
      {
        ghost var k := Abs();
        IncrementTick();
        CheckDelayedKeeps(k.Advanced());
        missed := missed - 1;
        assert Abs() == k.Advanced().CheckDelayed().(missed := k.missed - 1);
      }
    }

    /** xTaskResumeAll; alreadyYielded says that it asks for a yield. */
    method ResumeAll() returns (alreadyYielded: bool)
      requires Abs().Sane() && 0 < depth
      modifies this
      ensures Abs().Sane() && Abs() == old(Abs()).ResumeAll()
      ensures alreadyYielded <==> depth == 0 && old(Abs().MustYield())
    {
      hide World.L, World.Linked, Outranked, K.Drain, K.Fit, K.Advanced, K.CheckDelayed;
      alreadyYielded := false;
      depth := depth - 1;
      if depth == 0 {
        DrainKeeps(Abs());
        var mustYield := MovePending();
        if 0 < missed {
          ReplayMissedTicks();
          mustYield := true;
        }
        if mustYield || missedYield {
          alreadyYielded := true;
          missedYield := false;
        }
      }
    }

    // ----- choosing the running task --------------------------------------------------------------

    /** vTaskSwitchContext. */
    method SwitchContext()
      requires Abs().Sane() && L(Ready(Abs().Highest(top))).items != []
      modifies this
      ensures Abs() == old(Abs()).Switch()
    {
      if 0 < depth {
        missedYield := true;
        return;
      }
      while L(Ready(top)).items == []
        invariant L(Ready(HighestReady(W(), top))).items != []
        invariant Abs() == old(Abs()).(top := top) && HighestReady(W(), top) == old(HighestReady(W(), top))
        decreases top
      {
        top := top - 1;
      }
      assert Seen(Ready(top));
      lists := lists[Ready(top) := L(Ready(top)).Next()];
      current := L(Ready(top)).Here().task;
    }

    // ----- blocking and waking ----------------------------------------------------------------------

    /** Off the list it is on, and new values for the block. */
    method Rebase(t: Task, b: Tcb)
      requires W().Linked() && t in tcb && tcb[t].gen.On? && b.ev == tcb[t].ev
      modifies `lists, `tcb
      ensures W() == old(W()).Rebased(t, b)
    {
      Remove(Gen(t));
      SetBlock(t, b.(gen := Nowhere));
    }

    /** And then onto a delayed list. */
    method Refile(t: Task, b: Tcb)
      requires W().Linked() && t in tcb && tcb[t].gen.On? && b.gen.On? && b.ev == tcb[t].ev && b.rank == tcb[t].rank
      modifies `lists, `tcb
      ensures W() == old(W()).Refiled(t, b)
    {
      Rebase(t, b);
      Insert(b.gen.id, Gen(t));
    }

    /** listSET_LIST_ITEM_VALUE and other changes to a task's block. */
    method SetBlock(t: Task, b: Tcb)
      requires W().Linked() && (if t in tcb then b.gen == tcb[t].gen && b.ev == tcb[t].ev
                                else b.gen == Nowhere && b.ev == Nowhere)
      modifies `tcb
      ensures W() == old(W()).Update(t, b)
    {
      tcb := tcb[t := b];
    }

    method BlockUntil(v: nat)
      requires W().Linked() && current in tcb && tcb[current].gen.On?
      modifies `lists, `tcb
      ensures Abs() == old(Abs()).BlockUntil(v)
    {
      hide World.Linked, World.Refiled, World.L;
      var to := if v < tick then (if swapped then DelayA else DelayB) else Cur();
      var due := Absolute(if v < tick then overflows + 1 else overflows, v);
      var b := tcb[current].(gen := On(to), wake := v, due := due);
      assert b == Abs().Blocked(tcb[current], v);
      Refile(current, b);
    }

    /** vTaskDelay between suspending and resuming the scheduler. */
    method Delay(ticks: nat)
      requires Abs().Sane()
      modifies `lists, `tcb
      ensures Abs() == old(Abs()).Delay(ticks)
    {
      hide World.L, World.Linked, World.Take, World.Put, World.PutSorted, World.Update, World.Rebased,
        World.Refiled, K.BlockUntil;
      BlockUntil((tick + ticks) % WORD);
    }

    /** vTaskDelayUntil between suspending and resuming the scheduler; it hands back the wake time
        that it stores for the next call. */
    method DelayUntil(previous: nat, increment: nat) returns (wake: nat)
      requires Abs().Sane() && previous < WORD && increment < WORD
      modifies `lists, `tcb
      ensures Abs() == old(Abs()).DelayUntil(previous, increment)
      ensures wake == (previous + increment) % WORD
    {
      hide World.L, World.Linked, World.Take, World.Put, World.PutSorted, World.Update, World.Rebased,
        World.Refiled, K.BlockUntil;
      wake := (previous + increment) % WORD;
      var shouldDelay := false;
      if tick < previous {
        if wake < previous && tick < wake {
          shouldDelay := true;
        }
      } else if wake < previous || tick < wake {
        shouldDelay := true;
      }
      if shouldDelay {
        BlockUntil(wake);
      }
    }

    method MoveToSuspended(t: Task)
      requires W().Linked() && t in tcb && tcb[t].gen.On?
      modifies `lists, `tcb
      ensures W() == old(W()).Take(Gen(t)).Put(Suspended, Gen(t))
    {
      hide World.L, World.Linked, World.Take, World.Put, World.Ordered;
      Remove(Gen(t));
      InsertEnd(Suspended, Gen(t));
    }

    /** vTaskPlaceOnEventList. */
    method PlaceOnEventList(q: nat, ticks: nat)
      requires Abs().Sane() && tcb[current].ev == Nowhere
      modifies `lists, `tcb
      ensures Abs() == old(Abs()).PlaceOnEventList(q, ticks)
    {
      hide World.L, World.Linked, World.Take, World.Put, World.PutSorted, World.Update, World.Rebased, World.Refiled,
        World.Ordered, K.BlockUntil;
      Insert(Event(q), Ev(current));
      assert Abs() == old(Abs()).(w := old(Abs()).w.PutSorted(Event(q), Ev(current)));
      if ticks == MAX_DELAY {
        MoveToSuspended(current);
      } else {
        BlockUntil((tick + ticks) % WORD);
      }
    }

    /** xTaskRemoveFromEventList; it tells whether the task woken should preempt. */
    method RemoveFromEventList(q: nat) returns (higher: bool)
      requires Abs().Sane() && L(Event(q)).items != []
      modifies `lists, `tcb, `top
      ensures Abs() == old(Abs()).RemoveFromEventList(q)
      ensures old(L(Event(q)).items[0].task in tcb) && old(current in tcb)
      ensures higher <==> old(tcb[current].prio <= tcb[L(Event(q)).items[0].task].prio)
    {
      HeadIsEvent(Abs(), q);
      var t := L(Event(q)).items[0].task;
      higher := tcb[current].prio <= tcb[t].prio;
      Remove(Ev(t));
      if depth == 0 {
        Remove(Gen(t));
        AddTaskToReadyQueue(t);
      } else {
        InsertEnd(Pending, Ev(t));
      }
    }

    method Detach(t: Task)
      requires W().Linked() && t in tcb && tcb[t].gen.On?
      modifies `lists, `tcb
      ensures W() == old(Abs()).Detached(t)
    {
      var onEvent := tcb[t].ev.On?;
      Remove(Gen(t));
      if onEvent {
        Remove(Ev(t));
      }
    }

    /** vTaskSuspend; suspending oneself asks for a yield. */
    method SuspendTask(t: Task) returns (mustYield: bool)
      requires Abs().Sane() && t in tcb
      modifies `lists, `tcb
      ensures Abs() == old(Abs()).SuspendTask(t) && (mustYield <==> t == current)
    {
      hide World.L, World.Linked, World.Take, World.Put, World.PutSorted, World.Update, World.Rebased, World.Refiled;
      Detach(t);
      InsertEnd(Suspended, Gen(t));
      mustYield := t == current;
    }

    /** vTaskResume; it tells whether it asks for a yield. */
    method ResumeTask(t: Task) returns (mustYield: bool)
      requires Abs().Sane() && t in tcb
      modifies `lists, `tcb, `top
      ensures Abs() == old(Abs()).ResumeTask(t)
      ensures mustYield <==> t != current && old(Abs().IsSuspended(t)) && old(tcb[current].prio <= tcb[t].prio)
    {
      hide World.L, World.Linked, World.Take, World.Put, World.PutSorted, World.Update, World.Rebased, World.Refiled;
      mustYield := false;
      if t != current && tcb[t].gen == On(Suspended) && tcb[t].ev == Nowhere {
        mustYield := tcb[current].prio <= tcb[t].prio;
        Remove(Gen(t));
        AddTaskToReadyQueue(t);
      }
    }

    /** xTaskResumeFromISR; it tells whether it asks for a context switch. */
    method ResumeTaskFromIsr(t: Task) returns (mustYield: bool)
      requires Abs().Sane() && t in tcb
      modifies `lists, `tcb, `top
      ensures Abs() == old(Abs()).ResumeTaskFromIsr(t)
      ensures mustYield <==> depth == 0 && old(Abs().IsSuspended(t)) && old(tcb[current].prio <= tcb[t].prio)
    {
      hide World.L, World.Linked, World.Take, World.Put, World.PutSorted, World.Update, World.Rebased, World.Refiled;
      mustYield := false;
      if tcb[t].gen == On(Suspended) && tcb[t].ev == Nowhere {
        if depth == 0 {
          mustYield := tcb[current].prio <= tcb[t].prio;
          Remove(Gen(t));
          AddTaskToReadyQueue(t);
        } else {
          InsertEnd(Pending, Ev(t));
        }
      }
    }

    // ----- creating and deleting --------------------------------------------------------------------

    /** uxCurrentNumberOfTasks is the number of tasks, in 32 bits. */
    predicate TasksCounted()
      reads this
    {
      tasks == |tcb.Keys| % WORD
    }

    /** A new task's block comes to the ready lists. */
    method EnterTask(t: Task, priority: nat)
      requires Abs().Sane() && t !in tcb
      modifies `lists, `tcb, `top
      ensures Abs() == old(Abs()).CreateTask(t, priority)
    {
      hide World.L, World.Linked, World.Take, World.Put, World.PutSorted, World.Update, World.Rebased,
        World.Refiled, K.NewBlock;
      SetBlock(t, K.NewBlock(priority));
      AddTaskToReadyQueue(t);
    }

    /** xTaskCreate with the scheduler running; `memory` says whether the allocations succeed. */
    method CreateTask(t: Task, priority: nat, memory: bool) returns (created: bool, mustYield: bool)
      requires Abs().Sane() && t !in tcb
      modifies `lists, `tcb, `top, `tasks
      ensures created <==> memory
      ensures Abs() == if created then old(Abs()).CreateTask(t, priority) else old(Abs())
      ensures mustYield <==> created && old(tcb[current].prio) < priority
      ensures old(TasksCounted()) ==> TasksCounted()
    {
      hide World.Linked, K.CreateTask, K.Fit;
      created, mustYield := memory, false;
      if created {
        mustYield := tcb[current].prio < priority;
        ghost var was := tcb.Keys;
        CreatedKeys(Abs(), t, priority);
        EnterTask(t, priority);
        CountCreated(was, t);
      }
    }

    /** The count goes up once a task has been entered. */
    method CountCreated(ghost was: set<Task>, ghost t: Task)
      requires t !in was && tcb.Keys == was + {t}
      modifies `tasks
      ensures old(tasks) == |was| % WORD ==> TasksCounted()
    {
      tasks := Add32(tasks, 1);
    }

    /** vTaskDelete; deleting oneself asks for a yield. */
    method DeleteTask(t: Task) returns (mustYield: bool)
      requires Abs().Sane() && t in tcb
      modifies `lists, `tcb, `tasksDeleted
      ensures Abs() == old(Abs()).DeleteTask(t) && (mustYield <==> t == current)
      ensures tasksDeleted == Add32(old(tasksDeleted), 1) && (old(TasksCounted()) ==> TasksCounted())
    {
      hide World.L, World.Linked, World.Take, World.Put, World.PutSorted, World.Update, World.Rebased, World.Refiled;
      Detach(t);
      InsertEnd(Dead, Gen(t));
      tasksDeleted := Add32(tasksDeleted, 1);
      mustYield := t == current;
      assert tcb.Keys == old(tcb.Keys);
    }

    /** The first deleted task leaves its list and is forgotten. */
    method RemoveTask() returns (freed: Task)
      requires Abs().Sane() && L(Dead).items != []
      requires forall t :: t in tcb && tcb[t].gen == On(Dead) ==> tcb[t].ev == Nowhere
      modifies `lists, `tcb
      ensures Abs() == old(Abs()).Reap() && freed == old(L(Dead).items[0].task)
      ensures freed in old(tcb) && tcb.Keys == old(tcb.Keys) - {freed}
    {
      hide World.Linked, World.Take, World.Forget, World.Ordered, World.L;
      HeadIsOn(W(), Dead);
      freed := L(Dead).items[0].task;
      Remove(Gen(freed));
      Forget(freed);
    }

    /** The counts go down once a task has been forgotten. */
    method CountReaped(ghost was: set<Task>, ghost freed: Task)
      requires freed in was && tcb.Keys == was - {freed}
      modifies `tasks, `tasksDeleted
      ensures tasksDeleted == (old(tasksDeleted) - 1) % WORD
      ensures old(tasks) == |was| % WORD ==> TasksCounted()
    {
      tasks := (tasks - 1) % WORD;
      tasksDeleted := (tasksDeleted - 1) % WORD;
    }

    /** The critical section of prvCheckTasksWaitingTermination, when there is a task to reap; the
        task's memory is free for use again. */
    method ReapTask() returns (freed: Task)
      requires Abs().Sane() && L(Dead).items != []
      requires forall t :: t in tcb && tcb[t].gen == On(Dead) ==> tcb[t].ev == Nowhere
      modifies `lists, `tcb, `tasks, `tasksDeleted
      ensures Abs() == old(Abs()).Reap() && freed == old(L(Dead).items[0].task)
      ensures freed in old(tcb) && freed !in tcb
      ensures tasksDeleted == (old(tasksDeleted) - 1) % WORD && (old(TasksCounted()) ==> TasksCounted())
    {
      hide World.Linked, World.L, K.Reap, K.Fit;
      ghost var was := tcb.Keys;
      freed := RemoveTask();
      CountReaped(was, freed);
    }

    method Forget(t: Task)
      requires W().Linked() && t in tcb && tcb[t].gen == Nowhere && tcb[t].ev == Nowhere
      modifies `tcb
      ensures W() == old(W()).Forget(t)
    {
      tcb := tcb - {t};
    }

    // ----- priority inheritance -----------------------------------------------------------------------

    method Reprioritise(t: Task, p: nat)
      requires Abs().Sane() && t in tcb && p < PRIORITIES
      modifies `lists, `tcb, `top
      ensures Abs() == old(Abs()).Reprioritised(t, p)
    {
      hide World.L, World.Linked, World.Take, World.Put, World.PutSorted, World.Update, World.Rebased, World.Refiled;
      Rebase(t, tcb[t].(rank := PRIORITIES - p, prio := p));
      AddTaskToReadyQueue(t);
    }

    /** vTaskPriorityInherit. */
    method Inherit(holder: Task)
      requires Abs().Sane() && holder in tcb
      modifies `lists, `tcb, `top
      ensures Abs() == old(Abs()).Inherit(holder)
    {
      hide World.L, World.Linked, World.Take, World.Put, World.PutSorted, World.Update, World.Rebased,
        World.Refiled, K.Reprioritised;
      var p := tcb[current].prio;
      if tcb[holder].prio < p {
        if tcb[holder].gen == On(Ready(tcb[holder].prio)) {
          Reprioritise(holder, p);
        } else {
          SetBlock(holder, tcb[holder].(rank := PRIORITIES - p, prio := p));
        }
      }
    }

    /** vTaskPriorityDisinherit. */
    method Disinherit(holder: Task)
      requires Abs().Sane() && holder in tcb
      modifies `lists, `tcb, `top
      ensures Abs() == old(Abs()).Disinherit(holder)
    {
      hide World.L, World.Linked, World.Take, World.Put, World.PutSorted, World.Update, World.Rebased,
        World.Refiled, K.Reprioritised;
      var p := tcb[holder].base;
      if tcb[holder].prio != p {
        Reprioritise(holder, p);
      }
    }

    // ----- block times --------------------------------------------------------------------------------

    /** xTaskCheckForTimeOut, in terms of the absolute time that the counters stand for. */
    method CheckForTimeOut(timeOut: TimeOut, ticks: nat) returns (expired: bool, timeOut': TimeOut, ticks': nat)
      requires tick < WORD
      ensures (if expired then Expired else Remaining(timeOut', ticks')) == Check(timeOut, ticks, Abs().Now())
    {
      expired, timeOut', ticks' := false, timeOut, ticks;
      AbsoluteParts(overflows, tick);
      if ticks != MAX_DELAY {
        if overflows % WORD != timeOut.overflows && timeOut.entered <= tick {
          expired := true;
        } else if (tick - timeOut.entered) % WORD < ticks {
          ticks' := ticks - (tick - timeOut.entered) % WORD;
          timeOut' := TimeOut(overflows % WORD, tick);
        } else {
          expired := true;
        }
      }
    }
  }

  lemma CreatedKeys(k: K, t: Task, priority: nat)
    requires k.Sane() && t !in k.w.tcb
    ensures k.CreateTask(t, priority).w.tcb.Keys == k.w.tcb.Keys + {t}
  {
    hide World.L, World.Linked, World.Ordered, K.CreateTask;
    CreatedReady(k, t, priority);
  }

  lemma BootIs(idle: Task)
    ensures var b := Tcb(0, 0, On(Ready(0)), 0, Nowhere, PRIORITIES, 0);
            var w := World(map[Ready(0) := Ring([Gen(idle)], 1)], map[idle := b]);
            Boot(idle) == K(w, idle, idle, 0, 0, 0, 0, false, 0, false, 0, 0)
  {
    hide World.Linked, World.Ordered, Good;
    assert InsertAt([], 0, Gen(idle)) == [Gen(idle)];
  }

  lemma NobodyOutranks(w: World, prio: nat)
    requires w.L(Pending).items == []
    ensures !Outranked(w, prio)
  {
  }

  lemma AbsoluteParts(turn: nat, tick: nat)
    requires tick < WORD
    ensures Absolute(turn, tick) / WORD == turn && Absolute(turn, tick) % WORD == tick
  {
  }
}
