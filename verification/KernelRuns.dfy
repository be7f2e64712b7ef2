/** Runs of the scheduler: any interleaving of what the running task does with tick interrupts
    and other interrupts. */
module KernelRuns {
  import opened Bytes
  import opened Rings
  import opened Worlds
  import opened Timing
  import opened Kernel
  import opened KernelInvariant

  /** One critical section of the kernel. */
  datatype Step =
    | Tick
    | SuspendScheduler
    | ResumeScheduler
    | Delay(ticks: nat)
    | DelayUntil(previous: nat, increment: nat)
    | WaitFor(queue: nat, ticks: nat)
    | Signal(queue: nat)
    | SuspendTask(task: Task)
    | ResumeTask(task: Task)
    | ResumeTaskFromIsr(task: Task)
    | CreateTask(task: Task, priority: nat)
    | DeleteTask(task: Task)
    | Reap
    | SwitchContext
    | Inherit(holder: Task)
    | Disinherit(holder: Task)

  /** The running task may block: it holds the scheduler suspended, and it is ready, which it
      is unless it has just blocked itself.  The idle task never blocks. */
  ghost predicate MayBlock(k: K)
    requires k.Sane()
  {
    0 < k.depth && k.current != k.idle && k.B(k.current).gen.id.Ready?
  }

  /** What the source asks of its callers. */
  ghost predicate Enabled(k: K, s: Step)
    requires k.Sane()
  {
    match s
    case Tick => true
    case SuspendScheduler => true
    case ResumeScheduler => 0 < k.depth
    case Delay(ticks) => MayBlock(k) && 0 < ticks < WORD
    case DelayUntil(previous, increment) => MayBlock(k) && previous < WORD && increment < WORD
    case WaitFor(_, ticks) => MayBlock(k) && 0 < ticks < WORD
    case Signal(q) => k.w.L(Event(q)).items != []
    case SuspendTask(t) => t in k.w.tcb && t != k.idle && !k.B(t).gen.id.Dead?
    case ResumeTask(t) => t in k.w.tcb
    case ResumeTaskFromIsr(t) => t in k.w.tcb
    case CreateTask(t, _) => t !in k.w.tcb
    case DeleteTask(t) => t in k.w.tcb && t != k.idle && !k.B(t).gen.id.Dead?
    case Reap => k.w.L(Dead).items != [] && k.current == k.idle
    case SwitchContext => true
    case Inherit(h) => h in k.w.tcb
    case Disinherit(h) => h in k.w.tcb && (k.B(h).prio != k.B(h).base ==> k.B(h).ev == Nowhere)
  }

  /** r differs from k in nothing about other tasks than t, and not in the time. */
  ghost predicate Touches(k: K, r: K, t: Task) {
    && r.tick == k.tick && r.overflows == k.overflows
    && forall u :: u != t ==> (u in r.w.tcb <==> u in k.w.tcb) && (u in k.w.tcb ==> r.w.tcb[u] == k.w.tcb[u])
  }

  // ----- blocking -------------------------------------------------------------------------------

  lemma BlockedHome(k: K, r: K, b: Tcb, v: nat)
    requires K.Fit(b) && k.tick < WORD && v < WORD && v != k.tick
    requires r.overflows == k.overflows && r.swapped == k.swapped && r.top == k.top
    ensures Home(r, k.Blocked(b, v), k.Now() + 1)
  {
  }

  lemma BlockUntilBlocks(k: K, v: nat)
    requires k.w.Linked() && k.current in k.w.tcb && k.B(k.current).gen.On?
    ensures var r := k.BlockUntil(v);
            && r.w.tcb == k.w.tcb[k.current := k.Blocked(k.B(k.current), v)] && r.w.Linked()
            && (forall o :: k.w.Ordered(o) ==> r.w.Ordered(o)) && r == k.(w := r.w)
  {
  }

  /** Blocking files the task under its absolute wake time. */
  lemma BlockUntilCore(k: K, v: nat)
    requires Core(k, k.Now() + 1) && k.Sane() && k.current != k.idle && v < WORD && v != k.tick
    ensures Core(k.BlockUntil(v), k.Now() + 1) && Touches(k, k.BlockUntil(v), k.current)
    ensures k.BlockUntil(v).w.tcb == k.w.tcb[k.current := k.Blocked(k.B(k.current), v)]
  {
    hide World.L, Home, World.Ordered, World.Linked, K.Blocked, K.BlockUntil, K.Now;
    BlockUntilBlocks(k, v);
    BlockedHome(k, k.BlockUntil(v), k.B(k.current), v);
    CoreStep(k, k.BlockUntil(v), k.current, k.Blocked(k.B(k.current), v), k.Now() + 1);
  }

  /** Any wait for d ticks, d below 2^32, ends at absolute tick now + d. */
  lemma DelayDue(k: K, b: Tcb, d: nat)
    requires k.Sane() && 0 < d < WORD
    ensures (k.tick + d) % WORD != k.tick
    ensures k.Blocked(b, (k.tick + d) % WORD).due == k.Now() + d
  {
  }

  lemma DelayUntilDiffers(k: K, previous: nat, increment: nat)
    requires k.Sane() && previous < WORD && increment < WORD && ShouldDelay(previous, increment, k.tick)
    ensures (previous + increment) % WORD != k.tick
  {
  }

  lemma WaitForEverBlocks(k: K, q: nat)
    requires k.Sane() && k.B(k.current).ev == Nowhere
    ensures var r := k.PlaceOnEventList(q, MAX_DELAY);
            && r.w.tcb == k.w.tcb[k.current := k.B(k.current).(ev := On(Event(q)), gen := On(Suspended))]
            && r.w.Linked() && r == k.(w := r.w)
            && (k.w.Ordered(DelayA) ==> r.w.Ordered(DelayA)) && (k.w.Ordered(DelayB) ==> r.w.Ordered(DelayB))
  {
    hide World.L, World.Ordered, World.Linked;
    var b := k.B(k.current).(ev := On(Event(q)));
    Overwrite(k.w.tcb, k.current, b, b.(gen := Nowhere));
    Overwrite(k.w.tcb, k.current, b.(gen := Nowhere), b.(gen := On(Suspended)));
  }

  lemma WaitBlocks(k: K, q: nat, ticks: nat)
    requires k.Sane() && k.B(k.current).ev == Nowhere && ticks != MAX_DELAY
    ensures var r := k.PlaceOnEventList(q, ticks);
            && r.w.tcb == k.w.tcb[k.current := k.Blocked(k.B(k.current).(ev := On(Event(q))), (k.tick + ticks) % WORD)]
            && r.w.Linked() && r == k.(w := r.w)
            && (k.w.Ordered(DelayA) ==> r.w.Ordered(DelayA)) && (k.w.Ordered(DelayB) ==> r.w.Ordered(DelayB))
  {
    hide World.L, World.Ordered, World.Linked, K.Blocked, K.BlockUntil;
    var k1 := k.(w := k.w.PutSorted(Event(q), Ev(k.current)));
    var b := k.B(k.current).(ev := On(Event(q)));
    var v := (k.tick + ticks) % WORD;
    assert k1.B(k.current) == b;
    BlockUntilBlocks(k1, v);
    SameBlocked(k, k1, b, v);
    Overwrite(k.w.tcb, k.current, b, k.Blocked(b, v));
  }

  lemma SameBlocked(k: K, r: K, b: Tcb, v: nat)
    requires r.tick == k.tick && r.overflows == k.overflows && r.swapped == k.swapped
    ensures r.Blocked(b, v) == k.Blocked(b, v)
  {
  }

  lemma Overwrite(m: map<Task, Tcb>, t: Task, x: Tcb, y: Tcb)
    ensures m[t := x][t := y] == m[t := y]
  {
  }

  lemma WaitCore(k: K, q: nat, ticks: nat)
    requires Core(k, k.Now() + 1) && k.Sane() && MayBlock(k) && 0 < ticks < WORD
    requires k.B(k.current).ev == Nowhere
    ensures Core(k.PlaceOnEventList(q, ticks), k.Now() + 1) && Touches(k, k.PlaceOnEventList(q, ticks), k.current)
  {
    hide World.L, World.Ordered, World.Linked, K.Blocked, K.PlaceOnEventList, K.Now;
    var r := k.PlaceOnEventList(q, ticks);
    var b := k.B(k.current).(ev := On(Event(q)));
    if ticks == MAX_DELAY {
      WaitForEverBlocks(k, q);
      CoreStep(k, r, k.current, b.(gen := On(Suspended)), k.Now() + 1);
    } else {
      WaitBlocks(k, q, ticks);
      DelayDue(k, b, ticks);
      BlockedHome(k, r, b, (k.tick + ticks) % WORD);
      CoreStep(k, r, k.current, k.Blocked(b, (k.tick + ticks) % WORD), k.Now() + 1);
    }
  }

  // ----- the other steps ------------------------------------------------------------------------

  /** r is k after a step that gives task t the block b and touches nothing else but lists and
      uxTopReadyPriority. */
  ghost predicate Became(k: K, r: K, t: Task, b: Tcb) {
    && r == k.(w := r.w, top := r.top) && k.top <= r.top && (r.top == k.top || r.top == b.prio)
    && (b.gen.On? && b.gen.id.Ready? ==> b.gen == On(Ready(b.prio)) && b.prio <= r.top)
    && r.w.tcb == k.w.tcb[t := b] && r.w.Linked()
    && (k.w.Ordered(DelayA) ==> r.w.Ordered(DelayA)) && (k.w.Ordered(DelayB) ==> r.w.Ordered(DelayB))
  }

  lemma BecameCore(k: K, r: K, t: Task, b: Tcb)
    requires Core(k, k.Now() + 1) && Became(k, r, t, b) && t in k.w.tcb && Home(k, k.w.tcb[t], k.Now() + 1)
    requires K.Fit(b) && (t == k.idle ==> b.gen.id.Ready?)
    requires match b.gen.id
             case Ready(_) => b.ev == Nowhere
             case Dead => b.ev == Nowhere
             case DelayA => b.gen == k.w.tcb[t].gen && b.wake == k.w.tcb[t].wake && b.due == k.w.tcb[t].due
             case DelayB => b.gen == k.w.tcb[t].gen && b.wake == k.w.tcb[t].wake && b.due == k.w.tcb[t].due
             case _ => true
    ensures Core(r, k.Now() + 1) && Touches(k, r, t)
    ensures b.ev != On(Pending) && NonePending(k) ==> NonePending(r)
  {
    hide World.Linked, World.Ordered;
    assert Home(r, b, k.Now() + 1);
    CoreStep(k, r, t, b, k.Now() + 1);
  }

  /** Adding a task to the ready lists, from a state of the lists in which it is on none. */
  lemma AddedReady(k: K, w: World, t: Task, b: Tcb)
    requires w.Linked() && w.tcb == k.w.tcb[t := b] && b.gen == Nowhere && b.ev == Nowhere
    requires (k.w.Ordered(DelayA) ==> w.Ordered(DelayA)) && (k.w.Ordered(DelayB) ==> w.Ordered(DelayB))
    ensures Became(k, k.(w := w).AddReady(t), t, Readied(b))
  {
    hide World.L, World.Ordered, World.Linked;
    Overwrite(k.w.tcb, t, b, Readied(b));
  }

  lemma SignalledPending(k: K, q: nat, t: Task)
    requires k.Sane() && k.w.L(Event(q)).items != [] && t == k.w.L(Event(q)).items[0].task && 0 < k.depth
    requires t in k.w.tcb && k.B(t).gen.On? && !k.B(t).gen.id.Ready?
    ensures Became(k, k.RemoveFromEventList(q), t, k.B(t).(ev := On(Pending)))
  {
    hide World.L, World.Ordered, World.Linked;
    HeadIsEvent(k, q);
    Overwrite(k.w.tcb, t, k.B(t).(ev := Nowhere), k.B(t).(ev := On(Pending)));
  }

  /** The head of an event list is a task that waits and is not ready. */
  lemma WaiterIsBlocked(k: K, q: nat)
    requires Core(k, k.Now() + 1) && k.Sane() && k.w.L(Event(q)).items != []
    ensures var t := k.w.L(Event(q)).items[0].task;
            && t in k.w.tcb && k.B(t).ev == On(Event(q)) && !k.B(t).gen.id.Ready? && !k.B(t).gen.id.Dead?
            && Home(k, k.B(t), k.Now() + 1) && t != k.idle
  {
    hide World.Ordered;
    HeadIsEvent(k, q);
    assert Home(k, k.B(k.w.L(Event(q)).items[0].task), k.Now() + 1);
  }

  lemma SignalCore(k: K, q: nat)
    requires Core(k, k.Now() + 1) && k.Sane() && k.w.L(Event(q)).items != []
    ensures Core(k.RemoveFromEventList(q), k.Now() + 1)
    ensures Touches(k, k.RemoveFromEventList(q), k.w.L(Event(q)).items[0].task)
    ensures k.depth == 0 && NonePending(k) ==> NonePending(k.RemoveFromEventList(q))
    ensures var t := k.w.L(Event(q)).items[0].task;
            && t in k.w.tcb
            && k.RemoveFromEventList(q).w.tcb ==
                 k.w.tcb[t := if k.depth == 0 then Readied(k.B(t)) else k.B(t).(ev := On(Pending))]
  {
    hide World.L, World.Ordered, World.Linked, Home, Core;
    WaiterIsBlocked(k, q);
    var t := k.w.L(Event(q)).items[0].task;
    if k.depth == 0 {
      WakeFromEventCore(k, t, k.Now() + 1);
    } else {
      hide K.RemoveFromEventList;
      SignalledPending(k, q, t);
      BecameCore(k, k.RemoveFromEventList(q), t, k.B(t).(ev := On(Pending)));
    }
  }

  lemma DetachedPut(k: K, t: Task, id: ListId)
    requires k.Sane() && t in k.w.tcb && !id.DelayA? && !id.DelayB?
    ensures var r := k.Detached(t).Put(id, Gen(t));
            && r.tcb == k.w.tcb[t := k.B(t).(gen := On(id), ev := Nowhere)] && r.Linked()
            && (k.w.Ordered(DelayA) ==> r.Ordered(DelayA)) && (k.w.Ordered(DelayB) ==> r.Ordered(DelayB))
  {
    hide World.L, World.Ordered, World.Linked;
    Overwrite(k.w.tcb, t, k.B(t).(gen := Nowhere, ev := Nowhere), k.B(t).(gen := On(id), ev := Nowhere));
  }

  lemma CoreHome(k: K, t: Task)
    requires Core(k, k.Now() + 1) && t in k.w.tcb
    ensures Home(k, k.w.tcb[t], k.Now() + 1)
  {
  }

  lemma SuspendCore(k: K, t: Task)
    requires Core(k, k.Now() + 1) && k.Sane() && t in k.w.tcb && t != k.idle
    ensures Core(k.SuspendTask(t), k.Now() + 1) && Touches(k, k.SuspendTask(t), t)
    ensures NonePending(k) ==> NonePending(k.SuspendTask(t))
    ensures k.SuspendTask(t).w.tcb == k.w.tcb[t := k.B(t).(gen := On(Suspended), ev := Nowhere)]
  {
    hide World.L, World.Ordered, World.Linked, Core, Home, NonePending;
    DetachedPut(k, t, Suspended);
    CoreHome(k, t);
    BecameCore(k, k.SuspendTask(t), t, k.B(t).(gen := On(Suspended), ev := Nowhere));
  }

  lemma DeleteCore(k: K, t: Task)
    requires Core(k, k.Now() + 1) && k.Sane() && t in k.w.tcb && t != k.idle
    ensures Core(k.DeleteTask(t), k.Now() + 1) && Touches(k, k.DeleteTask(t), t)
    ensures NonePending(k) ==> NonePending(k.DeleteTask(t))
    ensures k.DeleteTask(t).w.tcb == k.w.tcb[t := k.B(t).(gen := On(Dead), ev := Nowhere)]
  {
    hide World.L, World.Ordered, World.Linked, Core, Home, NonePending;
    DetachedPut(k, t, Dead);
    CoreHome(k, t);
    BecameCore(k, k.DeleteTask(t), t, k.B(t).(gen := On(Dead), ev := Nowhere));
  }

  lemma ResumedReady(k: K, t: Task)
    requires k.Sane() && t in k.w.tcb && k.IsSuspended(t)
    ensures Became(k, k.(w := k.w.Take(Gen(t))).AddReady(t), t, Readied(k.B(t)))
  {
    hide World.L, World.Ordered, World.Linked, Became;
    AddedReady(k, k.w.Take(Gen(t)), t, k.B(t).(gen := Nowhere));
  }

  /** From the suspended to the ready lists. */
  lemma Resumed(k: K, t: Task)
    requires Core(k, k.Now() + 1) && k.Sane() && t in k.w.tcb && k.IsSuspended(t)
    ensures var r := k.(w := k.w.Take(Gen(t))).AddReady(t);
            && Core(r, k.Now() + 1) && r.w.tcb == k.w.tcb[t := Readied(k.B(t))]
            && r == k.(w := r.w, top := r.top) && (NonePending(k) ==> NonePending(r))
  {
    hide World.L, World.Ordered, World.Linked, Core, Home, NonePending, K.AddReady;
    ResumedReady(k, t);
    CoreHome(k, t);
    BecameCore(k, k.(w := k.w.Take(Gen(t))).AddReady(t), t, Readied(k.B(t)));
  }

  lemma ResumedPending(k: K, t: Task)
    requires k.Sane() && t in k.w.tcb && k.IsSuspended(t) && 0 < k.depth
    ensures Became(k, k.ResumeTaskFromIsr(t), t, k.B(t).(ev := On(Pending)))
  {
    hide World.L, World.Ordered, World.Linked;
  }

  lemma ResumeFromIsrCore(k: K, t: Task)
    requires Core(k, k.Now() + 1) && k.Sane() && t in k.w.tcb
    ensures Core(k.ResumeTaskFromIsr(t), k.Now() + 1) && Touches(k, k.ResumeTaskFromIsr(t), t)
    ensures k.depth == 0 && NonePending(k) ==> NonePending(k.ResumeTaskFromIsr(t))
    ensures k.ResumeTaskFromIsr(t).w.tcb ==
              if !k.IsSuspended(t) then k.w.tcb
              else k.w.tcb[t := if k.depth == 0 then Readied(k.B(t)) else k.B(t).(ev := On(Pending))]
  {
    hide World.L, World.Ordered, World.Linked, Core, Home, NonePending, K.AddReady;
    if k.IsSuspended(t) {
      CoreHome(k, t);
      if k.depth == 0 {
        Resumed(k, t);
      } else {
        ResumedPending(k, t);
        SuspendedIsFit(k, t);
        BecameCore(k, k.ResumeTaskFromIsr(t), t, k.B(t).(ev := On(Pending)));
      }
    }
  }

  lemma SuspendedIsFit(k: K, t: Task)
    requires Core(k, k.Now() + 1) && t in k.w.tcb && k.IsSuspended(t)
    ensures K.Fit(k.B(t).(ev := On(Pending))) && t != k.idle
  {
    assert Home(k, k.w.tcb[t], k.Now() + 1);
  }

  lemma CreatedReady(k: K, t: Task, priority: nat)
    requires k.Sane() && t !in k.w.tcb
    ensures Became(k, k.CreateTask(t, priority), t, Readied(K.NewBlock(priority)))
  {
    hide World.L, World.Ordered, World.Linked, Became, K.NewBlock;
    AddedReady(k, k.w.Update(t, K.NewBlock(priority)), t, K.NewBlock(priority));
  }

  /** A new task is ready, and both its priorities are the smaller of the one asked for and the
      highest there is. */
  lemma CreateCore(k: K, t: Task, priority: nat)
    requires Core(k, k.Now() + 1) && k.Sane() && t !in k.w.tcb
    ensures Core(k.CreateTask(t, priority), k.Now() + 1) && Touches(k, k.CreateTask(t, priority), t)
    ensures NonePending(k) ==> NonePending(k.CreateTask(t, priority))
    ensures k.CreateTask(t, priority).w.tcb == k.w.tcb[t := Readied(K.NewBlock(priority))]
    ensures var b := k.CreateTask(t, priority).w.tcb[t];
            b.prio == b.base == if priority < PRIORITIES then priority else PRIORITIES - 1
  {
    hide World.L, World.Ordered, World.Linked, K.CreateTask;
    CreatedReady(k, t, priority);
    CoreStep(k, k.CreateTask(t, priority), t, Readied(K.NewBlock(priority)), k.Now() + 1);
  }

  lemma DeadHaveNoEvent(k: K)
    requires Core(k, k.Now() + 1)
    ensures forall t :: t in k.w.tcb && k.B(t).gen == On(Dead) ==> k.B(t).ev == Nowhere
  {
    forall t | t in k.w.tcb && k.B(t).gen == On(Dead) ensures k.B(t).ev == Nowhere {
      assert Home(k, k.B(t), k.Now() + 1);
    }
  }

  lemma ReapForgets(k: K)
    requires k.Sane() && k.w.L(Dead).items != []
    requires forall t :: t in k.w.tcb && k.B(t).gen == On(Dead) ==> k.B(t).ev == Nowhere
    ensures var r, t := k.Reap(), k.w.L(Dead).items[0].task;
            && t in k.w.tcb && k.B(t).gen == On(Dead) && r.w.tcb == k.w.tcb - {t}
            && r.w.Linked() && r == k.(w := r.w) && (forall o :: k.w.Ordered(o) ==> r.w.Ordered(o))
  {
    hide World.Ordered, World.Linked;
    HeadIsOn(k.w, Dead);
    var t := k.w.L(Dead).items[0].task;
    assert k.w.tcb[t := k.B(t).(gen := Nowhere)] - {t} == k.w.tcb - {t};
  }

  lemma ReapCore(k: K)
    requires Core(k, k.Now() + 1) && k.Sane() && k.w.L(Dead).items != [] && k.current == k.idle
    requires forall t :: t in k.w.tcb && k.B(t).gen == On(Dead) ==> k.B(t).ev == Nowhere
    ensures Core(k.Reap(), k.Now() + 1) && Touches(k, k.Reap(), k.w.L(Dead).items[0].task)
    ensures NonePending(k) ==> NonePending(k.Reap())
    ensures k.Reap().w.tcb == k.w.tcb - {k.w.L(Dead).items[0].task}
  {
    hide World.L, World.Ordered, World.Linked, K.Reap;
    ReapForgets(k);
    var r := k.Reap();
    forall u | u in r.w.tcb ensures Home(r, r.w.tcb[u], k.Now() + 1) {
      assert Home(k, k.w.tcb[u], k.Now() + 1);
    }
  }

  /** A task's block once the task has been moved to the ready list of priority p. */
  function Moved(b: Tcb, p: nat): Tcb
    requires p < PRIORITIES
  {
    Readied(b.(rank := PRIORITIES - p, prio := p))
  }

  lemma ReprioritisedReady(k: K, t: Task, p: nat)
    requires k.Sane() && t in k.w.tcb && p < PRIORITIES && k.B(t).ev == Nowhere
    ensures Became(k, k.Reprioritised(t, p), t, Moved(k.B(t), p))
  {
    hide World.L, World.Ordered, World.Linked, Became;
    var b := k.B(t).(rank := PRIORITIES - p, prio := p);
    AddedReady(k, k.w.Rebased(t, b), t, b.(gen := Nowhere));
  }

  lemma ReprioritiseCore(k: K, t: Task, p: nat)
    requires Core(k, k.Now() + 1) && k.Sane() && t in k.w.tcb && p < PRIORITIES && k.B(t).ev == Nowhere
    ensures Core(k.Reprioritised(t, p), k.Now() + 1) && Touches(k, k.Reprioritised(t, p), t)
    ensures NonePending(k) ==> NonePending(k.Reprioritised(t, p))
    ensures Became(k, k.Reprioritised(t, p), t, Moved(k.B(t), p))
  {
    hide World.L, World.Ordered, World.Linked, Core, Home, NonePending, K.Reprioritised, Became;
    ReprioritisedReady(k, t, p);
    CoreHome(k, t);
    BecameCore(k, k.Reprioritised(t, p), t, Moved(k.B(t), p));
  }

  lemma InheritedWhileBlocked(k: K, h: Task, p: nat)
    requires k.Sane() && h in k.w.tcb && k.B(h).prio < k.B(k.current).prio == p && !k.B(h).gen.id.Ready?
    ensures Became(k, k.Inherit(h), h, k.B(h).(rank := PRIORITIES - p, prio := p))
  {
    hide World.L, World.Linked, World.Ordered;
  }

  lemma InheritCore(k: K, h: Task)
    requires Core(k, k.Now() + 1) && k.Sane() && h in k.w.tcb
    ensures Core(k.Inherit(h), k.Now() + 1) && Touches(k, k.Inherit(h), h)
    ensures NonePending(k) ==> NonePending(k.Inherit(h))
    ensures k.Inherit(h).w.tcb.Keys == k.w.tcb.Keys && k.Inherit(h).B(h).base == k.B(h).base
    ensures k.Inherit(h).B(h).prio == if k.B(h).prio < k.B(k.current).prio then k.B(k.current).prio else k.B(h).prio
    ensures k.Inherit(h).B(h).ev == k.B(h).ev
  {
    hide World.L, World.Ordered, World.Linked, NonePending, K.Reprioritised;
    var p := k.B(k.current).prio;
    if k.B(h).prio < p {
      CoreHome(k, h);
      if k.B(h).gen.id.Ready? {
        ReprioritiseCore(k, h, p);
      } else {
        InheritBlockedCore(k, h);
      }
    }
  }

  lemma InheritBlockedCore(k: K, h: Task)
    requires Core(k, k.Now() + 1) && k.Sane() && h in k.w.tcb && k.B(h).prio < k.B(k.current).prio
    requires !k.B(h).gen.id.Ready?
    ensures Core(k.Inherit(h), k.Now() + 1) && Touches(k, k.Inherit(h), h)
    ensures NonePending(k) ==> NonePending(k.Inherit(h))
    ensures var p := k.B(k.current).prio; k.Inherit(h).w.tcb == k.w.tcb[h := k.B(h).(rank := PRIORITIES - p, prio := p)]
  {
    hide World.L, World.Ordered, World.Linked, K.Inherit;
    var p := k.B(k.current).prio;
    InheritedWhileBlocked(k, h, p);
    CoreHome(k, h);
    CoreStep(k, k.Inherit(h), h, k.B(h).(rank := PRIORITIES - p, prio := p), k.Now() + 1);
  }

  lemma DisinheritCore(k: K, h: Task)
    requires Core(k, k.Now() + 1) && k.Sane() && Enabled(k, Disinherit(h))
    ensures Core(k.Disinherit(h), k.Now() + 1) && Touches(k, k.Disinherit(h), h)
    ensures NonePending(k) ==> NonePending(k.Disinherit(h))
  {
    hide World.L, World.Ordered, World.Linked, NonePending, K.Reprioritised;
    if k.B(h).prio != k.B(h).base {
      CoreHome(k, h);
      ReprioritiseCore(k, h, k.B(h).base);
    }
  }

  /** A task that becomes ready goes behind its equals. */
  lemma ReadyGoesLast(k: K, t: Task)
    requires k.w.Linked() && t in k.w.tcb && k.B(t).gen == Nowhere
    ensures var ready, r := Ready(k.B(t).prio), k.AddReady(t);
            && k.w.L(ready).cursor <= |k.w.L(ready).items| && r.w.L(ready).cursor <= |r.w.L(ready).items|
            && r.w.L(ready).Turn() == k.w.L(ready).Turn() + [Gen(t)]
            && forall o :: o != ready ==> r.w.L(o) == k.w.L(o)
  {
    hide World.Linked, World.Ordered, World.L;
    var ready := Ready(k.B(t).prio);
    assert k.w.Put(ready, Gen(t)).Linked();
    InsertEndAppends(k.w.L(ready), Gen(t));
  }

  // ----- choosing the running task ----------------------------------------------------------------

  lemma {:induction false} HighestNonEmpty(k: K, p: nat, q: nat)
    requires q <= p && k.w.L(Ready(q)).items != []
    ensures q <= k.Highest(p) <= p && k.w.L(Ready(k.Highest(p))).items != []
    ensures forall o :: k.Highest(p) < o <= p ==> k.w.L(Ready(o)).items == []
    decreases p
  {
    if k.w.L(Ready(p)).items == [] {
      HighestNonEmpty(k, p - 1, q);
    }
  }

  /** The idle task is always ready, so the downward search of vTaskSwitchContext stops. */
  lemma SearchStops(k: K)
    requires Core(k, k.Now() + 1)
    ensures k.Highest(k.top) <= k.top && k.w.L(Ready(k.Highest(k.top))).items != []
    ensures forall o :: k.Highest(k.top) < o <= k.top ==> k.w.L(Ready(o)).items == []
  {
    var b := k.w.tcb[k.idle];
    assert Home(k, b, k.Now() + 1);
    OnList(k.w, Gen(k.idle), b.gen.id);
    HighestNonEmpty(k, k.top, b.gen.id.priority);
  }

  /** Between ticks vTaskSwitchContext picks a task of the highest priority that is ready, the
      one whose turn it is among its equals, and sends it to the back of their queue. */
  lemma SwitchPicksHighest(k: K)
    requires Inv(k) && k.Sane() && k.depth == 0
    ensures k.w.L(Ready(k.Highest(k.top))).items != []
    ensures var r := k.Switch();
            && r.current in r.w.tcb && r.B(r.current).gen == On(Ready(r.B(r.current).prio)) && r.B(r.current).prio == r.top
            && (forall t :: t in r.w.tcb && r.B(t).gen.id.Ready? ==> r.B(t).prio <= r.top)
            && k.w.L(Ready(r.top)).cursor <= |k.w.L(Ready(r.top)).items|
            && Gen(r.current) == k.w.L(Ready(r.top)).Turn()[0]
            && r.w.L(Ready(r.top)).Turn() == k.w.L(Ready(r.top)).Turn()[1..] + [Gen(r.current)]
  {
    SearchStops(k);
    var r := k.Switch();
    var ring := k.w.L(Ready(r.top));
    assert Seen(Ready(r.top));
    NextRotates(ring);
    var i := ring.Next().Here();
    assert i in ring.items;
    assert k.w.IsOn(i, Ready(r.top));
    assert Home(k, k.w.tcb[i.task], k.Now() + 1);
    forall t | t in k.w.tcb && k.B(t).gen.id.Ready? ensures k.B(t).prio <= r.top {
      assert Home(k, k.w.tcb[t], k.Now() + 1);
      OnList(k.w, Gen(t), Ready(k.B(t).prio));
    }
  }

  // ----- steps and runs -------------------------------------------------------------------------

  lemma InvSane(k: K)
    requires Inv(k)
    ensures k.Sane()
  {
    forall t | t in k.w.tcb ensures K.Fit(k.B(t)) {
      assert Home(k, k.w.tcb[t], k.Now() + 1);
    }
  }

  /** What the running task's blocking steps need besides being enabled. */
  lemma BlockerIsFree(k: K)
    requires Inv(k) && k.Sane() && MayBlock(k)
    ensures k.B(k.current).ev == Nowhere
  {
    assert Home(k, k.B(k.current), k.Now() + 1);
  }

  /** A tick interrupt: it wakes exactly the tasks whose time has come, or is only counted. */
  lemma TickInv(k: K)
    requires Inv(k) && k.Sane()
    ensures var r := k.(interrupts := k.interrupts + 1).IncrementTick();
            && Inv(r) && r.interrupts == k.interrupts + 1
            && (if k.depth == 0 then r.Now() == k.Now() + 1 && r.w.tcb == WokenBy(k.w.tcb, r.Now())
                else r.Now() == k.Now() && r.w == k.w)
  {
    hide World.L, World.Ordered, World.Linked, Home, WokenBy, K.Fit, K.CheckDelayed;
    var k1 := k.(interrupts := k.interrupts + 1);
    SameTasks(k, k1, k.Now() + 1);
    if k.depth == 0 {
      TickExact(k1);
      WokenNotPending(k.w.tcb, k.Now() + 1);
    } else {
      SameTasks(k, k1.IncrementTick(), k.Now() + 1);
    }
  }

  lemma ResumeSchedulerInv(k: K)
    requires Inv(k) && k.Sane() && 0 < k.depth
    ensures Inv(k.ResumeAll()) && k.Now() <= k.ResumeAll().Now() && k.ResumeAll().interrupts == k.interrupts
  {
    hide World.L, World.Ordered, World.Linked, Home, WokenBy, Drained;
    if k.depth == 1 {
      ResumeAllExact(k);
    } else {
      SameTasks(k, k.ResumeAll(), k.Now() + 1);
    }
  }

  /** A switch leaves every task where it is and takes uxTopReadyPriority down to the highest. */
  lemma SwitchHomes(k: K)
    requires Inv(k) && k.Sane() && k.depth == 0 && k.w.L(Ready(k.Highest(k.top))).items != []
    ensures Homes(k.Switch(), k.Now() + 1)
  {
    hide World.L, World.Linked, World.Ordered;
    SwitchPicksHighest(k);
    SearchStops(k);
    var r := k.Switch();
    forall t | t in r.w.tcb ensures Home(r, r.w.tcb[t], k.Now() + 1) {
      assert Home(k, k.w.tcb[t], k.Now() + 1);
      if r.w.tcb[t].gen.id.Ready? {
        assert r.B(t).prio <= r.top;
      }
    }
  }

  lemma SwitchInv(k: K)
    requires Inv(k) && k.Sane() && k.w.L(Ready(k.Highest(k.top))).items != []
    ensures Inv(k.Switch()) && k.Switch().Now() == k.Now() && k.Switch().interrupts == k.interrupts
  {
    hide World.L, World.Linked, World.Ordered, Home, Homes, K.Highest;
    if k.depth == 0 {
      SwitchHomes(k);
    } else {
      SameTasks(k, k.Switch(), k.Now() + 1);
    }
  }
}
