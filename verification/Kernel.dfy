/** The scheduler of tasks.c as a state machine over the kernel's lists.  Every operation is one
    critical section of the source. */
module Kernel {
  import opened Bytes
  import opened Rings
  import opened Worlds
  import opened Timing

  /** configMAX_PRIORITIES. */
  const PRIORITIES: nat := 5

  /** The first list at or below p that holds a ready task, or 0. */
  function HighestReady(w: World, p: nat): nat {
    if p == 0 || w.L(Ready(p)).items != [] then p else HighestReady(w, p - 1)
  }

  /** Some pending task has at least this priority. */
  predicate Outranked(w: World, prio: nat) {
    exists i :: i in w.L(Pending).items && i.task in w.tcb && prio <= w.tcb[i.task].prio
  }

  /** The file-level variables of tasks.c, and history that the source does not keep:
      `interrupts` counts the tick interrupts taken and `lost` the times that uxMissedTicks
      wrapped.  `overflows` is xNumOfOverflows before it is cut to 32 bits. */
  datatype K = K(
    w: World, idle: Task, current: Task, top: nat,
    tick: nat, missed: nat, depth: nat, missedYield: bool, overflows: nat, swapped: bool,
    interrupts: nat, lost: nat)
  {
    /** The absolute number of ticks processed. */
    function Now(): nat { Absolute(overflows, tick) }

    /** pxDelayedTaskList. */
    function Cur(): ListId { if swapped then DelayB else DelayA }

    /** pxOverflowDelayedTaskList. */
    function Ovf(): ListId { if swapped then DelayA else DelayB }

    function B(t: Task): Tcb
      requires t in w.tcb
    {
      w.tcb[t]
    }

    /** What operations need in order to be defined. */
    ghost predicate Sane() {
      && w.Linked() && tick < WORD && current in w.tcb
      && forall t :: t in w.tcb ==> Fit(B(t))
    }

    /** A task's generic item is always on a list, and its event item only on event lists. */
    static predicate Fit(b: Tcb) {
      && b.prio < PRIORITIES && b.base < PRIORITIES
      && b.gen.On? && !b.gen.id.Pending? && !b.gen.id.Event?
      && (b.ev.On? ==> b.ev.id.Pending? || b.ev.id.Event?)
    }

    // ----- building blocks ------------------------------------------------------------------

    /** prvAddTaskToReadyQueue. */
    function AddReady(t: Task): (r: K)
      requires w.Linked() && t in w.tcb && B(t).gen == Nowhere
    {
      this.(w := w.Put(Ready(B(t).prio), Gen(t)), top := if top < B(t).prio then B(t).prio else top)
    }

    /** Take a task's generic item off its list, and its event item too if it is on one. */
    function Detached(t: Task): (r: World)
      requires w.Linked() && t in w.tcb && B(t).gen.On?
      ensures r.Linked() && r.tcb == w.tcb[t := B(t).(gen := Nowhere, ev := Nowhere)]
      ensures forall o :: w.Ordered(o) ==> r.Ordered(o)
    {
      var r := w.Take(Gen(t));
      if B(t).ev.On? then r.Take(Ev(t)) else r
    }

    /** From a delayed list to the ready lists. */
    function Wake(t: Task): K
      requires Sane() && t in w.tcb
    {
      this.(w := Detached(t)).AddReady(t)
    }

    /** From an event or the pending list to the ready lists. */
    function WakeFromEvent(t: Task): K
      requires Sane() && t in w.tcb && B(t).ev.On?
    {
      this.(w := w.Take(Ev(t)).Take(Gen(t))).AddReady(t)
    }

    /** The running task's block once it waits for wake time v. */
    function Blocked(b: Tcb, v: nat): Tcb {
      b.(gen := On(if v < tick then Ovf() else Cur()), wake := v,
         due := Absolute(if v < tick then overflows + 1 else overflows, v))
    }

    /** Move the running task's generic item to the delayed list that fits the wake time v. */
    function BlockUntil(v: nat): K
      requires w.Linked() && current in w.tcb && B(current).gen.On?
    {
      var b := Blocked(B(current), v);
      this.(w := w.Refiled(current, b))
    }

    // ----- the tick -------------------------------------------------------------------------

    /** prvCheckDelayedTasks. */
    function CheckDelayed(): K
      requires Sane()
      decreases |w.L(Cur()).items|
    {
      var items := w.L(Cur()).items;
      if items == [] || tick < w.V(items[0]) then this
      else
        HeadIsOn(w, Cur());
        WakeShortens(this, items[0].task);
        Wake(items[0].task).CheckDelayed()
    }

    /** vTaskIncrementTick while the scheduler runs, before the delayed tasks are checked. */
    function Advanced(): K {
      if tick + 1 < WORD then this.(tick := tick + 1)
      else this.(tick := 0, swapped := !swapped, overflows := overflows + 1)
    }

    /** vTaskIncrementTick. */
    function IncrementTick(): K
      requires Sane()
    {
      if depth == 0 then Advanced().CheckDelayed()
      else if missed + 1 < WORD then this.(missed := missed + 1)
      else this.(missed := 0, lost := lost + 1)
    }

    // ----- suspending the scheduler -----------------------------------------------------------

    /** Move every pending task to its ready list. */
    function Drain(): K
      requires Sane()
      decreases |w.L(Pending).items|
    {
      var items := w.L(Pending).items;
      if items == [] then this
      else
        HeadIsOn(w, Pending);
        WakeFromEventShortens(this, items[0].task);
        WakeFromEvent(items[0].task).Drain()
    }

    /** Process the ticks that were missed. */
    function Replay(): K
      requires Sane()
      decreases missed
    {
      if missed == 0 then this
      else
        CheckDelayedKeeps(Advanced());
        Advanced().CheckDelayed().(missed := missed - 1).Replay()
    }

    /** xTaskResumeAll; the yield it asks for is a later step. */
    function ResumeAll(): K
      requires Sane() && 0 < depth
    {
      var k := this.(depth := depth - 1);
      if 0 < k.depth then k
      else
        DrainKeeps(k);
        k.Drain().Replay().(missedYield := false)
    }

    /** Some pending task's priority is no lower than the running task's. */
    predicate PendingOutranks()
      requires current in w.tcb
    {
      Outranked(w, w.tcb[current].prio)
    }

    /** Whether xTaskResumeAll asks for a yield when it ends the suspension. */
    predicate MustYield()
      requires current in w.tcb
    {
      missedYield || 0 < missed || PendingOutranks()
    }

    // ----- choosing the running task --------------------------------------------------------

    /** The downward search of vTaskSwitchContext. */
    function Highest(p: nat): nat {
      HighestReady(w, p)
    }

    /** vTaskSwitchContext. */
    function Switch(): K
      requires Sane() && w.L(Ready(Highest(top))).items != []
    {
      if 0 < depth then this.(missedYield := true)
      else
        var p := Highest(top);
        var r := w.Turn(Ready(p));
        this.(w := r, top := p, current := r.L(Ready(p)).Here().task)
    }

    // ----- blocking and waking ----------------------------------------------------------------

    /** vTaskDelay between suspending and resuming the scheduler. */
    function Delay(ticks: nat): K
      requires Sane()
    {
      BlockUntil((tick + ticks) % WORD)
    }

    /** vTaskDelayUntil between suspending and resuming the scheduler. */
    function DelayUntil(previous: nat, increment: nat): K
      requires Sane()
    {
      if ShouldDelay(previous, increment, tick) then BlockUntil((previous + increment) % WORD) else this
    }

    /** vTaskPlaceOnEventList. */
    function PlaceOnEventList(q: nat, ticks: nat): K
      requires Sane() && B(current).ev == Nowhere
    {
      var k := this.(w := w.PutSorted(Event(q), Ev(current)));
      if ticks == MAX_DELAY then k.(w := k.w.Take(Gen(current)).Put(Suspended, Gen(current)))
      else k.BlockUntil((tick + ticks) % WORD)
    }

    /** xTaskRemoveFromEventList. */
    function RemoveFromEventList(q: nat): K
      requires Sane() && w.L(Event(q)).items != []
    {
      HeadIsOn(w, Event(q));
      HeadIsEvent(this, q);
      var t := w.L(Event(q)).items[0].task;
      if depth == 0 then WakeFromEvent(t) else this.(w := w.Take(Ev(t)).Put(Pending, Ev(t)))
    }

    /** vTaskSuspend. */
    function SuspendTask(t: Task): K
      requires Sane() && t in w.tcb
    {
      this.(w := Detached(t).Put(Suspended, Gen(t)))
    }

    /** xTaskIsTaskSuspended. */
    predicate IsSuspended(t: Task)
      requires t in w.tcb
    {
      B(t).gen == On(Suspended) && B(t).ev == Nowhere
    }

    /** vTaskResume. */
    function ResumeTask(t: Task): K
      requires Sane() && t in w.tcb
    {
      if t != current && IsSuspended(t) then this.(w := w.Take(Gen(t))).AddReady(t) else this
    }

    /** xTaskResumeFromISR. */
    function ResumeTaskFromIsr(t: Task): K
      requires Sane() && t in w.tcb
    {
      if !IsSuspended(t) then this
      else if depth == 0 then this.(w := w.Take(Gen(t))).AddReady(t)
      else this.(w := w.Put(Pending, Ev(t)))
    }

    // ----- creating and deleting --------------------------------------------------------------

    /** prvInitialiseTCBVariables, which cuts the priority to the highest there is. */
    static function NewBlock(priority: nat): (b: Tcb)
      ensures b.gen == Nowhere && b.ev == Nowhere
    {
      var p := if PRIORITIES <= priority then PRIORITIES - 1 else priority;
      Tcb(p, p, Nowhere, 0, Nowhere, PRIORITIES - p, 0)
    }

    /** xTaskCreate with the scheduler running. */
    function CreateTask(t: Task, priority: nat): K
      requires Sane() && t !in w.tcb
    {
      this.(w := w.Update(t, NewBlock(priority))).AddReady(t)
    }

    /** vTaskDelete. */
    function DeleteTask(t: Task): K
      requires Sane() && t in w.tcb
    {
      this.(w := Detached(t).Put(Dead, Gen(t)))
    }

    /** prvCheckTasksWaitingTermination, which the idle task runs. */
    function Reap(): K
      requires Sane() && w.L(Dead).items != []
      requires forall t :: t in w.tcb && B(t).gen == On(Dead) ==> B(t).ev == Nowhere
    {
      HeadIsOn(w, Dead);
      var t := w.L(Dead).items[0].task;
      this.(w := w.Take(Gen(t)).Forget(t))
    }

    // ----- priority inheritance ---------------------------------------------------------------

    /** Take a task off its list, change its priority and add it to the ready lists. */
    function Reprioritised(t: Task, p: nat): K
      requires Sane() && t in w.tcb && p < PRIORITIES
    {
      var b := B(t).(rank := PRIORITIES - p, prio := p);
      this.(w := w.Rebased(t, b)).AddReady(t)
    }

    /** vTaskPriorityInherit. */
    function Inherit(holder: Task): K
      requires Sane() && holder in w.tcb
    {
      var p := B(current).prio;
      if p <= B(holder).prio then this
      else if B(holder).gen == On(Ready(B(holder).prio)) then
        Reprioritised(holder, p)
      else
        this.(w := w.Update(holder, B(holder).(rank := PRIORITIES - p, prio := p)))
    }

    /** vTaskPriorityDisinherit. */
    function Disinherit(holder: Task): K
      requires Sane() && holder in w.tcb
    {
      var p := B(holder).base;
      if B(holder).prio == p then this
      else Reprioritised(holder, p)
    }
  }

  lemma HeadIsEvent(k: K, q: nat)
    requires k.Sane() && k.w.L(Event(q)).items != []
    ensures var i := k.w.L(Event(q)).items[0]; k.w.IsOn(i, Event(q)) && i == Ev(i.task) && k.B(i.task).ev == On(Event(q))
  {
    HeadIsOn(k.w, Event(q));
  }

  lemma WakeShortens(k: K, t: Task)
    requires k.Sane() && t in k.w.tcb && k.B(t).gen == On(k.Cur())
    ensures k.Wake(t).Sane()
    ensures |k.Wake(t).w.L(k.Cur()).items| < |k.w.L(k.Cur()).items|
  {
  }

  lemma WakeFromEventShortens(k: K, t: Task)
    requires k.Sane() && t in k.w.tcb && k.B(t).ev == On(Pending)
    ensures k.WakeFromEvent(t).Sane()
    ensures |k.WakeFromEvent(t).w.L(Pending).items| < |k.w.L(Pending).items|
  {
  }

  lemma {:induction false} CheckDelayedKeeps(k: K)
    requires k.Sane()
    ensures k.CheckDelayed().Sane()
    ensures var r := k.CheckDelayed(); r == k.(w := r.w, top := r.top)
    decreases |k.w.L(k.Cur()).items|
  {
    var items := k.w.L(k.Cur()).items;
    if items != [] && k.w.V(items[0]) <= k.tick {
      HeadIsOn(k.w, k.Cur());
      WakeShortens(k, items[0].task);
      CheckDelayedKeeps(k.Wake(items[0].task));
    }
  }

  lemma {:induction false} DrainKeeps(k: K)
    requires k.Sane()
    ensures k.Drain().Sane()
    ensures var r := k.Drain(); r == k.(w := r.w, top := r.top)
    decreases |k.w.L(Pending).items|
  {
    var items := k.w.L(Pending).items;
    if items != [] {
      HeadIsOn(k.w, Pending);
      WakeFromEventShortens(k, items[0].task);
      DrainKeeps(k.WakeFromEvent(items[0].task));
    }
  }

  /** Moving the head of the pending list away, the rest of the list still counts. */
  lemma OutrankedByHeadOrRest(k: K)
    requires k.Sane() && k.w.L(Pending).items != []
    ensures var h := k.w.L(Pending).items[0].task;
            && h in k.w.tcb && k.B(h).ev == On(Pending) && k.WakeFromEvent(h).Sane()
            && k.WakeFromEvent(h).current == k.current
            && (forall t :: t in k.w.tcb ==> t in k.WakeFromEvent(h).w.tcb && k.WakeFromEvent(h).B(t).prio == k.B(t).prio)
            && (k.PendingOutranks() <==> k.B(k.current).prio <= k.B(h).prio || k.WakeFromEvent(h).PendingOutranks())
  {
    HeadIsOn(k.w, Pending);
    var h := k.w.L(Pending).items[0];
    WakeFromEventShortens(k, h.task);
    var r := k.WakeFromEvent(h.task);
    assert Seen(Pending);
    assert r.w.L(Pending).items == Without(k.w.L(Pending).items, h);
    WithoutMembers(k.w.L(Pending).items, h);
    assert h in k.w.L(Pending).items;
    assert forall t :: t in k.w.tcb ==> t in r.w.tcb && r.B(t).prio == k.B(t).prio;
  }
}
