/** What every step of the scheduler keeps. */
module KernelInvariant {
  import opened Bytes
  import opened Worlds
  import opened Timing
  import opened Kernel

  /** A delayed task's wake time lies no earlier than `soon`, in the current turn of the tick
      counter on the one delayed list and in the next turn on the other. */
  ghost predicate Timed(k: K, b: Tcb, turn: nat, soon: nat) {
    b.wake < WORD && b.due == Absolute(turn, b.wake) && soon <= b.due
  }

  /** Where a task's generic item is tells what the task is doing. */
  ghost predicate Home(k: K, b: Tcb, soon: nat) {
    && K.Fit(b)
    && match b.gen.id
       case Ready(p) => p == b.prio && p <= k.top && b.ev == Nowhere
       case DelayA => Timed(k, b, if k.swapped then k.overflows + 1 else k.overflows, soon)
       case DelayB => Timed(k, b, if k.swapped then k.overflows else k.overflows + 1, soon)
       case Dead => b.ev == Nowhere
       case _ => true
  }

  ghost predicate Homes(k: K, soon: nat) {
    && (forall t :: t in k.w.tcb ==> Home(k, k.w.tcb[t], soon))
    && k.top < PRIORITIES && k.current in k.w.tcb && k.tick < WORD
    && k.idle in k.w.tcb && k.w.tcb[k.idle].gen.id.Ready?
  }

  /** The invariant but for what changes while missed ticks and wake-ups are replayed. */
  ghost predicate Core(k: K, soon: nat) {
    k.w.Linked() && k.w.Ordered(DelayA) && k.w.Ordered(DelayB) && Homes(k, soon)
  }

  ghost predicate NonePending(k: K) {
    forall t :: t in k.w.tcb ==> k.w.tcb[t].ev != On(Pending)
  }

  ghost predicate Inv(k: K) {
    && Core(k, k.Now() + 1)
    && k.missed < WORD && k.interrupts == Absolute(k.lost, k.Now() + k.missed)
    && (k.depth == 0 ==> k.missed == 0 && NonePending(k))
  }

  lemma CoreSane(k: K, soon: nat)
    requires Core(k, soon)
    ensures k.Sane()
  {
  }

  /** A step that touches one task keeps the invariant if it does right by that task. */
  lemma CoreStep(k: K, r: K, t: Task, b: Tcb, soon: nat)
    requires Core(k, soon)
    requires r.w.tcb == k.w.tcb[t := b] && Home(r, b, soon)
    requires r.w.Linked() && r.w.Ordered(DelayA) && r.w.Ordered(DelayB)
    requires r.tick == k.tick && r.overflows == k.overflows && r.swapped == k.swapped
    requires r.idle == k.idle && r.current in r.w.tcb && k.top <= r.top < PRIORITIES
    requires t == k.idle ==> b.gen.id.Ready?
    ensures Core(r, soon)
  {
    forall u | u in r.w.tcb ensures Home(r, r.w.tcb[u], soon) {
      if u != t {
        assert Home(k, k.w.tcb[u], soon);
      }
    }
  }

  /** The task part of the state and the time are all that Core looks at. */
  lemma SameTasks(k: K, r: K, soon: nat)
    requires Core(k, soon) && r.w == k.w && r.idle == k.idle && r.current == k.current && r.top == k.top
    requires r.tick == k.tick && r.overflows == k.overflows && r.swapped == k.swapped
    ensures Core(r, soon) && r.Sane() && r.Now() == k.Now() && (NonePending(k) ==> NonePending(r))
  {
    forall t | t in k.w.tcb ensures Home(r, k.w.tcb[t], soon) {
      assert Home(k, k.w.tcb[t], soon);
    }
  }

  // ----- the tick -----------------------------------------------------------------------------

  predicate Delayed(b: Tcb) {
    b.gen == On(DelayA) || b.gen == On(DelayB)
  }

  /** A task made ready at once, off any event list. */
  function Readied(b: Tcb): Tcb {
    b.(gen := On(Ready(b.prio)), ev := Nowhere)
  }

  /** Every delayed task whose absolute wake time has come by `now` is made ready; nothing else
      happens. */
  function WokenBy(tcb: map<Task, Tcb>, now: nat): map<Task, Tcb> {
    map t | t in tcb :: if Delayed(tcb[t]) && tcb[t].due <= now then Readied(tcb[t]) else tcb[t]
  }

  lemma WokenOne(tcb: map<Task, Tcb>, now: nat, t: Task)
    requires t in tcb && Delayed(tcb[t]) && tcb[t].due <= now
    ensures WokenBy(tcb[t := Readied(tcb[t])], now) == WokenBy(tcb, now)
  {
  }

  lemma WokenTwice(tcb: map<Task, Tcb>, now: nat, later: nat)
    requires now <= later
    ensures WokenBy(WokenBy(tcb, now), later) == WokenBy(tcb, later)
  {
  }

  lemma WakeCore(k: K, t: Task)
    requires Core(k, k.Now()) && t in k.w.tcb && k.B(t).gen == On(k.Cur())
    ensures k.Wake(t).w.tcb == k.w.tcb[t := Readied(k.B(t))]
    ensures Core(k.Wake(t), k.Now())
    ensures k.Wake(t).Now() == k.Now() && k.Wake(t).Cur() == k.Cur()
  {
    hide World.L, World.Ordered, World.Linked;
    CoreStep(k, k.Wake(t), t, Readied(k.B(t)), k.Now());
  }

  /** The check may stop when the head of the list is not due: nothing behind it is. */
  lemma NoneDue(k: K)
    requires Core(k, k.Now())
    requires k.w.L(k.Cur()).items == [] || k.tick < k.w.V(k.w.L(k.Cur()).items[0])
    ensures Core(k, k.Now() + 1) && WokenBy(k.w.tcb, k.Now()) == k.w.tcb
  {
    forall t | t in k.w.tcb && k.B(t).gen == On(k.Cur()) ensures k.Now() < k.B(t).due {
      HeadIsLeast(k.w, Gen(t), k.Cur());
      assert Home(k, k.B(t), k.Now());
    }
    forall t | t in k.w.tcb ensures Home(k, k.w.tcb[t], k.Now() + 1) {
      assert Home(k, k.w.tcb[t], k.Now());
    }
  }

  lemma HeadIsDue(k: K)
    requires Core(k, k.Now()) && k.w.L(k.Cur()).items != [] && k.w.V(k.w.L(k.Cur()).items[0]) <= k.tick
    ensures var h := k.w.L(k.Cur()).items[0].task;
            h in k.w.tcb && k.B(h).gen == On(k.Cur()) && k.B(h).due == k.Now()
  {
    HeadIsOn(k.w, k.Cur());
    assert Home(k, k.B(k.w.L(k.Cur()).items[0].task), k.Now());
  }

  /** Checking the delayed tasks wakes exactly those whose tick has come. */
  lemma {:induction false} CheckDelayedExact(k: K)
    requires Core(k, k.Now()) && k.Sane()
    ensures Core(k.CheckDelayed(), k.Now() + 1)
    ensures k.CheckDelayed().w.tcb == WokenBy(k.w.tcb, k.Now())
    decreases |k.w.L(k.Cur()).items|
  {
    hide WokenBy, Readied, World.L, World.V, Home, World.Linked, World.Ordered;
    var items := k.w.L(k.Cur()).items;
    if items == [] || k.tick < k.w.V(items[0]) {
      NoneDue(k);
    } else {
      var h := items[0].task;
      HeadIsDue(k);
      WakeShortens(k, h);
      WakeCore(k, h);
      WokenOne(k.w.tcb, k.Now(), h);
      CheckDelayedExact(k.Wake(h));
    }
  }

  /** When the tick count wraps, the delayed list that is swapped out is empty. */
  lemma SwappedOutIsEmpty(k: K)
    requires Core(k, k.Now() + 1) && k.tick + 1 == WORD
    ensures k.w.L(k.Cur()).items == []
    ensures forall t :: t in k.w.tcb ==> k.w.tcb[t].gen != On(k.Cur())
  {
    forall t | t in k.w.tcb ensures k.w.tcb[t].gen != On(k.Cur()) {
      assert Home(k, k.w.tcb[t], k.Now() + 1);
    }
    forall i ensures !k.w.IsOn(i, k.Cur()) {
      assert i.task in k.w.tcb ==> Home(k, k.w.tcb[i.task], k.Now() + 1);
    }
    EmptyList(k.w, k.Cur());
  }

  lemma AdvancedCore(k: K)
    requires Core(k, k.Now() + 1)
    ensures k.Advanced().Now() == k.Now() + 1 && Core(k.Advanced(), k.Now() + 1)
  {
    var r := k.Advanced();
    if k.tick + 1 == WORD {
      SwappedOutIsEmpty(k);
    }
    forall t | t in r.w.tcb ensures Home(r, r.w.tcb[t], k.Now() + 1) {
      assert Home(k, k.w.tcb[t], k.Now() + 1);
    }
  }

  /** One processed tick. */
  lemma TickExact(k: K)
    requires Core(k, k.Now() + 1) && k.Sane()
    ensures k.Advanced().Sane()
    ensures var r := k.Advanced().CheckDelayed();
            && r.Now() == k.Now() + 1 && Core(r, r.Now() + 1)
            && r.w.tcb == WokenBy(k.w.tcb, r.Now())
            && r == k.Advanced().(w := r.w, top := r.top)
  {
    AdvancedCore(k);
    CoreSane(k.Advanced(), k.Now() + 1);
    CheckDelayedExact(k.Advanced());
    CheckDelayedKeeps(k.Advanced());
  }

  // ----- suspending the scheduler -------------------------------------------------------------

  /** Replaying the missed ticks is as good as having taken them one by one. */
  lemma {:induction false} ReplayExact(k: K)
    requires Core(k, k.Now() + 1) && k.Sane()
    ensures var r := k.Replay();
            && r.missed == 0 && r.Now() == k.Now() + k.missed && Core(r, r.Now() + 1)
            && r.w.tcb == WokenBy(k.w.tcb, r.Now())
            && r == k.(w := r.w, top := r.top, tick := r.tick, overflows := r.overflows, swapped := r.swapped, missed := 0)
    decreases k.missed
  {
    hide WokenBy, Readied, World.L, World.V, Home, World.Linked, World.Ordered, NonePending, K.CheckDelayed,
      K.Cur, K.Sane, Core;
    if k.missed == 0 {
      NothingOverdue(k);
    } else {
      TickExact(k);
      var m := k.Advanced().CheckDelayed();
      SameTasks(m, m.(missed := k.missed - 1), m.Now() + 1);
      ReplayExact(m.(missed := k.missed - 1));
      WokenTwice(k.w.tcb, m.Now(), k.Now() + k.missed);
    }
  }

  lemma NothingOverdue(k: K)
    requires Core(k, k.Now() + 1)
    ensures WokenBy(k.w.tcb, k.Now()) == k.w.tcb
  {
    forall t | t in k.w.tcb ensures Delayed(k.w.tcb[t]) ==> k.Now() < k.w.tcb[t].due {
      assert Home(k, k.w.tcb[t], k.Now() + 1);
    }
  }

  /** Every pending task is made ready. */
  function Drained(tcb: map<Task, Tcb>): map<Task, Tcb> {
    map t | t in tcb :: if tcb[t].ev == On(Pending) then Readied(tcb[t]) else tcb[t]
  }

  lemma DrainedOne(tcb: map<Task, Tcb>, t: Task)
    requires t in tcb && tcb[t].ev == On(Pending)
    ensures Drained(tcb[t := Readied(tcb[t])]) == Drained(tcb)
  {
  }

  lemma WakeFromEventCore(k: K, t: Task, soon: nat)
    requires Core(k, soon) && t in k.w.tcb && k.B(t).ev.On?
    ensures k.WakeFromEvent(t).w.tcb == k.w.tcb[t := Readied(k.B(t))]
    ensures Core(k.WakeFromEvent(t), soon)
  {
    hide World.L, World.Ordered, World.Linked;
    CoreStep(k, k.WakeFromEvent(t), t, Readied(k.B(t)), soon);
  }

  lemma PendingHead(k: K)
    requires k.Sane() && k.w.L(Pending).items != []
    ensures var t := k.w.L(Pending).items[0].task; t in k.w.tcb && k.B(t).ev == On(Pending)
  {
    HeadIsOn(k.w, Pending);
  }

  lemma PendingEmpty(k: K)
    requires k.w.Linked() && k.w.L(Pending).items == []
    ensures Drained(k.w.tcb) == k.w.tcb && NonePending(k)
  {
    forall t | t in k.w.tcb ensures k.w.tcb[t].ev != On(Pending) {
      if k.w.tcb[t].ev == On(Pending) { OnList(k.w, Ev(t), Pending); }
    }
  }

  lemma {:induction false} DrainExact(k: K, soon: nat)
    requires Core(k, soon) && k.Sane()
    ensures Core(k.Drain(), soon) && NonePending(k.Drain())
    ensures k.Drain().w.tcb == Drained(k.w.tcb)
    decreases |k.w.L(Pending).items|
  {
    hide Drained, Readied, World.L, Home, World.Linked, World.Ordered;
    if k.w.L(Pending).items == [] {
      PendingEmpty(k);
    } else {
      var h := k.w.L(Pending).items[0].task;
      PendingHead(k);
      WakeFromEventShortens(k, h);
      WakeFromEventCore(k, h, soon);
      DrainedOne(k.w.tcb, h);
      DrainExact(k.WakeFromEvent(h), soon);
    }
  }

  /** Ending the suspension readies every pending task and every task whose time came in the
      meantime, and nothing else. */
  lemma ResumeAllExact(k: K)
    requires Inv(k) && k.depth == 1 && k.Sane()
    ensures var r := k.ResumeAll();
            && Inv(r) && r.depth == 0 && r.missed == 0 && !r.missedYield
            && r.Now() == k.Now() + k.missed
            && r.w.tcb == WokenBy(Drained(k.w.tcb), r.Now())
            && r.current == k.current && r.idle == k.idle && r.interrupts == k.interrupts
  {
    hide Drained, Readied, WokenBy, World.L, World.Linked, World.Ordered, Home, K.Drain, K.Replay, K.Fit, K.Cur, K.Sane;
    var d := k.(depth := 0);
    SameTasks(k, d, k.Now() + 1);
    DrainExact(d, k.Now() + 1);
    DrainKeeps(d);
    var p := d.Drain();
    ReplayExact(p);
    WokenNotPending(p.w.tcb, p.Now() + p.missed);
    var q := p.Replay();
    SameTasks(q, q.(missedYield := false), q.Now() + 1);
  }

  lemma WokenNotPending(tcb: map<Task, Tcb>, now: nat)
    requires forall t :: t in tcb ==> tcb[t].ev != On(Pending)
    ensures forall t :: t in WokenBy(tcb, now) ==> WokenBy(tcb, now)[t].ev != On(Pending)
  {
  }
}
