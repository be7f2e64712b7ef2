/** The lists of tasks that wait for events are kept in order of priority, so that an event wakes a
    waiter that no other waiter outranks. */
module KernelRanks {
  import opened Bytes
  import opened Rings
  import opened Worlds
  import opened Kernel
  import opened KernelInvariant
  import opened KernelRuns
  import opened KernelTheorems

  /** The value of a task's event item mirrors its priority. */
  ghost predicate Mirrors(tcb: map<Task, Tcb>) {
    forall t :: t in tcb ==> tcb[t].rank == PRIORITIES - tcb[t].prio
  }

  ghost predicate Ranked(w: World) {
    Mirrors(w.tcb) && forall q :: w.Ordered(Event(q))
  }

  /** An event wakes a waiter of the highest priority. */
  lemma SignalWakesHighest(k: K, q: nat)
    requires k.Sane() && Ranked(k.w) && k.w.L(Event(q)).items != []
    ensures var h := k.w.L(Event(q)).items[0].task;
            && h in k.w.tcb && k.B(h).ev == On(Event(q))
            && forall t :: t in k.w.tcb && k.B(t).ev == On(Event(q)) ==> k.B(t).prio <= k.B(h).prio
  {
    HeadIsEvent(k, q);
    forall t | t in k.w.tcb && k.B(t).ev == On(Event(q)) ensures k.B(t).prio <= k.B(k.w.L(Event(q)).items[0].task).prio {
      HeadIsLeast(k.w, Ev(t), Event(q));
    }
  }

  // ----- what each step keeps -----------------------------------------------------------------------

  lemma WakeRanked(k: K, t: Task)
    requires k.Sane() && Ranked(k.w) && t in k.w.tcb
    ensures Ranked(k.Wake(t).w)
  {
    hide World.L, World.Linked, World.Ordered;
  }

  lemma WakeFromEventRanked(k: K, t: Task)
    requires k.Sane() && Ranked(k.w) && t in k.w.tcb && k.B(t).ev.On?
    ensures Ranked(k.WakeFromEvent(t).w)
  {
    hide World.L, World.Linked, World.Ordered;
  }

  lemma {:induction false} CheckDelayedRanked(k: K)
    requires k.Sane() && Ranked(k.w)
    ensures Ranked(k.CheckDelayed().w)
    decreases |k.w.L(k.Cur()).items|
  {
    hide Ranked;
    var items := k.w.L(k.Cur()).items;
    if items != [] && k.w.V(items[0]) <= k.tick {
      HeadIsOn(k.w, k.Cur());
      WakeShortens(k, items[0].task);
      WakeRanked(k, items[0].task);
      CheckDelayedRanked(k.Wake(items[0].task));
    }
  }

  lemma {:induction false} DrainRanked(k: K)
    requires k.Sane() && Ranked(k.w)
    ensures Ranked(k.Drain().w)
    decreases |k.w.L(Pending).items|
  {
    hide Ranked;
    var items := k.w.L(Pending).items;
    if items != [] {
      HeadIsOn(k.w, Pending);
      WakeFromEventShortens(k, items[0].task);
      WakeFromEventRanked(k, items[0].task);
      DrainRanked(k.WakeFromEvent(items[0].task));
    }
  }

  lemma {:induction false} ReplayRanked(k: K)
    requires k.Sane() && Ranked(k.w)
    ensures Ranked(k.Replay().w)
    decreases k.missed
  {
    hide Ranked, K.CheckDelayed;
    if 0 < k.missed {
      CheckDelayedKeeps(k.Advanced());
      CheckDelayedRanked(k.Advanced());
      ReplayRanked(k.Advanced().CheckDelayed().(missed := k.missed - 1));
    }
  }

  lemma ResumeAllRanked(k: K)
    requires k.Sane() && Ranked(k.w) && 0 < k.depth
    ensures Ranked(k.ResumeAll().w)
  {
    hide Ranked, K.Drain, K.Replay;
    var d := k.(depth := k.depth - 1);
    if d.depth == 0 {
      DrainKeeps(d);
      DrainRanked(d);
      ReplayRanked(d.Drain());
    }
  }

  lemma BlockUntilRanked(k: K, v: nat)
    requires k.Sane() && Ranked(k.w)
    ensures Ranked(k.BlockUntil(v).w)
  {
    hide World.L, World.Linked, World.Ordered, K.BlockUntil;
    BlockUntilBlocks(k, v);
  }

  lemma WaitRanked(k: K, q: nat, ticks: nat)
    requires k.Sane() && Ranked(k.w) && k.B(k.current).ev == Nowhere
    ensures Ranked(k.PlaceOnEventList(q, ticks).w)
  {
    hide World.L, World.Linked, World.Ordered, K.BlockUntil;
    var k1 := k.(w := k.w.PutSorted(Event(q), Ev(k.current)));
    if ticks != MAX_DELAY {
      BlockUntilRanked(k1, (k.tick + ticks) % WORD);
    }
  }

  lemma SignalRanked(k: K, q: nat)
    requires k.Sane() && Ranked(k.w) && k.w.L(Event(q)).items != []
    ensures Ranked(k.RemoveFromEventList(q).w)
  {
    hide World.L, World.Linked, World.Ordered;
    HeadIsEvent(k, q);
    if k.depth == 0 {
      WakeFromEventRanked(k, k.w.L(Event(q)).items[0].task);
    }
  }

  lemma DetachedRanked(k: K, t: Task, id: ListId)
    requires k.Sane() && Ranked(k.w) && t in k.w.tcb && !id.Event?
    ensures Ranked(k.Detached(t).Put(id, Gen(t)))
  {
    hide World.L, World.Linked, World.Ordered;
  }

  lemma ResumeRanked(k: K, t: Task)
    requires k.Sane() && Ranked(k.w) && t in k.w.tcb
    ensures Ranked(k.ResumeTask(t).w) && Ranked(k.ResumeTaskFromIsr(t).w)
  {
    hide World.L, World.Linked, World.Ordered;
  }

  lemma CreateRanked(k: K, t: Task, priority: nat)
    requires k.Sane() && Ranked(k.w) && t !in k.w.tcb
    ensures Ranked(k.CreateTask(t, priority).w)
  {
    hide World.L, World.Linked, World.Ordered;
  }

  lemma ReprioritisedRanked(k: K, t: Task, p: nat)
    requires k.Sane() && Ranked(k.w) && t in k.w.tcb && p < PRIORITIES && k.B(t).ev == Nowhere
    ensures Ranked(k.Reprioritised(t, p).w)
  {
    hide World.L, World.Linked, World.Ordered;
  }

  lemma InheritRanked(k: K, h: Task)
    requires k.Sane() && Ranked(k.w) && h in k.w.tcb && k.B(h).ev == Nowhere
    ensures Ranked(k.Inherit(h).w)
  {
    hide World.L, World.Linked, World.Ordered, K.Reprioritised;
    ReprioritisedRanked(k, h, k.B(k.current).prio);
  }

  /** The one step that can upset the order: a task inherits a priority while it waits for an
      event itself. */
  ghost predicate Upsets(k: K, s: Step)
    requires Good(k) && Enabled(k, s)
  {
    s.Inherit? && k.B(s.holder).ev != Nowhere && k.B(s.holder).prio < k.B(k.current).prio
  }

  lemma NextRanked(k: K, s: Step)
    requires Good(k) && Enabled(k, s) && Ranked(k.w) && !Upsets(k, s)
    ensures Ranked(Next(k, s).w)
  {
    hide Ranked, Inv, World.L, World.Linked, World.Ordered, K.CheckDelayed, K.ResumeAll, K.BlockUntil, K.PlaceOnEventList;
    match s
    case Tick => CheckDelayedRanked(k.(interrupts := k.interrupts + 1).Advanced());
    case ResumeScheduler => ResumeAllRanked(k);
    case Delay(ticks) => BlockUntilRanked(k, (k.tick + ticks) % WORD);
    case DelayUntil(previous, increment) => BlockUntilRanked(k, (previous + increment) % WORD);
    case WaitFor(q, ticks) => BlockerIsFree(k); WaitRanked(k, q, ticks);
    case Signal(q) => SignalRanked(k, q);
    case SuspendTask(t) => DetachedRanked(k, t, Suspended);
    case DeleteTask(t) => DetachedRanked(k, t, Dead);
    case ResumeTask(t) => ResumeRanked(k, t);
    case ResumeTaskFromIsr(t) => ResumeRanked(k, t);
    case CreateTask(t, p) => CreateRanked(k, t, p);
    case Inherit(h) => if k.B(h).prio < k.B(k.current).prio { InheritRanked(k, h); }
    case Disinherit(h) => DisinheritRanked(k, h);
    case Reap => ReapRanked(k);
    case SwitchContext => SwitchRanked(k);
    case SuspendScheduler =>
  }

  lemma DisinheritRanked(k: K, h: Task)
    requires Good(k) && Enabled(k, Disinherit(h)) && Ranked(k.w)
    ensures Ranked(k.Disinherit(h).w)
  {
    hide World.L, World.Linked, World.Ordered, K.Reprioritised, Ranked;
    assert Home(k, k.B(h), k.Now() + 1);
    if k.B(h).prio != k.B(h).base {
      ReprioritisedRanked(k, h, k.B(h).base);
    }
  }

  lemma ReapRanked(k: K)
    requires Good(k) && Enabled(k, Reap) && Ranked(k.w)
    ensures Ranked(Next(k, Reap).w)
  {
    hide World.L, World.Linked, World.Ordered;
    DeadHaveNoEvent(k);
    ReapForgets(k);
  }

  lemma SwitchRanked(k: K)
    requires Good(k) && Ranked(k.w)
    ensures Ranked(Next(k, SwitchContext).w)
  {
    hide World.L, World.Linked, World.Ordered;
    SearchStops(k);
  }

  lemma SortedOnceLowered(s: seq<nat>, p: nat, v: nat)
    requires Sorted(s) && p < |s| && v <= s[p]
    ensures Sorted(s[p := v]) <==> forall i :: 0 <= i < p ==> s[i] <= v
  {
    var r := s[p := v];
    if Sorted(r) {
      forall i | 0 <= i < p ensures s[i] <= v {
        assert r[i] <= r[p];
      }
    }
  }

  lemma WaitersKnown(k: K, q: nat)
    requires k.Sane()
    ensures Distinct(k.w.L(Event(q)).items)
    ensures forall i {:trigger k.w.L(Event(q)).items[i]} :: 0 <= i < |k.w.L(Event(q)).items| ==>
              var x := k.w.L(Event(q)).items[i]; x == Ev(x.task) && x.task in k.w.tcb
  {
    assert Seen(Event(q));
    AllApart(k.w.L(Event(q)).items);
    forall i | 0 <= i < |k.w.L(Event(q)).items|
      ensures var x := k.w.L(Event(q)).items[i]; x == Ev(x.task) && x.task in k.w.tcb
    {
      assert k.w.L(Event(q)).items[i] in k.w.L(Event(q)).items;
    }
  }

  /** Only the list that the heir waits on is affected. */
  lemma OthersInOrder(k: K, h: Task, q: nat)
    requires Good(k) && Ranked(k.w) && h in k.w.tcb && k.B(h).ev == On(Event(q)) && k.B(h).prio < k.B(k.current).prio
    ensures Mirrors(k.Inherit(h).w.tcb) && forall o :: o != q ==> k.Inherit(h).w.Ordered(Event(o))
  {
    hide World.L, World.Linked, World.Ordered;
    assert Home(k, k.B(h), k.Now() + 1);
  }

  /** What the heir's list looks like afterwards: its own value is lower. */
  lemma InheritLowers(k: K, h: Task, q: nat, p: nat)
    requires Good(k) && Ranked(k.w) && h in k.w.tcb && k.B(h).ev == On(Event(q)) && k.B(h).prio < k.B(k.current).prio
    requires p < |k.w.L(Event(q)).items| && k.w.L(Event(q)).items[p] == Ev(h)
    ensures k.Inherit(h).w.Values(Event(q)) == k.w.Values(Event(q))[p := PRIORITIES - k.B(k.current).prio]
  {
    hide World.Linked, World.Ordered;
    assert Home(k, k.B(h), k.Now() + 1);
    WaitersKnown(k, q);
  }

  /** No waiter before place n has a lower priority than prio. */
  ghost predicate NoneLowerAhead(k: K, q: nat, n: nat, prio: nat) {
    forall i :: 0 <= i < n && i < |k.w.L(Event(q)).items| ==>
      var t := k.w.L(Event(q)).items[i].task; t in k.w.tcb && prio <= k.w.tcb[t].prio
  }

  lemma AheadByValue(k: K, q: nat, n: nat, prio: nat)
    requires k.Sane() && Ranked(k.w) && n <= |k.w.L(Event(q)).items| && prio < PRIORITIES
    ensures NoneLowerAhead(k, q, n, prio) <==> forall i :: 0 <= i < n ==> k.w.Values(Event(q))[i] <= PRIORITIES - prio
  {
    hide World.Linked, World.Ordered;
    WaitersKnown(k, q);
    forall i | 0 <= i < n
      ensures k.w.Values(Event(q))[i] == PRIORITIES - k.w.tcb[k.w.L(Event(q)).items[i].task].prio
    {
    }
  }

  /** A waiter that inherits a priority leaves its list in order exactly when no waiter ahead of it
      has a lower priority than the one inherited. */
  lemma InheritKeepsOrderExactlyWhen(k: K, h: Task, q: nat)
    requires Good(k) && Ranked(k.w) && h in k.w.tcb && k.B(h).ev == On(Event(q)) && k.B(h).prio < k.B(k.current).prio
    ensures Ev(h) in k.w.L(Event(q)).items
    ensures Ranked(k.Inherit(h).w) <==>
              NoneLowerAhead(k, q, IndexOf(k.w.L(Event(q)).items, Ev(h)), k.B(k.current).prio)
  {
    hide World.L, World.Linked, World.Values, NoneLowerAhead, Home, K.Inherit;
    OnList(k.w, Ev(h), Event(q));
    var p := IndexOf(k.w.L(Event(q)).items, Ev(h));
    var prio := k.B(k.current).prio;
    assert k.w.Ordered(Event(q));
    InheritLowers(k, h, q, p);
    OthersInOrder(k, h, q);
    AheadByValue(k, q, p, prio);
    ValueOf(k, h, q, p);
    SortedOnceLowered(k.w.Values(Event(q)), p, PRIORITIES - prio);
  }

  lemma ValueOf(k: K, h: Task, q: nat, p: nat)
    requires Ranked(k.w) && h in k.w.tcb && p < |k.w.L(Event(q)).items| && k.w.L(Event(q)).items[p] == Ev(h)
    ensures |k.w.Values(Event(q))| == |k.w.L(Event(q)).items|
    ensures k.w.Values(Event(q))[p] == PRIORITIES - k.B(h).prio
  {
  }

  // ----- runs ---------------------------------------------------------------------------------------

  ghost predicate NeverUpset(k: K, steps: seq<Step>)
    requires Good(k) && Feasible(k, steps)
    decreases |steps|
  {
    steps != [] ==>
      && !Upsets(k, steps[0])
      && (NextGood(k, steps[0]); NeverUpset(Next(k, steps[0]), steps[1..]))
  }

  lemma {:induction false} RunRanked(k: K, steps: seq<Step>)
    requires Good(k) && Feasible(k, steps) && NeverUpset(k, steps) && Ranked(k.w)
    ensures Ranked(Run(k, steps).w)
    decreases |steps|
  {
    hide Good, Enabled, Next, Ranked, Upsets;
    if steps != [] {
      NextGood(k, steps[0]);
      NextRanked(k, steps[0]);
      RunRanked(Next(k, steps[0]), steps[1..]);
    }
  }

  lemma BootRanked(idle: Task)
    ensures Ranked(Boot(idle).w)
  {
    var none := World(map[], map[]);
    assert forall q :: none.Ordered(Event(q));
  }

  /** In every run in which no task inherits a priority while it waits for an event itself, each
      event wakes a waiter of the highest priority. */
  lemma EventsWakeHighest(idle: Task, steps: seq<Step>, q: nat)
    requires Feasible(Boot(idle), steps) && NeverUpset(Boot(idle), steps)
    requires Run(Boot(idle), steps).w.L(Event(q)).items != []
    ensures var k := Run(Boot(idle), steps);
            var h := k.w.L(Event(q)).items[0].task;
            && h in k.w.tcb && k.B(h).ev == On(Event(q))
            && forall t :: t in k.w.tcb && k.B(t).ev == On(Event(q)) ==> k.B(t).prio <= k.B(h).prio
  {
    hide Ranked, Boot, Inv, World.L;
    BootRanked(idle);
    RunRanked(Boot(idle), steps);
    SignalWakesHighest(Run(Boot(idle), steps), q);
  }
}
