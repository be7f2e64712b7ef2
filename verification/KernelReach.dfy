/** States that runs from the start do reach, in which giving a mutex back or inheriting a
    priority goes wrong. */
module KernelReach {
  import opened Bytes
  import opened Rings
  import opened Worlds
  import opened Kernel
  import opened KernelInvariant
  import opened KernelRuns
  import opened KernelTheorems
  import opened KernelRanks

  ghost predicate Reachable(idle: Task, k: K) {
    exists steps :: Feasible(Boot(idle), steps) && k == Run(Boot(idle), steps)
  }

  lemma {:induction false} RunThen(k: K, steps: seq<Step>, s: Step)
    requires Good(k) && Feasible(k, steps) && Enabled(Run(k, steps), s)
    ensures Feasible(k, steps + [s]) && Run(k, steps + [s]) == Next(Run(k, steps), s)
    decreases |steps|
  {
    hide Good, Enabled, Next;
    if steps == [] {
      assert steps + [s] == [s];
      NextGood(k, s);
    } else {
      NextGood(k, steps[0]);
      assert (steps + [s])[1..] == steps[1..] + [s];
      RunThen(Next(k, steps[0]), steps[1..], s);
    }
  }

  lemma BootReached(idle: Task)
    ensures Reachable(idle, Boot(idle))
  {
    var steps: seq<Step> := [];
    assert Feasible(Boot(idle), steps) && Run(Boot(idle), steps) == Boot(idle);
  }

  lemma Reached(idle: Task, k: K, s: Step)
    requires Reachable(idle, k)
    requires Good(k) ==> Enabled(k, s)
    ensures Good(k) && Reachable(idle, Next(k, s))
  {
    hide Good, Enabled, Next, Boot;
    var steps :| Feasible(Boot(idle), steps) && k == Run(Boot(idle), steps);
    RunThen(Boot(idle), steps, s);
  }

  /** A run from the start has led to these tasks and ordered event lists, with `current` running
      and the scheduler not suspended. */
  ghost predicate Stands(idle: Task, k: K, tcb: map<Task, Tcb>, current: Task) {
    && Reachable(idle, k) && Good(k) && Ranked(k.w)
    && k.idle == idle && k.depth == 0 && k.w.tcb == tcb && k.current == current
  }

  // ----- steps from such a state ----------------------------------------------------------------

  lemma Starts(idle: Task)
    ensures Stands(idle, Boot(idle), map[idle := Readied(K.NewBlock(0))], idle)
  {
    BootReached(idle);
    BootRanked(idle);
  }

  lemma Creates(idle: Task, k: K, t: Task, p: nat) returns (r: K)
    requires Stands(idle, k, k.w.tcb, k.current) && t !in k.w.tcb
    ensures Stands(idle, r, k.w.tcb[t := Readied(K.NewBlock(p))], k.current)
  {
    hide World.L, World.Linked, World.Ordered, Core, Reachable, Ranked, K.CreateTask, K.NewBlock;
    Reached(idle, k, CreateTask(t, p));
    CreatedReady(k, t, p);
    CreateGood(k, t, p);
    NextRanked(k, CreateTask(t, p));
    r := Next(k, CreateTask(t, p));
  }

  /** Task t is ready, and its priority is above that of all other ready tasks. */
  ghost predicate Foremost(tcb: map<Task, Tcb>, t: Task) {
    && t in tcb && tcb[t].gen == On(Ready(tcb[t].prio))
    && forall u :: u in tcb && u != t && tcb[u].gen.On? && tcb[u].gen.id.Ready? ==> tcb[u].prio < tcb[t].prio
  }

  /** Such a task gets the processor. */
  lemma Switches(idle: Task, k: K, t: Task) returns (r: K)
    requires Stands(idle, k, k.w.tcb, k.current) && Foremost(k.w.tcb, t)
    ensures Stands(idle, r, k.w.tcb, t)
  {
    hide World.L, World.Linked, World.Ordered, Home, Reachable, Ranked;
    Reached(idle, k, SwitchContext);
    SwitchGood(k);
    SwitchPicksHighest(k);
    NextRanked(k, SwitchContext);
    r := Next(k, SwitchContext);
  }

  lemma Suspends(idle: Task, k: K) returns (r: K)
    requires Stands(idle, k, k.w.tcb, k.current)
    ensures r == k.(depth := 1) && Reachable(idle, r) && Good(r)
  {
    hide World.L, World.Linked, World.Ordered, Home, Reachable, Ranked;
    Reached(idle, k, SuspendScheduler);
    SuspendSchedulerGood(k);
    r := Next(k, SuspendScheduler);
  }

  lemma Resumes(idle: Task, k: K) returns (r: K)
    requires Reachable(idle, k) && Good(k) && Ranked(k.w)
    requires k.depth == 1 && k.idle == idle && k.missed == 0 && NonePending(k)
    ensures Stands(idle, r, k.w.tcb, k.current)
  {
    hide World.L, World.Linked, World.Ordered, Home, Reachable, Ranked, WokenBy, K.ResumeAll;
    Reached(idle, k, ResumeScheduler);
    ResumeSchedulerGood(k);
    ResumeAllExact(k);
    NothingOverdue(k);
    NextRanked(k, ResumeScheduler);
    assert Drained(k.w.tcb) == k.w.tcb;
    r := Next(k, ResumeScheduler);
  }

  /** The block of a task that waits on list q for ever. */
  function Waiting(b: Tcb, q: nat): Tcb {
    b.(gen := On(Suspended), ev := On(Event(q)))
  }

  /** The running task stops to wait for ever. */
  lemma Stops(idle: Task, k: K, q: nat) returns (r: K)
    requires Stands(idle, k, k.w.tcb, k.current) && k.current != idle && k.current in k.w.tcb
    requires k.B(k.current).gen == On(Ready(k.B(k.current).prio))
    ensures Stands(idle, r, k.w.tcb[k.current := Waiting(k.B(k.current), q)], k.current)
  {
    hide World.L, World.Linked, World.Ordered, Home, Reachable, Ranked, K.ResumeAll, K.PlaceOnEventList;
    var s := Suspends(idle, k);
    Reached(idle, s, WaitFor(q, MAX_DELAY));
    WaitGood(s, q, MAX_DELAY);
    WaitForEverBlocks(s, q);
    NextRanked(s, WaitFor(q, MAX_DELAY));
    r := Resumes(idle, s.PlaceOnEventList(q, MAX_DELAY));
  }

  /** The running task stops for d ticks. */
  lemma StopsFor(idle: Task, k: K, d: nat) returns (r: K, b: Tcb)
    requires Stands(idle, k, k.w.tcb, k.current) && k.current != idle && k.current in k.w.tcb && 0 < d < WORD
    requires k.B(k.current).gen == On(Ready(k.B(k.current).prio)) && k.B(k.current).ev == Nowhere
    ensures Stands(idle, r, k.w.tcb[k.current := b], k.current) && Delayed(b)
    ensures b == k.B(k.current).(gen := b.gen, wake := b.wake, due := k.Now() + d)
  {
    hide World.L, World.Linked, World.Ordered, Home, Reachable, Ranked, K.ResumeAll, K.BlockUntil;
    var s := Suspends(idle, k);
    Reached(idle, s, Delay(d));
    DelayGood(s, d);
    DelayDue(s, s.B(s.current), d);
    b := s.Blocked(s.B(s.current), (s.tick + d) % WORD);
    BlockUntilBlocks(s, (s.tick + d) % WORD);
    NextRanked(s, Delay(d));
    r := Resumes(idle, s.Delay(d));
  }

  /** A blocked task inherits the running task's priority. */
  lemma Inherits(idle: Task, k: K, h: Task) returns (r: K)
    requires Stands(idle, k, k.w.tcb, k.current) && k.current in k.w.tcb && h in k.w.tcb
    requires k.B(h).prio < k.B(k.current).prio && Blocking(k.B(h))
    ensures Reachable(idle, r) && Good(r)
    ensures var p := k.B(k.current).prio; r.w.tcb == k.w.tcb[h := k.B(h).(rank := PRIORITIES - p, prio := p)]
  {
    hide World.L, World.Linked, World.Ordered, Home, Reachable, Ranked, K.Inherit;
    Reached(idle, k, Inherit(h));
    InheritedWhileBlocked(k, h, k.B(k.current).prio);
    InheritGood(k, h);
    r := Next(k, Inherit(h));
  }

  // ----- a scenario -----------------------------------------------------------------------------

  predicate Blocking(b: Tcb) {
    b.gen.On? && !b.gen.id.Ready?
  }

  /** The idle task runs and no other is ready. */
  ghost predicate Idling(idle: Task, k: K) {
    && Stands(idle, k, k.w.tcb, idle) && idle in k.w.tcb && k.w.tcb[idle] == Readied(K.NewBlock(0))
    && forall t :: t in k.w.tcb && t != idle ==> Blocking(k.w.tcb[t])
  }

  /** What is stated about a state's parts follows from Stands. */
  lemma Standing(idle: Task, k: K, tcb: map<Task, Tcb>, current: Task)
    requires Stands(idle, k, tcb, current)
    ensures Stands(idle, k, k.w.tcb, k.current) && k.w.tcb == tcb && k.current == current
    ensures Reachable(idle, k) && Good(k) && Ranked(k.w)
  {
    hide Reachable, Good, Ranked;
  }

  lemma NewIsForemost(idle: Task, k: K, t: Task, p: nat)
    requires Idling(idle, k) && t !in k.w.tcb && 0 < p < PRIORITIES
    ensures Foremost(k.w.tcb[t := Readied(K.NewBlock(p))], t)
  {
    hide Stands;
  }

  /** A new task takes the processor from the idle task. */
  lemma TakesOver(idle: Task, k: K, t: Task, p: nat) returns (r: K)
    requires Idling(idle, k) && t !in k.w.tcb && 0 < p < PRIORITIES
    ensures Stands(idle, r, r.w.tcb, r.current) && r.current == t && r.w.tcb == k.w.tcb[t := Readied(K.NewBlock(p))]
  {
    hide Stands, Foremost, Readied, K.NewBlock;
    Standing(idle, k, k.w.tcb, idle);
    r := Creates(idle, k, t, p);
    Standing(idle, r, k.w.tcb[t := Readied(K.NewBlock(p))], k.current);
    NewIsForemost(idle, k, t, p);
    r := Switches(idle, r, t);
    Standing(idle, r, k.w.tcb[t := Readied(K.NewBlock(p))], t);
  }

  lemma IdleIsForemost(idle: Task, k: K, t: Task, b: Tcb)
    requires Idling(idle, k) && t != idle && Blocking(b)
    ensures Foremost(k.w.tcb[t := b], idle)
  {
    hide Stands;
  }

  lemma IdlingAfter(idle: Task, k: K, r: K, t: Task, b: Tcb)
    requires Idling(idle, k) && t != idle && Blocking(b)
    requires Stands(idle, r, k.w.tcb[t := b], idle)
    ensures Idling(idle, r) && r.w.tcb == k.w.tcb[t := b]
  {
    hide Stands;
    Standing(idle, r, k.w.tcb[t := b], idle);
  }

  /** And stops to wait for ever, so that the idle task runs again. */
  lemma ComesAndWaits(idle: Task, k: K, t: Task, p: nat, q: nat) returns (r: K)
    requires Idling(idle, k) && t !in k.w.tcb && 0 < p < PRIORITIES
    ensures Idling(idle, r) && r.w.tcb == k.w.tcb[t := Waiting(K.NewBlock(p), q)]
  {
    hide Stands, Idling, Foremost, K.NewBlock;
    var b := K.NewBlock(p);
    NotIdle(idle, k, t);
    r := TakesOver(idle, k, t, p);
    Overwrite(k.w.tcb, t, Readied(b), Waiting(b, q));
    r := Stops(idle, r, q);
    Standing(idle, r, k.w.tcb[t := Waiting(b, q)], t);
    IdleIsForemost(idle, k, t, Waiting(b, q));
    r := Switches(idle, r, idle);
    IdlingAfter(idle, k, r, t, Waiting(b, q));
  }

  /** Or stops for d ticks. */
  lemma ComesAndSleeps(idle: Task, k: K, t: Task, p: nat, d: nat) returns (r: K, b: Tcb)
    requires Idling(idle, k) && t !in k.w.tcb && 0 < p < PRIORITIES && 0 < d < WORD
    ensures Idling(idle, r) && r.w.tcb == k.w.tcb[t := b] && Delayed(b)
    ensures b == K.NewBlock(p).(gen := b.gen, wake := b.wake, due := b.due)
  {
    hide Stands, Idling, Foremost, K.NewBlock;
    NotIdle(idle, k, t);
    r := TakesOver(idle, k, t, p);
    r, b := StopsFor(idle, r, d);
    Overwrite(k.w.tcb, t, Readied(K.NewBlock(p)), b);
    Standing(idle, r, k.w.tcb[t := b], t);
    IdleIsForemost(idle, k, t, b);
    r := Switches(idle, r, idle);
    IdlingAfter(idle, k, r, t, b);
  }

  lemma NotIdle(idle: Task, k: K, t: Task)
    requires Idling(idle, k) && t !in k.w.tcb
    ensures t != idle
  {
  }

  lemma BootIdles(idle: Task)
    ensures Idling(idle, Boot(idle)) && Boot(idle).w.tcb == map[idle := Readied(K.NewBlock(0))]
  {
    hide Reachable, Good, Ranked;
    Starts(idle);
  }

  // ----- what goes wrong ------------------------------------------------------------------------

  /** Giving a mutex back can go wrong: its holder waits for something else, another task wants the
      mutex, so that the holder inherits its priority, and then a task that does not hold the mutex
      gives it.  Afterwards the holder is on an event list and on a ready list at once. */
  lemma DisinheritDoesBreak(idle: Task, h: Task, q: nat) returns (k: K)
    requires h != idle
    ensures Reachable(idle, k) && Good(k) && h in k.w.tcb && k.B(h).prio != k.B(h).base && k.B(h).ev == On(Event(q))
    ensures !EventOnOneList(k.Disinherit(h), h)
  {
    hide Reachable, Good, Ranked, Stands, World.L, World.Linked, World.Ordered, K.Disinherit, EventOnOneList;
    BootIdles(idle);
    k := ComesAndWaits(idle, Boot(idle), h, 1, q);
    k := TakesOver(idle, k, idle + h + 1, 2);
    k := Inherits(idle, k, h);
    DisinheritBreaksExactlyWhen(k, h);
  }

  /** A task that delays itself for d ticks inherits the priority of another. */
  lemma SleepsAndInherits(idle: Task, h: Task, d: nat) returns (k: K, due: nat)
    requires h != idle && 0 < d < WORD
    ensures Reachable(idle, k) && Good(k) && Asleep(k, h, due)
    ensures k.B(h).prio != k.B(h).base && k.B(h).ev == Nowhere && Blocking(k.B(h)) && !k.B(h).gen.id.Dead?
  {
    hide Reachable, Good, Ranked, Stands;
    BootIdles(idle);
    var b;
    k, b := ComesAndSleeps(idle, Boot(idle), h, 1, d);
    due := b.due;
    k := TakesOver(idle, k, idle + h + 1, 2);
    k := Inherits(idle, k, h);
  }

  /** A mutex of a task that waits for no event is given back. */
  lemma GivenBack(k: K, h: Task) returns (r: K)
    requires Good(k) && h in k.w.tcb && k.B(h).prio != k.B(h).base && k.B(h).ev == Nowhere
    ensures Enabled(k, Disinherit(h)) && r == Next(k, Disinherit(h)) && Good(r) && r.Now() == k.Now()
    ensures h in r.w.tcb && r.w.tcb[h].gen == On(Ready(k.w.tcb[h].base))
  {
    hide Inv, World.L, World.Linked, World.Ordered, K.Disinherit;
    Disinherited(k, h);
    DisinheritGood(k, h);
    r := k.Disinherit(h);
  }

  /** It can also end a sleep too early: the holder delays itself, another task wants the mutex and
      lends its priority, and a task that does not hold the mutex gives it. */
  lemma DisinheritDoesWake(idle: Task, h: Task, d: nat) returns (k: K, due: nat, r: K)
    requires h != idle && 0 < d < WORD
    ensures Reachable(idle, k) && Good(k) && Asleep(k, h, due) && k.Now() < due
    ensures Enabled(k, Disinherit(h)) && r == Next(k, Disinherit(h)) && r.Now() < due
    ensures h in r.w.tcb && r.w.tcb[h].gen == On(Ready(k.w.tcb[h].base))
  {
    hide Reachable, Good, K.Disinherit, K.Now;
    k, due := SleepsAndInherits(idle, h, d);
    AsleepAhead(k, h, due);
    r := GivenBack(k, h);
  }

  /** It can even bring back a deleted task: the holder is deleted after it has inherited, and then
      the mutex is given. */
  lemma DisinheritDoesRevive(idle: Task, h: Task, d: nat) returns (k: K, r: K)
    requires h != idle && 0 < d < WORD
    ensures Reachable(idle, k) && Good(k) && h in k.w.tcb && k.B(h).gen == On(Dead)
    ensures Enabled(k, Disinherit(h)) && r == Next(k, Disinherit(h)) && Good(r)
    ensures h in r.w.tcb && r.w.tcb[h].gen == On(Ready(k.w.tcb[h].base))
  {
    hide Reachable, Good, K.Disinherit;
    var due;
    k, due := SleepsAndInherits(idle, h, d);
    k := Deletes(idle, k, h);
    r := GivenBack(k, h);
  }

  lemma Deletes(idle: Task, k: K, h: Task) returns (r: K)
    requires Reachable(idle, k) && Good(k) && h in k.w.tcb && Blocking(k.B(h)) && !k.B(h).gen.id.Dead?
    ensures Reachable(idle, r) && Good(r) && r.w.tcb == k.w.tcb[h := k.B(h).(gen := On(Dead), ev := Nowhere)]
  {
    hide World.L, World.Linked, World.Ordered, Home, Reachable, K.DeleteTask;
    Reached(idle, k, DeleteTask(h));
    DeleteCore(k, h);
    DeleteGood(k, h);
    r := Next(k, DeleteTask(h));
  }

  /** On an ordered event list a waiter is ahead of all waiters of lower priority. */
  lemma HigherIsAhead(k: K, t: Task, h: Task, q: nat)
    requires k.Sane() && Ranked(k.w) && t in k.w.tcb && h in k.w.tcb
    requires k.B(t).ev == k.B(h).ev == On(Event(q)) && k.B(h).prio < k.B(t).prio
    ensures Ev(t) in k.w.L(Event(q)).items && Ev(h) in k.w.L(Event(q)).items
    ensures IndexOf(k.w.L(Event(q)).items, Ev(t)) < IndexOf(k.w.L(Event(q)).items, Ev(h))
  {
    hide World.L, World.Linked;
    OnList(k.w, Ev(t), Event(q));
    OnList(k.w, Ev(h), Event(q));
    var values := k.w.Values(Event(q));
    var a, b := IndexOf(k.w.L(Event(q)).items, Ev(t)), IndexOf(k.w.L(Event(q)).items, Ev(h));
    assert values[a] < values[b];
    assert Sorted(values) by { assert k.w.Ordered(Event(q)); }
  }

  /** Inheriting a priority can upset an event list: the heir waits behind a task whose priority
      lies between its own and the one it inherits. */
  lemma InheritDoesUpset(idle: Task, h: Task, q: nat) returns (k: K)
    requires h != idle
    ensures Reachable(idle, k) && Good(k) && Ranked(k.w) && h in k.w.tcb && k.B(h).ev == On(Event(q))
    ensures k.B(h).prio < k.B(k.current).prio && !Ranked(k.Inherit(h).w)
  {
    hide Reachable, Good, Ranked, Stands, World.L, World.Linked, World.Ordered, K.Inherit;
    BootIdles(idle);
    k := ComesAndWaits(idle, Boot(idle), h, 1, q);
    var t := idle + h + 1;
    k := ComesAndWaits(idle, k, t, 2, q);
    k := TakesOver(idle, k, t + 1, 3);
    Standing(idle, k, k.w.tcb, k.current);
    GoodIsSane(k);
    HigherIsAhead(k, t, h, q);
    InheritKeepsOrderExactlyWhen(k, h, q);
    var ahead := IndexOf(k.w.L(Event(q)).items, Ev(t));
    assert k.w.L(Event(q)).items[ahead].task == t;
  }

  lemma GoodIsSane(k: K)
    requires Good(k)
    ensures k.Sane()
  {
  }
}
