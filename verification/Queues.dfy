/** The queues of queue.c: a bounded double-ended queue of items, two lists of waiting tasks, and
    the lock counts by which interrupts put off waking tasks while a task is about to block. */
module Queues {
  import opened Bytes
  import opened Rings

  type Entry = seq<Byte>
  type Task = nat

  /** queueUNLOCKED; a lock count of 0 is queueLOCKED_UNMODIFIED. */
  const UNLOCKED: int := -1

  /** pxMutexHolder, which is only used in a queue that is a mutex. */
  datatype Holder = Nobody | Somebody(task: Task)

  /** How far the one task has come that holds the scheduler suspended in order to block on the
      queue. */
  datatype Phase = Idle | Locked | FoundEmpty | FoundFull | Settled | TxUnlocked

  /** One critical section of queue.c. */
  datatype Step =
    | Send(item: Entry, back: bool)
    | Receive(peek: bool, task: Task)
    | SendFromIsr(item: Entry, back: bool)
    | ReceiveFromIsr
    | Lock
    | CheckEmpty
    | CheckFull
    | WaitToReceive(task: Task, place: nat)
    | WaitToSend(task: Task, place: nat)
    | UnlockTx
    | UnlockRx
    | StopReceiving(place: nat)
    | StopSending(place: nat)

  /** A queue; a mutex is one with room for one item of no bytes, and it is free while that item is
      there.  `wokenR` and `wokenS` are history: the receivers and senders woken since the latest one
      joined.  So are `sent` and `got`: all items ever stored and ever taken out. */
  datatype Q = Q(items: seq<Entry>, length: nat, mutex: bool, holder: Holder, tx: int, rx: int,
                 receivers: seq<Task>, senders: seq<Task>, phase: Phase,
                 wokenR: nat, wokenS: nat, sent: seq<Entry>, got: seq<Entry>)
  {
    /** xTaskRemoveFromEventList on the waiting receivers, if there are any. */
    function WakeReceiver(): Q {
      if receivers == [] then this else this.(receivers := receivers[1..], wokenR := wokenR + 1)
    }

    function WakeSender(): Q {
      if senders == [] then this else this.(senders := senders[1..], wokenS := wokenS + 1)
    }

    /** prvCopyDataToQueue; a mutex is then held by nobody. */
    function Stored(item: Entry, back: bool): Q {
      this.(items := if back then items + [item] else [item] + items, sent := sent + [item],
            holder := if mutex then Nobody else holder)
    }

    /** prvCopyDataFromQueue and the count taken down. */
    function Taken(): Q
      requires items != []
    {
      this.(items := items[1..], got := got + [items[0]])
    }

    /** The first critical section of xQueueGenericSend. */
    function Send(item: Entry, back: bool): Q {
      if |items| < length then Stored(item, back).WakeReceiver() else this
    }

    /** The first critical section of xQueueGenericReceive, which task t runs; it records who takes a
        mutex. */
    function Receive(peek: bool, t: Task): Q {
      if items == [] then this
      else if peek then WakeReceiver()
      else Taken().(holder := if mutex then Somebody(t) else holder).WakeSender()
    }

    function SendFromIsr(item: Entry, back: bool): Q {
      if length <= |items| then this
      else if tx == UNLOCKED then Stored(item, back).WakeReceiver()
      else Stored(item, back).(tx := tx + 1)
    }

    function ReceiveFromIsr(): Q {
      if items == [] then this
      else if rx == UNLOCKED then Taken().WakeSender()
      else Taken().(rx := rx + 1)
    }

    /** prvLockQueue. */
    function Lock(): Q {
      this.(rx := if rx == UNLOCKED then 0 else rx, tx := if tx == UNLOCKED then 0 else tx, phase := Locked)
    }

    /** The first critical section of prvUnlockQueue. */
    function UnlockTx(): Q
      decreases tx
    {
      if 0 < tx && receivers != [] then WakeReceiver().(tx := tx - 1).UnlockTx()
      else this.(tx := UNLOCKED, phase := TxUnlocked)
    }

    /** The second critical section of prvUnlockQueue. */
    function UnlockRx(): Q
      decreases rx
    {
      if 0 < rx && senders != [] then WakeSender().(rx := rx - 1).UnlockRx()
      else this.(rx := UNLOCKED, phase := Idle)
    }

    predicate Enabled(s: Step) {
      match s
      case Send(_, _) => phase.Idle?
      case Receive(_, _) => phase.Idle?
      case SendFromIsr(_, _) => true
      case ReceiveFromIsr => true
      case Lock => phase.Idle?
      case CheckEmpty => phase.Locked?
      case CheckFull => phase.Locked?
      case WaitToReceive(_, p) => phase.FoundEmpty? && p <= |receivers|
      case WaitToSend(_, p) => phase.FoundFull? && p <= |senders|
      case UnlockTx => phase.Locked? || phase.Settled?
      case UnlockRx => phase.TxUnlocked?
      case StopReceiving(p) => p < |receivers|
      case StopSending(p) => p < |senders|
    }

    function Next(s: Step): Q
      requires Enabled(s)
    {
      match s
      case Send(item, back) => Send(item, back)
      case Receive(peek, t) => Receive(peek, t)
      case SendFromIsr(item, back) => SendFromIsr(item, back)
      case ReceiveFromIsr => ReceiveFromIsr()
      case Lock => Lock()
      case CheckEmpty => this.(phase := if items == [] then FoundEmpty else Settled)
      case CheckFull => this.(phase := if |items| == length then FoundFull else Settled)
      case WaitToReceive(t, p) => this.(receivers := InsertAt(receivers, p, t), wokenR := 0, phase := Settled)
      case WaitToSend(t, p) => this.(senders := InsertAt(senders, p, t), wokenS := 0, phase := Settled)
      case UnlockTx => UnlockTx()
      case UnlockRx => UnlockRx()
      case StopReceiving(p) => this.(receivers := RemoveAt(receivers, p))
      case StopSending(p) => this.(senders := RemoveAt(senders, p))
    }

    /** The sends, or receives, of interrupts that a lock count holds back. */
    static function Held(lock: int): nat {
      if lock < 0 then 0 else lock
    }

    /** While anybody waits, whatever there is to wait for has been announced: to a waiter woken
        since the last one joined, or to the lock count. */
    ghost predicate Inv() {
      && 0 < length && |items| <= length
      && (if phase.Idle? || phase.TxUnlocked? then tx == UNLOCKED else 0 <= tx)
      && (if phase.Idle? then rx == UNLOCKED else 0 <= rx)
      && (phase.FoundEmpty? ==> |items| <= tx)
      && (phase.FoundFull? ==> length - |items| <= rx)
      && (receivers != [] ==> |items| <= wokenR + Held(tx))
      && (senders != [] ==> length - |items| <= wokenS + Held(rx))
    }
  }

  // ----- waking -----------------------------------------------------------------------------------

  function Min(a: nat, b: nat): nat {
    if a < b then a else b
  }

  /** Unlocking wakes one waiting receiver, from the head of the list, for every send that the
      lock count recorded, as long as there are any. */
  lemma {:induction false} UnlockTxWakes(q: Q)
    ensures var n := Min(Q.Held(q.tx), |q.receivers|);
            q.UnlockTx() == q.(receivers := q.receivers[n..], wokenR := q.wokenR + n, tx := UNLOCKED, phase := TxUnlocked)
    decreases q.tx
  {
    if 0 < q.tx && q.receivers != [] {
      UnlockTxWakes(q.WakeReceiver().(tx := q.tx - 1));
    }
  }

  lemma {:induction false} UnlockRxWakes(q: Q)
    ensures var n := Min(Q.Held(q.rx), |q.senders|);
            q.UnlockRx() == q.(senders := q.senders[n..], wokenS := q.wokenS + n, rx := UNLOCKED, phase := Idle)
    decreases q.rx
  {
    if 0 < q.rx && q.senders != [] {
      UnlockRxWakes(q.WakeSender().(rx := q.rx - 1));
    }
  }

  lemma UnlockKeepsInv(q: Q, s: Step)
    requires q.Inv() && q.Enabled(s) && (s.UnlockTx? || s.UnlockRx?)
    ensures q.Next(s).Inv()
  {
    hide Q.UnlockTx, Q.UnlockRx;
    UnlockTxWakes(q);
    UnlockRxWakes(q);
  }

  /** The steps that store an item. */
  lemma StoreKeepsInv(q: Q, s: Step)
    requires q.Inv() && q.Enabled(s) && (s.Send? || s.SendFromIsr?)
    ensures q.Next(s).Inv()
  {
  }

  /** The steps that take one. */
  lemma TakeKeepsInv(q: Q, s: Step)
    requires q.Inv() && q.Enabled(s) && (s.Receive? || s.ReceiveFromIsr?)
    ensures q.Next(s).Inv()
  {
  }

  lemma NextKeepsInv(q: Q, s: Step)
    requires q.Inv() && q.Enabled(s)
    ensures q.Next(s).Inv()
  {
    hide Q.UnlockTx, Q.UnlockRx, Q.Send, Q.Receive, Q.SendFromIsr, Q.ReceiveFromIsr, InsertAt, RemoveAt;
    if s.UnlockTx? || s.UnlockRx? {
      UnlockKeepsInv(q, s);
    } else if s.Send? || s.SendFromIsr? {
      StoreKeepsInv(q, s);
    } else if s.Receive? || s.ReceiveFromIsr? {
      TakeKeepsInv(q, s);
    }
  }

  /** One of the tasks is urgent. */
  predicate Among(s: seq<Task>, urgent: set<Task>) {
    exists t :: t in s && t in urgent
  }

  lemma NoneAmong(urgent: set<Task>)
    ensures !Among([], urgent)
  {
  }

  lemma AmongNext(s: seq<Task>, n: nat, urgent: set<Task>)
    requires n < |s|
    ensures Among(s[..n + 1], urgent) <==> Among(s[..n], urgent) || s[n] in urgent
  {
    assert s[..n + 1] == s[..n] + [s[n]];
  }

  // ----- runs -------------------------------------------------------------------------------------

  /** A queue just created. */
  function Created(length: nat): Q {
    Q([], length, false, Nobody, UNLOCKED, UNLOCKED, [], [], Idle, 0, 0, [], [])
  }

  ghost predicate Feasible(q: Q, steps: seq<Step>)
    decreases |steps|
  {
    steps != [] ==> q.Enabled(steps[0]) && Feasible(q.Next(steps[0]), steps[1..])
  }

  ghost function Run(q: Q, steps: seq<Step>): Q
    requires Feasible(q, steps)
    decreases |steps|
  {
    if steps == [] then q else Run(q.Next(steps[0]), steps[1..])
  }

  lemma {:induction false} RunKeepsInv(q: Q, steps: seq<Step>)
    requires q.Inv() && Feasible(q, steps)
    ensures Run(q, steps).Inv()
    decreases |steps|
  {
    if steps != [] {
      NextKeepsInv(q, steps[0]);
      RunKeepsInv(q.Next(steps[0]), steps[1..]);
    }
  }

  /** No wake-up is lost, in any interleaving of tasks and interrupts: while any task waits to
      receive, the items never outnumber the receivers woken since the latest one joined and the
      sends recorded in xTxLock; and likewise for free places, senders and xRxLock. */
  lemma NoLostWakeUp(length: nat, steps: seq<Step>)
    requires 0 < length && Feasible(Created(length), steps)
    ensures var q := Run(Created(length), steps);
            && (q.receivers != [] ==> |q.items| <= q.wokenR + Q.Held(q.tx))
            && (q.senders != [] ==> length - |q.items| <= q.wokenS + Q.Held(q.rx))
            && (q.phase.Idle? && q.receivers != [] && q.wokenR == 0 ==> q.items == [])
            && (q.phase.Idle? && q.senders != [] && q.wokenS == 0 ==> |q.items| == length)
  {
    RunKeepsInv(Created(length), steps);
    RunKeepsLength(Created(length), steps);
  }

  lemma {:induction false} RunKeepsLength(q: Q, steps: seq<Step>)
    requires Feasible(q, steps)
    ensures Run(q, steps).length == q.length
    decreases |steps|
  {
    if steps != [] {
      UnlockTxWakes(q);
      UnlockRxWakes(q);
      RunKeepsLength(q.Next(steps[0]), steps[1..]);
    }
  }

  // ----- what a lock count says ---------------------------------------------------------------------

  /** The sends of interrupts that have stored an item since the queue was locked, and their removals,
      after a step and before it. */
  datatype Counts = Counts(stored: nat, taken: nat)

  function Counted(q: Q, s: Step, c: Counts): Counts {
    match s
    case Lock => Counts(0, 0)
    case SendFromIsr(_, _) => if |q.items| < q.length then c.(stored := c.stored + 1) else c
    case ReceiveFromIsr => if q.items != [] then c.(taken := c.taken + 1) else c
    case _ => c
  }

  ghost function CountedIn(q: Q, steps: seq<Step>, c: Counts): Counts
    requires Feasible(q, steps)
    decreases |steps|
  {
    if steps == [] then c else CountedIn(q.Next(steps[0]), steps[1..], Counted(q, steps[0], c))
  }

  /** From the locking to either unlocking, the lock count is the number of those steps. */
  ghost predicate CountsRight(q: Q, c: Counts) {
    && q.Inv() && (!q.phase.Idle? && !q.phase.TxUnlocked? ==> q.tx == c.stored)
    && (!q.phase.Idle? ==> q.rx == c.taken)
  }

  lemma NextCountsRight(q: Q, s: Step, c: Counts)
    requires CountsRight(q, c) && q.Enabled(s)
    ensures CountsRight(q.Next(s), Counted(q, s, c))
  {
    hide Q.UnlockTx, Q.UnlockRx, InsertAt, RemoveAt, Q.Inv;
    NextKeepsInv(q, s);
    InvLocks(q);
    UnlockTxWakes(q);
    UnlockRxWakes(q);
  }

  lemma InvLocks(q: Q)
    requires q.Inv()
    ensures if q.phase.Idle? || q.phase.TxUnlocked? then q.tx == UNLOCKED else 0 <= q.tx
    ensures if q.phase.Idle? then q.rx == UNLOCKED else 0 <= q.rx
  {
  }

  lemma {:induction false} RunCountsRight(q: Q, steps: seq<Step>, c: Counts)
    requires CountsRight(q, c) && Feasible(q, steps)
    ensures CountsRight(Run(q, steps), CountedIn(q, steps, c))
    decreases |steps|
  {
    hide CountsRight, Q.Next, Q.Enabled, Counted;
    if steps != [] {
      NextCountsRight(q, steps[0], c);
      RunCountsRight(q.Next(steps[0]), steps[1..], Counted(q, steps[0], c));
    }
  }

  /** In every run each lock count is the number of sends, or removals, of interrupts since the queue
      was locked; and unlocking wakes as many waiters, from the head, or all if there are fewer. */
  lemma UnlockWakesForInterrupts(length: nat, steps: seq<Step>)
    requires 0 < length && Feasible(Created(length), steps)
    ensures var q, c := Run(Created(length), steps), CountedIn(Created(length), steps, Counts(0, 0));
            && (!q.phase.Idle? && !q.phase.TxUnlocked? ==> q.tx == c.stored)
            && (!q.phase.Idle? ==> q.rx == c.taken)
            && (q.Enabled(UnlockTx) ==> q.Next(UnlockTx).receivers == q.receivers[Min(c.stored, |q.receivers|)..])
            && (q.Enabled(UnlockRx) ==> q.Next(UnlockRx).senders == q.senders[Min(c.taken, |q.senders|)..])
  {
    hide Q.UnlockTx, Q.UnlockRx;
    RunCountsRight(Created(length), steps, Counts(0, 0));
    var q := Run(Created(length), steps);
    UnlockTxWakes(q);
    UnlockRxWakes(q);
  }

  lemma RunStep(q: Q, s: Step, rest: seq<Step>)
    requires q.Enabled(s) && Feasible(q.Next(s), rest)
    ensures Feasible(q, [s] + rest) && Run(q, [s] + rest) == Run(q.Next(s), rest)
  {
    assert ([s] + rest)[1..] == rest;
  }

  /** Locking the queue, waiting to receive and unlocking it, with no interrupt in between, wakes
      nobody: the task waits on the empty queue, and all else is as it was. */
  lemma QuietReceiverWaits(q: Q, t: Task, p: nat)
    requires q.Inv() && q.phase.Idle? && q.items == [] && p <= |q.receivers|
    ensures Feasible(q, [Lock, CheckEmpty, WaitToReceive(t, p), UnlockTx, UnlockRx])
    ensures Run(q, [Lock, CheckEmpty, WaitToReceive(t, p), UnlockTx, UnlockRx])
            == q.(receivers := InsertAt(q.receivers, p, t), wokenR := 0)
  {
    hide InsertAt;
    InvLocks(q);
    var locked := q.Next(Lock);
    var empty := locked.Next(CheckEmpty);
    var waits := empty.Next(WaitToReceive(t, p));
    RunStep(waits.Next(UnlockTx), UnlockRx, []);
    RunStep(waits, UnlockTx, [UnlockRx]);
    RunStep(empty, WaitToReceive(t, p), [UnlockTx, UnlockRx]);
    RunStep(locked, CheckEmpty, [WaitToReceive(t, p), UnlockTx, UnlockRx]);
    RunStep(q, Lock, [CheckEmpty, WaitToReceive(t, p), UnlockTx, UnlockRx]);
  }

  /** So does waiting to send to a full queue. */
  lemma QuietSenderWaits(q: Q, t: Task, p: nat)
    requires q.Inv() && q.phase.Idle? && |q.items| == q.length && p <= |q.senders|
    ensures Feasible(q, [Lock, CheckFull, WaitToSend(t, p), UnlockTx, UnlockRx])
    ensures Run(q, [Lock, CheckFull, WaitToSend(t, p), UnlockTx, UnlockRx])
            == q.(senders := InsertAt(q.senders, p, t), wokenS := 0)
  {
    hide InsertAt;
    InvLocks(q);
    var locked := q.Next(Lock);
    var full := locked.Next(CheckFull);
    var waits := full.Next(WaitToSend(t, p));
    RunStep(waits.Next(UnlockTx), UnlockRx, []);
    RunStep(waits, UnlockTx, [UnlockRx]);
    RunStep(full, WaitToSend(t, p), [UnlockTx, UnlockRx]);
    RunStep(locked, CheckFull, [WaitToSend(t, p), UnlockTx, UnlockRx]);
    RunStep(q, Lock, [CheckFull, WaitToSend(t, p), UnlockTx, UnlockRx]);
  }

  // ----- conservation ---------------------------------------------------------------------------

  /** A step stores one item at an end, takes out the first item, or moves none. */
  lemma StepMovesOne(q: Q, s: Step)
    requires q.Enabled(s)
    ensures var r := q.Next(s);
            || (r.sent == q.sent && r.got == q.got && r.items == q.items)
            || ((s.Send? || s.SendFromIsr?) && r.sent == q.sent + [s.item] && r.got == q.got
                && r.items == if s.back then q.items + [s.item] else [s.item] + q.items)
            || (q.items != [] && r.sent == q.sent && r.got == q.got + [q.items[0]] && r.items == q.items[1..])
  {
    hide Q.UnlockTx, Q.UnlockRx, InsertAt, RemoveAt;
    UnlockTxWakes(q);
    UnlockRxWakes(q);
  }

  ghost predicate Conserved(q: Q) {
    multiset(q.sent) == multiset(q.got) + multiset(q.items)
  }

  lemma StoringConserves(sent: seq<Entry>, got: seq<Entry>, items: seq<Entry>, x: Entry, back: bool)
    requires multiset(sent) == multiset(got) + multiset(items)
    ensures multiset(sent + [x]) == multiset(got) + multiset(if back then items + [x] else [x] + items)
  {
  }

  lemma TakingConserves(sent: seq<Entry>, got: seq<Entry>, items: seq<Entry>)
    requires items != [] && multiset(sent) == multiset(got) + multiset(items)
    ensures multiset(sent) == multiset(got + [items[0]]) + multiset(items[1..])
  {
    assert items == [items[0]] + items[1..];
  }

  lemma NextConserves(q: Q, s: Step)
    requires Conserved(q) && q.Enabled(s)
    ensures Conserved(q.Next(s))
  {
    hide Q.Next, Q.Enabled;
    var r := q.Next(s);
    StepMovesOne(q, s);
    if |r.got| > |q.got| {
      TakingConserves(q.sent, q.got, q.items);
    } else if |r.sent| > |q.sent| {
      StoringConserves(q.sent, q.got, q.items, s.item, s.back);
    }
  }

  /** Every item stored is taken out once or is still there, in every run. */
  lemma {:induction false} ItemsConserved(q: Q, steps: seq<Step>)
    requires Conserved(q) && Feasible(q, steps)
    ensures Conserved(Run(q, steps))
    decreases |steps|
  {
    if steps != [] {
      NextConserves(q, steps[0]);
      ItemsConserved(q.Next(steps[0]), steps[1..]);
    }
  }

  ghost predicate ToBack(s: Step) {
    (s.Send? || s.SendFromIsr?) ==> s.back
  }

  lemma NextInOrder(q: Q, s: Step)
    requires q.sent == q.got + q.items && q.Enabled(s) && ToBack(s)
    ensures q.Next(s).sent == q.Next(s).got + q.Next(s).items
  {
    hide Q.Next, Q.Enabled;
    StepMovesOne(q, s);
    if q.items != [] {
      assert q.items == [q.items[0]] + q.items[1..];
    }
  }

  /** When all sends are to the back, items come out in the order in which they were stored. */
  lemma {:induction false} FirstInFirstOut(q: Q, steps: seq<Step>)
    requires q.sent == q.got + q.items && Feasible(q, steps) && forall s :: s in steps ==> ToBack(s)
    ensures Run(q, steps).sent == Run(q, steps).got + Run(q, steps).items
    decreases |steps|
  {
    if steps != [] {
      NextInOrder(q, steps[0]);
      FirstInFirstOut(q.Next(steps[0]), steps[1..]);
    }
  }

  /** An item sent to the front is the next one received, and leaves the rest as it was. */
  lemma FrontIsNext(q: Q, item: Entry, t: Task)
    requires |q.items| < q.length
    ensures var r := q.Send(item, false).Receive(false, t); r.items == q.items && r.got == q.got + [item]
  {
    var s := q.Send(item, false);
    assert s.items == [item] + q.items;
  }

  /** A send that an interrupt makes while the queue is locked wakes one receiver more when the
      queue is unlocked, if one is left. */
  lemma HeldBackSendWakes(q: Q, item: Entry, back: bool)
    requires 0 <= q.tx && |q.items| < q.length
    ensures q.SendFromIsr(item, back).UnlockTx().receivers == q.receivers[Min(q.tx + 1, |q.receivers|)..]
    ensures q.UnlockTx().receivers == q.receivers[Min(q.tx, |q.receivers|)..]
  {
    hide Q.UnlockTx;
    UnlockTxWakes(q);
    UnlockTxWakes(q.SendFromIsr(item, back));
  }

  /** So does a removal with the senders. */
  lemma HeldBackRemovalWakes(q: Q)
    requires 0 <= q.rx && q.items != []
    ensures q.ReceiveFromIsr().UnlockRx().senders == q.senders[Min(q.rx + 1, |q.senders|)..]
    ensures q.UnlockRx().senders == q.senders[Min(q.rx, |q.senders|)..]
  {
    hide Q.UnlockRx;
    UnlockRxWakes(q);
    UnlockRxWakes(q.ReceiveFromIsr());
  }

  /** While a task holds the queue locked, interrupts leave both lists of waiting tasks alone. */
  lemma LockedListsAreStill(q: Q, s: Step)
    requires q.Inv() && (s.SendFromIsr? || s.ReceiveFromIsr?)
    ensures !q.phase.Idle? && !q.phase.TxUnlocked? ==> q.Next(s).receivers == q.receivers
    ensures !q.phase.Idle? ==> q.Next(s).senders == q.senders
  {
    InvLocks(q);
  }

  /** n peeks in a row. */
  function Peeks(q: Q, n: nat, t: Task): Q {
    if n == 0 then q else Peeks(q, n - 1, t).Receive(true, t)
  }

  /** A task that only looks passes the wake-up on: the items stay, and as many waiting receivers are
      woken as there are looks, so that all of them see the item. */
  lemma {:induction false} PeeksWakeAll(q: Q, n: nat, t: Task)
    requires q.items != [] && n <= |q.receivers|
    ensures Peeks(q, n, t) == q.(receivers := q.receivers[n..], wokenR := q.wokenR + n)
    decreases n
  {
    if 0 < n {
      PeeksWakeAll(q, n - 1, t);
    }
  }

  /** A task that joins a list and leaves it again, as when its wait has timed out, leaves the list as
      it was. */
  lemma JoinThenLeave(q: Q, t: Task, p: nat)
    ensures q.Enabled(WaitToReceive(t, p)) ==>
              && q.Next(WaitToReceive(t, p)).Enabled(StopReceiving(p))
              && q.Next(WaitToReceive(t, p)).Next(StopReceiving(p)).receivers == q.receivers
    ensures q.Enabled(WaitToSend(t, p)) ==>
              && q.Next(WaitToSend(t, p)).Enabled(StopSending(p))
              && q.Next(WaitToSend(t, p)).Next(StopSending(p)).senders == q.senders
  {
    if p <= |q.receivers| { assert RemoveAt(InsertAt(q.receivers, p, t), p) == q.receivers; }
    if p <= |q.senders| { assert RemoveAt(InsertAt(q.senders, p, t), p) == q.senders; }
  }

  // ----- mutexes --------------------------------------------------------------------------------

  /** xQueueCreateMutex: a queue for one item of no bytes, which is then sent to it. */
  function CreatedMutex(): Q {
    Created(1).(mutex := true).Send([], true)
  }

  /** Who has taken the mutex last. */
  datatype Taker = NoTaker | TakenBy(task: Task) | TakenByIsr

  /** The same after a step and before it. */
  function TookLast(q: Q, s: Step, before: Taker): Taker {
    match s
    case ReceiveFromIsr => if q.items != [] then TakenByIsr else before
    case Receive(peek, t) => if !peek && q.items != [] then TakenBy(t) else before
    case _ => before
  }

  /** The same after a run. */
  ghost function LastTaker(q: Q, steps: seq<Step>, before: Taker): Taker
    requires Feasible(q, steps)
    decreases |steps|
  {
    if steps == [] then before else LastTaker(q.Next(steps[0]), steps[1..], TookLast(q, steps[0], before))
  }

  /** The holder is the task that took the mutex last, as long as it is taken. */
  ghost predicate HolderKnown(q: Q, taker: Taker) {
    q.Inv() && q.mutex && q.length == 1
    && q.holder == if q.items == [] && taker.TakenBy? then Somebody(taker.task) else Nobody
  }

  lemma NextKnowsHolder(q: Q, s: Step, taker: Taker)
    requires HolderKnown(q, taker) && q.Enabled(s)
    ensures HolderKnown(q.Next(s), TookLast(q, s, taker))
  {
    hide Q.UnlockTx, Q.UnlockRx, InsertAt, RemoveAt, Q.Inv;
    InvBounds(q);
    NextKeepsInv(q, s);
    UnlockTxWakes(q);
    UnlockRxWakes(q);
  }

  lemma InvBounds(q: Q)
    requires q.Inv()
    ensures |q.items| <= q.length && (q.phase.Idle? ==> q.tx == q.rx == UNLOCKED)
    ensures (q.phase.Locked? ==> 0 <= q.tx) && (q.phase.FoundEmpty? ==> |q.items| <= q.tx)
  {
  }

  lemma {:induction false} RunKnowsHolder(q: Q, steps: seq<Step>, taker: Taker)
    requires HolderKnown(q, taker) && Feasible(q, steps)
    ensures HolderKnown(Run(q, steps), LastTaker(q, steps, taker))
    decreases |steps|
  {
    hide HolderKnown, Q.Next, Q.Enabled, TookLast;
    if steps != [] {
      NextKnowsHolder(q, steps[0], taker);
      RunKnowsHolder(q.Next(steps[0]), steps[1..], TookLast(q, steps[0], taker));
    }
  }

  /** In every run the holder of a mutex is the task that took it last; it lacks a holder exactly while
      it is free or the latest to take it was an interrupt.  A task that has found it taken, and goes
      on to lend its priority to the holder, finds none exactly if it is free again by then or an
      interrupt took it. */
  lemma HolderIsMissingExactlyWhen(steps: seq<Step>)
    requires Feasible(CreatedMutex(), steps)
    ensures var q, taker := Run(CreatedMutex(), steps), LastTaker(CreatedMutex(), steps, NoTaker);
            && (q.items == [] ==> !taker.NoTaker?)
            && (q.holder.Nobody? <==> q.items != [] || taker.TakenByIsr?)
            && (q.holder.Somebody? ==> taker == TakenBy(q.holder.task))
            && (q.phase.FoundEmpty? && q.items != [] ==> 0 < q.tx)
  {
    RunKnowsHolder(CreatedMutex(), steps, NoTaker);
    RunKnowsTaker(CreatedMutex(), steps, NoTaker);
    InvBounds(Run(CreatedMutex(), steps));
  }

  lemma {:induction false} RunKnowsTaker(q: Q, steps: seq<Step>, taker: Taker)
    requires (q.items == [] ==> !taker.NoTaker?) && Feasible(q, steps)
    ensures Run(q, steps).items == [] ==> !LastTaker(q, steps, taker).NoTaker?
    decreases |steps|
  {
    hide Q.UnlockTx, Q.UnlockRx, InsertAt, RemoveAt;
    if steps != [] {
      UnlockTxWakes(q);
      UnlockRxWakes(q);
      RunKnowsTaker(q.Next(steps[0]), steps[1..], TookLast(q, steps[0], taker));
    }
  }

  lemma {:induction false} StaysUnheld(q: Q, steps: seq<Step>)
    requires !q.mutex && q.holder.Nobody? && Feasible(q, steps)
    ensures Run(q, steps).holder.Nobody?
    decreases |steps|
  {
    hide Q.UnlockTx, Q.UnlockRx, InsertAt, RemoveAt;
    if steps != [] {
      UnlockTxWakes(q);
      UnlockRxWakes(q);
      StaysUnheld(q.Next(steps[0]), steps[1..]);
    }
  }

  /** A queue that is no mutex never has a holder. */
  lemma OnlyMutexesAreHeld(length: nat, steps: seq<Step>)
    requires Feasible(Created(length), steps)
    ensures Run(Created(length), steps).holder.Nobody?
  {
    StaysUnheld(Created(length), steps);
  }

  lemma {:induction false} InterruptNeverTakes(q: Q, steps: seq<Step>, taker: Taker)
    requires !taker.TakenByIsr? && Feasible(q, steps) && forall s :: s in steps ==> !s.ReceiveFromIsr?
    ensures !LastTaker(q, steps, taker).TakenByIsr?
    decreases |steps|
  {
    hide Q.Next, Q.Enabled;
    if steps != [] {
      InterruptNeverTakes(q.Next(steps[0]), steps[1..], TookLast(q, steps[0], taker));
    }
  }

  /** From when a task has locked the mutex, and unless an interrupt takes it, the lock count tells
      whether an interrupt has given it. */
  ghost predicate GivesCounted(q: Q) {
    q.Inv() && q.length == 1 && (q.phase.Locked? ==> q.tx <= |q.items|) && (q.phase.FoundEmpty? ==> q.tx == |q.items|)
  }

  lemma NextCountsGives(q: Q, s: Step)
    requires GivesCounted(q) && q.Enabled(s) && !s.ReceiveFromIsr?
    ensures GivesCounted(q.Next(s))
  {
    hide Q.UnlockTx, Q.UnlockRx, InsertAt, RemoveAt, Q.Inv;
    InvBounds(q);
    NextKeepsInv(q, s);
    UnlockTxWakes(q);
    UnlockRxWakes(q);
  }

  lemma {:induction false} RunCountsGives(q: Q, steps: seq<Step>)
    requires GivesCounted(q) && Feasible(q, steps) && forall s :: s in steps ==> !s.ReceiveFromIsr?
    ensures GivesCounted(Run(q, steps))
    decreases |steps|
  {
    hide GivesCounted, Q.Next, Q.Enabled;
    if steps != [] {
      NextCountsGives(q, steps[0]);
      RunCountsGives(q.Next(steps[0]), steps[1..]);
    }
  }

  /** If no interrupt takes the mutex, it has a holder exactly while it is taken, and a task that has
      found it taken finds no holder exactly if xTxLock has counted a send since. */
  lemma HolderIsKnownExactlyWhen(steps: seq<Step>)
    requires Feasible(CreatedMutex(), steps) && forall s :: s in steps ==> !s.ReceiveFromIsr?
    ensures var q := Run(CreatedMutex(), steps);
            && (q.holder.Somebody? <==> q.items == [])
            && (q.phase.FoundEmpty? ==> (q.holder.Nobody? <==> 0 < q.tx))
  {
    HolderIsMissingExactlyWhen(steps);
    InterruptNeverTakes(CreatedMutex(), steps, NoTaker);
    RunCountsGives(CreatedMutex(), steps);
  }

  /** Such an interrupt: it gives the mutex just after the task has found it taken. */
  lemma GivenInBetween(t: Task)
    ensures var steps := [Receive(false, t), Lock, CheckEmpty, SendFromIsr([], true)];
            && Feasible(CreatedMutex(), steps)
            && Run(CreatedMutex(), steps).phase.FoundEmpty? && Run(CreatedMutex(), steps).holder.Nobody?
  {
    var q := CreatedMutex().Next(Receive(false, t));
    var gave := SendFromIsr([], true);
    RunStep(q.Next(Lock).Next(CheckEmpty), gave, []);
    RunStep(q.Next(Lock), CheckEmpty, [gave]);
    RunStep(q, Lock, [CheckEmpty, gave]);
    RunStep(CreatedMutex(), Receive(false, t), [Lock, CheckEmpty, gave]);
  }

  /** And once an interrupt has taken the mutex, it is taken and has no holder. */
  lemma TakenByInterrupt()
    ensures var steps := [ReceiveFromIsr, Lock, CheckEmpty];
            && Feasible(CreatedMutex(), steps)
            && Run(CreatedMutex(), steps).phase.FoundEmpty? && Run(CreatedMutex(), steps).holder.Nobody?
  {
    var q := CreatedMutex().Next(ReceiveFromIsr);
    RunStep(q.Next(Lock), CheckEmpty, []);
    RunStep(q, Lock, [CheckEmpty]);
    RunStep(CreatedMutex(), ReceiveFromIsr, [Lock, CheckEmpty]);
  }
}
