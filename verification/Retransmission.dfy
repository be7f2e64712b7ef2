/** How long one endpoint keeps trying, whatever segments come in. */
module Retransmission {
  import opened Bytes
  import opened SocketQueues
  import opened Endpoints

  /** Twice the time limit, and the rounding of the timer. */
  const SPAN: nat := 2 * MAX_RETX_TIME + 2

  /** Of the sent entries s, number j has been queued before those behind it, and the next
      retransmission is due no later than SPAN after it, and two ticks more for each of those. */
  ghost predicate DueFor(s: Queue, j: nat, clock: nat, rexmit: nat)
    requires j < |s|
  {
    && s[j].Sent? && s[j].tSent <= clock && rexmit <= s[j].tSent + SPAN + 2 * (|s| - 1 - j)
    && forall k :: j <= k < |s| ==> s[k].Sent? && s[j].tSent <= s[k].tSent
  }

  ghost predicate AllDue(s: Queue, clock: nat, rexmit: nat) {
    && (s != [] ==> clock <= rexmit)
    && forall j :: 0 <= j < |s| ==> DueFor(s, j, clock, rexmit)
  }

  ghost predicate Timed(e: Endpoint) {
    && 0 < e.clock && |e.queue| <= DEPTH + 1 && AllDue(Of(e.queue, SentPacket), e.clock, e.rexmit)
  }

  lemma DropKeepsDue(s: Queue, m: nat, clock: nat, rexmit: nat)
    requires AllDue(s, clock, rexmit) && m <= |s|
    ensures AllDue(s[m..], clock, rexmit)
  {
    forall j | 0 <= j < |s[m..]| ensures DueFor(s[m..], j, clock, rexmit) {
      assert DueFor(s, m + j, clock, rexmit);
    }
  }

  /** A new entry puts the timer off by two ticks at most. */
  lemma SendKeepsDue(s: Queue, clock: nat, rexmit: nat, seqn: nat, data: seq<Byte>)
    requires AllDue(s, clock, rexmit)
    ensures AllDue(s + [Sent(seqn, clock, data)], clock, clock + 2)
  {
    var r, due := s + [Sent(seqn, clock, data)], clock + 2;
    forall j | 0 <= j < |r| ensures DueFor(r, j, clock, due) {
      if j < |s| { assert DueFor(s, j, clock, rexmit); }
      forall k | j <= k < |r| ensures r[k].Sent? && r[j].tSent <= r[k].tSent {
        if k < |s| { assert DueFor(s, k, clock, rexmit); }
      }
    }
  }

  /** A retransmission of the oldest entry keeps the timer within the bound of every entry. */
  lemma FireKeepsDue(s: Queue, was: nat, clock: nat, rexmit: nat)
    requires AllDue(s, was, rexmit) && s != [] && was <= clock
    requires s[0].Sent? && s[0].tSent <= clock <= s[0].tSent + MAX_RETX_TIME
    ensures AllDue(s, clock, clock + Xor2(clock - s[0].tSent))
  {
    hide Xor2;
    var due := clock + Xor2(clock - s[0].tSent);
    Xor2Bound(clock - s[0].tSent);
    forall j | 0 <= j < |s| ensures DueFor(s, j, clock, due) {
      assert DueFor(s, j, was, rexmit) && DueFor(s, 0, was, rexmit);
    }
  }

  lemma Xor2Bound(a: nat)
    ensures Xor2(a) <= a + 2
  {
  }

  lemma WaitKeepsDue(s: Queue, was: nat, clock: nat, rexmit: nat)
    requires AllDue(s, was, rexmit) && was <= clock <= rexmit
    ensures AllDue(s, clock, rexmit)
  {
    forall j | 0 <= j < |s| ensures DueFor(s, j, clock, rexmit) {
      assert DueFor(s, j, was, rexmit);
    }
  }

  lemma {:induction false} OfIsPart(q: Queue, k: Kind)
    ensures |Of(q, k)| <= |q| && forall e :: e in q && e.Kind() == k ==> e in Of(q, k)
  {
    if q != [] {
      OfIsPart(q[1..], k);
    }
  }

  // ----- the operations -------------------------------------------------------------------------------

  lemma SendTimed(e: Endpoint, data: seq<Byte>, memory: bool)
    requires Timed(e)
    ensures Timed(e.Send(data, memory).e)
  {
    hide AllDue, Of;
    SendKeepsDue(Of(e.queue, SentPacket), e.clock, e.rexmit, e.seqn, data);
    QueueingAppends(e.queue, Sent(e.seqn, e.clock, data), SentPacket);
  }

  lemma ReceiveTimed(e: Endpoint, max: nat)
    requires Timed(e)
    ensures Timed(e.Receive(max).e)
  {
    hide AllDue, Of;
    EvictingPops(e.queue, ReceivedPacket, SentPacket);
  }

  lemma NothingDue(clock: nat, rexmit: nat)
    ensures Of([], SentPacket) == [] && AllDue([], clock, rexmit)
  {
  }

  lemma TickTimed(e: Endpoint)
    requires Timed(e)
    ensures Timed(e.Tick().e)
  {
    hide AllDue, DueFor, Of, Xor2;
    var s := Of(e.queue, SentPacket);
    var was, clock := e.clock, e.clock + 1;
    EvictingPops(e.queue, SentPacket, ReceivedPacket);
    OfIsPart(e.queue, SentPacket);
    NothingDue(clock, e.rexmit);
    if s == [] {
      NothingDue(clock, 0);
    } else if clock < e.rexmit {
      WaitKeepsDue(s, was, clock, e.rexmit);
    } else {
      AgeOfOldest(s, was, e.rexmit);
      if clock - s[0].tSent <= MAX_RETX_TIME {
        FireKeepsDue(s, was, clock, e.rexmit);
      }
    }
  }

  /** The timer is set while anything waits for acknowledgement, and the oldest entry is young
      enough for its age to be computed without wrap-around. */
  lemma AgeOfOldest(s: Queue, clock: nat, rexmit: nat)
    requires AllDue(s, clock, rexmit) && s != [] && |s| <= DEPTH + 1
    ensures clock <= rexmit && s[0].Sent? && s[0].tSent <= clock <= s[0].tSent + SPAN + 2 * DEPTH
    ensures (clock + 1 - s[0].tSent) % WORD == clock + 1 - s[0].tSent
  {
    assert DueFor(s, 0, clock, rexmit);
  }

  lemma ProcessTimed(e: Endpoint, s: Segment, memory: bool)
    requires Timed(e)
    ensures Timed(e.Process(s, memory).e)
  {
    hide AllDue, Of, Emit, Expired, DropAcked, Add32;
    var q := Of(e.queue, SentPacket);
    ExpiryDropsAcked(e.queue, s.ackn, SentPacket);
    QueueingAppends(Expired(e.queue, s.ackn), Recv(s.data), SentPacket);
    DropKeepsDue(q, |q| - |DropAcked(q, s.ackn)|, e.clock, e.rexmit);
    NothingDue(e.clock, e.rexmit);
  }

  lemma DoTimed(e: Endpoint, op: Op)
    requires Timed(e)
    ensures Timed(Do(e, op).e)
  {
    hide AllDue, Of, Endpoint.Send, Endpoint.Receive, Endpoint.Process, Endpoint.Tick;
    match op
    case Send(data, memory) => SendTimed(e, data, memory);
    case Receive(max) => ReceiveTimed(e, max);
    case Deliver(s, memory) => ProcessTimed(e, s, memory);
    case Tick => TickTimed(e);
    case Close => NothingDue(e.clock, e.rexmit);
  }

  // ----- runs -----------------------------------------------------------------------------------------

  function Run(e: Endpoint, ops: seq<Op>): Endpoint
    decreases |ops|
  {
    if ops == [] then e else Run(Do(e, ops[0]).e, ops[1..])
  }

  lemma {:induction false} RunTimed(e: Endpoint, ops: seq<Op>)
    requires Timed(e)
    ensures Timed(Run(e, ops))
    decreases |ops|
  {
    hide Timed, Do;
    if ops != [] {
      DoTimed(e, ops[0]);
      RunTimed(Do(e, ops[0]).e, ops[1..]);
    }
  }

  /** In any run from an empty queue, whatever segments arrive, the timer is set while a sent entry
      is queued, the queue holds one entry more than its nominal depth at most, and no sent entry
      stays queued for longer than 2 * MAX_RETX_TIME + 2 + 2 * ESIX_QUEUE_DEPHT ticks, although
      every send puts the timer off. */
  lemma RetransmissionIsBounded(e: Endpoint, ops: seq<Op>, sent: Entry)
    requires e.queue == [] && 0 < e.clock
    requires sent in Run(e, ops).queue && sent.Sent?
    ensures var r := Run(e, ops);
            && r.rexmit != 0 && |r.queue| <= DEPTH + 1
            && sent.tSent <= r.clock <= sent.tSent + 2 * MAX_RETX_TIME + 2 + 2 * DEPTH
  {
    NothingDue(e.clock, e.rexmit);
    RunTimed(e, ops);
    var r := Run(e, ops);
    var s := Of(r.queue, SentPacket);
    OfIsPart(r.queue, SentPacket);
    var j :| 0 <= j < |s| && s[j] == sent;
    assert DueFor(s, j, r.clock, r.rexmit);
  }

  // ----- the schedule of one segment ------------------------------------------------------------------

  /** Until its date has come the timer does nothing. */
  lemma TimerWaits(e: Endpoint)
    requires e.clock + 1 < e.rexmit
    ensures e.Tick() == Act(e.(clock := e.clock + 1), [])
  {
  }

  /** The ages, in ticks, at which a segment is sent again. */
  const RESENT_AT: set<nat> := {2, 3, 4, 10, 18, 34, 66}

  /** The age at which the connection is given up. */
  const GIVEN_UP_AT: nat := 130

  /** The age that the timer is set to while the segment has age a.  At age 2 it is set to the present,
      since a ^ 2 is then 0. */
  function Alarm(a: nat): nat {
    if a < 3 then 2 else if a < 4 then 4 else if a < 10 then 10 else if a < 18 then 18
    else if a < 34 then 34 else if a < 66 then 66 else GIVEN_UP_AT
  }

  lemma AlarmIsSet(a: nat)
    requires a in RESENT_AT
    ensures a + Xor2(a) == Alarm(a)
  {
  }

  /** Socket e has one unacknowledged segment x, which has age a. */
  ghost predicate Unacknowledged(e: Endpoint, x: Entry, a: nat) {
    Of(e.queue, SentPacket) == [x] && x.Sent? && e.clock == x.tSent + a && e.rexmit == x.tSent + Alarm(a)
  }

  /** The one is what the search for a sent entry finds. */
  lemma LoneIsFound(e: Endpoint, x: Entry, a: nat)
    requires Unacknowledged(e, x, a)
    ensures Find(e.queue, SentPacket) < |e.queue| && e.queue[Find(e.queue, SentPacket)] == x
  {
    hide Of, Find, Alarm;
    EvictingPops(e.queue, SentPacket, ReceivedPacket);
  }

  /** The alarm goes at those ages and at no other, and otherwise stays as it was set. */
  lemma AlarmGoes(a: nat)
    requires a < GIVEN_UP_AT
    ensures 0 < Alarm(a) && (Alarm(a) <= a + 1 <==> a + 1 in RESENT_AT || a + 1 == GIVEN_UP_AT)
    ensures a + 1 < Alarm(a) ==> Alarm(a + 1) == Alarm(a)
  {
  }

  lemma AgeIs(e: Endpoint, x: Entry, a: nat)
    requires x.Sent? && e.clock == x.tSent + a && a <= GIVEN_UP_AT
    ensures e.Age(x) == a
  {
  }

  /** One tick. */
  lemma TickOnSchedule(e: Endpoint, x: Entry, a: nat)
    requires Unacknowledged(e, x, a) && a < GIVEN_UP_AT
    ensures var act, b := e.Tick(), a + 1;
            if b < GIVEN_UP_AT then
              && act == Act(e.(clock := e.clock + 1, rexmit := x.tSent + Alarm(b)),
                            if b in RESENT_AT then Emit(PshAck, x.seqn, e.ackn, x.data) else [])
              && Unacknowledged(act.e, x, b)
            else act == Act(e.(clock := e.clock + 1).Shut(), Emit(RstAck, e.seqn, e.ackn, []))
  {
    hide Of, Emit, Xor2, Find, Alarm, Endpoint.Age;
    LoneIsFound(e, x, a);
    AlarmGoes(a);
    AgeIs(e.(clock := e.clock + 1), x, a + 1);
    if a + 1 in RESENT_AT { AlarmIsSet(a + 1); }
  }

  /** What a socket is after n ticks without anything else. */
  function Ticks(e: Endpoint, n: nat): Endpoint {
    if n == 0 then e else Ticks(e, n - 1).Tick().e
  }

  lemma {:induction false} OnSchedule(e: Endpoint, x: Entry, n: nat)
    requires Unacknowledged(e, x, 0) && n < GIVEN_UP_AT
    ensures Unacknowledged(Ticks(e, n), x, n)
    ensures Ticks(e, n) == e.(clock := e.clock + n, rexmit := x.tSent + Alarm(n))
    decreases n
  {
    hide Unacknowledged, Endpoint.Tick, Alarm, Emit;
    if n == 0 {
      AlarmAtFirst(e, x);
    } else {
      OnSchedule(e, x, n - 1);
      TickOnSchedule(Ticks(e, n - 1), x, n - 1);
    }
  }

  lemma AlarmAtFirst(e: Endpoint, x: Entry)
    requires Unacknowledged(e, x, 0)
    ensures e.rexmit == x.tSent + Alarm(0)
  {
  }

  /** Once the connection has been given up the timer sends nothing. */
  lemma {:induction false} SilentOnceClosed(e: Endpoint, n: nat)
    requires e.state == Closed && e.queue == []
    ensures Ticks(e, n).state == Closed && Ticks(e, n).queue == [] && Ticks(e, n).Tick().out == []
    decreases n
  {
    if 0 < n {
      SilentOnceClosed(e, n - 1);
    }
  }

  lemma {:induction false} TicksAdd(e: Endpoint, m: nat, n: nat)
    ensures Ticks(e, m + n) == Ticks(Ticks(e, m), n)
    decreases n
  {
    hide Endpoint.Tick;
    if 0 < n {
      TicksAdd(e, m, n - 1);
    }
  }

  lemma SentAlone(e: Endpoint, data: seq<Byte>)
    requires e.state == Established && HasRoom(e.queue) && Of(e.queue, SentPacket) == []
    ensures Unacknowledged(e.Send(data, true).e, Sent(e.seqn, e.clock, data), 0)
  {
    hide Of;
    QueueingAppends(e.queue, Sent(e.seqn, e.clock, data), SentPacket);
  }

  lemma GivesUp(e: Endpoint, x: Entry, n: nat)
    requires Unacknowledged(e, x, 0) && GIVEN_UP_AT <= n
    ensures Ticks(e, n).state == Closed
    ensures Ticks(e, n - 1).Tick().out == if n == GIVEN_UP_AT then Emit(RstAck, e.seqn, e.ackn, []) else []
  {
    hide Unacknowledged, Endpoint.Tick, Emit, Alarm;
    OnSchedule(e, x, GIVEN_UP_AT - 1);
    TickOnSchedule(Ticks(e, GIVEN_UP_AT - 1), x, GIVEN_UP_AT - 1);
    var shut := Ticks(e, GIVEN_UP_AT);
    SilentOnceClosed(shut, n - GIVEN_UP_AT);
    TicksAdd(e, GIVEN_UP_AT, n - GIVEN_UP_AT);
    if GIVEN_UP_AT < n {
      SilentOnceClosed(shut, n - GIVEN_UP_AT - 1);
      TicksAdd(e, GIVEN_UP_AT, n - GIVEN_UP_AT - 1);
    }
  }

  /** The whole life of a segment that is never acknowledged, sent while no other is: it goes out again
      2, 3, 4, 10, 18, 34 and 66 ticks after it was sent and at no other tick, and after 130 ticks the
      connection is reset. */
  lemma RetransmissionSchedule(e: Endpoint, data: seq<Byte>, n: nat)
    requires e.state == Established && HasRoom(e.queue) && Of(e.queue, SentPacket) == []
    requires |data| + TCP_HEADER < LENGTHS && 0 < n
    ensures var sent := e.Send(data, true);
            && sent.out == [Segment(PshAck, e.seqn, e.ackn, data)]
            && (Ticks(sent.e, n).state == if n < GIVEN_UP_AT then Established else Closed)
            && Ticks(sent.e, n - 1).Tick().out ==
                 if n in RESENT_AT then [Segment(PshAck, e.seqn, e.ackn, data)]
                 else if n == GIVEN_UP_AT then [Segment(RstAck, Add32(e.seqn, |data|), e.ackn, [])]
                 else []
  {
    hide Of, Unacknowledged, Endpoint.Tick, Alarm;
    var k, x := e.Send(data, true).e, Sent(e.seqn, e.clock, data);
    SentAlone(e, data);
    assert data[..|data|] == data;
    if n < GIVEN_UP_AT {
      OnSchedule(k, x, n);
      OnSchedule(k, x, n - 1);
      TickOnSchedule(Ticks(k, n - 1), x, n - 1);
    } else {
      GivesUp(k, x, n);
    }
  }
}
