/** Two connected sockets again, now with their clocks: how long data can be under way. */
module Delivery {
  import opened Bytes
  import opened SocketQueues
  import opened Endpoints
  import opened Streams
  import opened Retransmission

  /** The longest time for which an entry stays sent: SPAN, and two ticks for each entry that can be
      queued behind it. */
  const LONGEST: nat := SPAN + 2 * DEPTH

  /** Both ends keep time. */
  ghost predicate BothTimed(n: Net) {
    Timed(n.a) && Timed(n.b)
  }

  lemma NextTimed(n: Net, s: Streams.Step)
    requires BothTimed(n)
    ensures BothTimed(Next(n, s))
  {
    hide Timed, Do;
    DoTimed(n.a, s.op);
    DoTimed(n.b, s.op);
  }

  lemma {:induction false} RunStaysTimed(n: Net, steps: seq<Streams.Step>)
    requires BothTimed(n) && Streams.Feasible(n, steps)
    ensures BothTimed(Streams.Run(n, steps))
    decreases |steps|
  {
    hide BothTimed, Next, Enabled;
    if steps != [] {
      NextTimed(n, steps[0]);
      RunStaysTimed(Next(n, steps[0]), steps[1..]);
    }
  }

  lemma BegunTimed(n: Net, i: nat, j: nat)
    requires Begun(n, i, j) && 0 < n.a.clock && 0 < n.b.clock
    ensures BothTimed(n)
  {
  }

  /** No sent entry of a timed socket is older than LONGEST. */
  lemma NoneTooOld(x: Endpoint, e: Entry)
    requires Timed(x) && e in Of(x.queue, SentPacket)
    ensures e.Sent? && e.tSent <= x.clock <= e.tSent + LONGEST
  {
    var s := Of(x.queue, SentPacket);
    OfIsPart(x.queue, SentPacket);
    var j :| 0 <= j < |s| && s[j] == e;
    assert DueFor(s, j, x.clock, x.rexmit);
  }

  // ----- what a sender adds -------------------------------------------------------------------------

  /** x has become r: time and the stream have gone on, and what r holds for retransmission x held
      already, or it belongs to what has been accepted since. */
  ghost predicate WentOn(x: Endpoint, r: Endpoint) {
    && x.clock <= r.clock && x.seqn <= r.seqn && x.accepted <= r.accepted
    && forall e :: e in Of(r.queue, SentPacket) ==> e in Of(x.queue, SentPacket) || (e.Sent? && x.seqn <= e.seqn)
  }

  lemma WentOnFurther(x: Endpoint, y: Endpoint, z: Endpoint)
    requires WentOn(x, y) && WentOn(y, z)
    ensures WentOn(x, z)
  {
  }

  lemma SendGoesOn(x: Endpoint, data: seq<Byte>, memory: bool)
    requires x.seqn + |data| < WORD
    ensures WentOn(x, x.Send(data, memory).e)
  {
    hide Of, Emit;
    QueueingAppends(x.queue, Entry.Sent(x.seqn, x.clock, data), SentPacket);
  }

  lemma NothingSent()
    ensures Of([], SentPacket) == []
  {
  }

  lemma TickGoesOn(x: Endpoint)
    ensures WentOn(x, x.Tick().e) && WentOn(x, x.Close().e)
  {
    hide Of, Emit, Xor2, Find;
    NothingSent();
  }

  lemma ReceiveGoesOn(x: Endpoint, max: nat)
    ensures WentOn(x, x.Receive(max).e)
  {
    hide Of, Find, Evicted;
    EvictingPops(x.queue, ReceivedPacket, SentPacket);
  }

  lemma DeliverGoesOn(x: Endpoint, s: Segment, memory: bool)
    requires Usual(x) && (s.flags == RstAck || Midstream(s.flags))
    ensures WentOn(x, x.Process(s, memory).e)
  {
    hide Of, Endpoint.Process;
    NothingSent();
    if Midstream(s.flags) && x.Connected() {
      MidstreamIsAck(x, s, memory);
      AckKeeps(x, s, memory);
      AckTakesNoTime(x, s, memory);
    } else {
      OtherwiseQuiet(x, s, memory);
    }
  }

  lemma AckTakesNoTime(x: Endpoint, s: Segment, memory: bool)
    ensures x.ProcessAck(s, memory).e.clock == x.clock
  {
    hide Expired, Emit, HasRoom;
  }

  lemma AtAGoesOn(n: Net, i: nat, j: nat, op: Op)
    requires Inv(n, i, j) && Enabled(n, Streams.Step(true, op))
    ensures WentOn(n.a, Do(n.a, op).e)
  {
    hide Held, Carries, Endpoint.Send, Endpoint.Receive, Endpoint.Close, Endpoint.Tick, Endpoint.Process;
    match op
    case Send(data, memory) => SendGoesOn(n.a, data, memory);
    case Receive(max) => ReceiveGoesOn(n.a, max);
    case Close => TickGoesOn(n.a);
    case Tick => TickGoesOn(n.a);
    case Deliver(segment, memory) => DeliverGoesOn(n.a, segment, memory);
  }

  lemma NextGoesOn(n: Net, i: nat, j: nat, s: Streams.Step)
    requires Inv(n, i, j) && Enabled(n, s)
    ensures WentOn(n.a, Next(n, s).a) && WentOn(n.b, Next(n, s).b)
  {
    hide Flow, Do, WentOn;
    StaysItself(n.a);
    StaysItself(n.b);
    if s.atA {
      AtAGoesOn(n, i, j, s.op);
    } else {
      AtAGoesOn(n.Turned(), j, i, s.op);
    }
  }

  lemma {:induction false} RunGoesOn(n: Net, i: nat, j: nat, steps: seq<Streams.Step>)
    requires Inv(n, i, j) && Streams.Feasible(n, steps)
    ensures WentOn(n.a, Streams.Run(n, steps).a) && WentOn(n.b, Streams.Run(n, steps).b)
    decreases |steps|
  {
    hide Inv, WentOn, Next, Enabled;
    if steps == [] {
      StaysItself(n.a);
      StaysItself(n.b);
    } else {
      var m, r := Next(n, steps[0]), Streams.Run(n, steps);
      NextGoesOn(n, i, j, steps[0]);
      NextKeepsInv(n, i, j, steps[0]);
      RunGoesOn(m, i, j, steps[1..]);
      WentOnFurther(n.a, m.a, r.a);
      WentOnFurther(n.b, m.b, r.b);
    }
  }

  lemma StaysItself(x: Endpoint)
    ensures WentOn(x, x)
  {
  }

  // ----- delivery -----------------------------------------------------------------------------------

  /** More than LONGEST ticks later none of the entries that x held is left, so that everything it
      had accepted has been queued. */
  lemma OldDataArrived(x: Endpoint, y: Endpoint, xy: set<Segment>, yx: set<Segment>, i: nat, was: Endpoint)
    requires Flow(x, y, xy, yx, i) && x.Connected() && WentOn(was, x) && was.seqn == i + |was.accepted|
    requires Timed(was) && Timed(x) && was.clock + LONGEST < x.clock
    ensures was.accepted <= y.queued
  {
    hide Timed, Of;
    var s := Of(x.queue, SentPacket);
    if s != [] {
      NoneTooOld(x, s[0]);
      if s[0] in Of(was.queue, SentPacket) { NoneTooOld(was, s[0]); }
    }
    assert was.seqn <= Oldest(s, x.seqn) <= y.ackn;
    assert was.accepted == x.accepted[..|was.accepted|] && y.queued == x.accepted[..|y.queued|];
  }

  /** In every reachable state no sent entry is older than LONGEST, at either end. */
  lemma EntriesAreYoung(n: Net, i: nat, j: nat, steps: seq<Streams.Step>, e: Entry)
    requires Begun(n, i, j) && 0 < n.a.clock && 0 < n.b.clock && Streams.Feasible(n, steps)
    ensures var r := Streams.Run(n, steps);
            && (e in Of(r.a.queue, SentPacket) ==> e.Sent? && e.tSent <= r.a.clock <= e.tSent + LONGEST)
            && (e in Of(r.b.queue, SentPacket) ==> e.Sent? && e.tSent <= r.b.clock <= e.tSent + LONGEST)
  {
    hide Timed, Begun, Of;
    BegunTimed(n, i, j);
    RunStaysTimed(n, steps);
    var r := Streams.Run(n, steps);
    if e in Of(r.a.queue, SentPacket) { NoneTooOld(r.a, e); }
    if e in Of(r.b.queue, SentPacket) { NoneTooOld(r.b, e); }
  }

  /** Delivery is bounded: whatever the network loses, repeats and reorders, all that send has
      accepted at one end has been queued for recv at the other more than LONGEST ticks later, in
      order and whole, or the connection has been given up. */
  lemma DeliveredInTime(n: Net, i: nat, j: nat, first: seq<Streams.Step>, rest: seq<Streams.Step>)
    requires Begun(n, i, j) && 0 < n.a.clock && 0 < n.b.clock && Streams.Feasible(n, first)
    requires Streams.Feasible(Streams.Run(n, first), rest)
    ensures var m := Streams.Run(n, first);
            var r := Streams.Run(m, rest);
            && (r.a.Connected() && m.a.clock + LONGEST < r.a.clock ==> m.a.accepted <= r.b.queued)
            && (r.b.Connected() && m.b.clock + LONGEST < r.b.clock ==> m.b.accepted <= r.a.queued)
  {
    hide Timed, Begun, WentOn, Held, Carries;
    BegunTimed(n, i, j);
    BegunInv(n, i, j);
    RunKeepsInv(n, i, j, first);
    RunStaysTimed(n, first);
    var m := Streams.Run(n, first);
    RunKeepsInv(m, i, j, rest);
    RunStaysTimed(m, rest);
    RunGoesOn(m, i, j, rest);
    var r := Streams.Run(m, rest);
    if r.a.Connected() && m.a.clock + LONGEST < r.a.clock {
      OldDataArrived(r.a, r.b, r.ab, r.ba, i, m.a);
    }
    if r.b.Connected() && m.b.clock + LONGEST < r.b.clock {
      OldDataArrived(r.b, r.a, r.ba, r.ab, j, m.b);
    }
  }
}
