/** What one socket goes through from opening to closing, whatever calls are made and whatever segments
    arrive. */
module Lifecycles {
  import opened Bytes
  import opened SocketQueues
  import opened Endpoints
  import opened Retransmission
  import Streams

  // ----- opening --------------------------------------------------------------------------------------

  /** The states that no call and no segment ever leads to. */
  const NEVER_ENTERED: set<State> := {FinWait1, CloseWait, Closing, LastAck, TimeWait}

  lemma NextState(e: Endpoint, op: Op)
    ensures Do(e, op).e.state in {e.state, Established, FinWait2, Closed}
    ensures Do(e, op).e.state == Established ==> e.state in {SynSent, SynReceived, Established}
    ensures Do(e, op).e.state == FinWait2 ==> e.state in {SynReceived, Established, FinWait2}
    ensures e.state == Closed ==> Do(e, op).e.state == Closed
  {
    hide Expired, Emit, Xor2, Find, HasRoom, Evicted;
    match op
    case Send(_, _) =>
    case Receive(_) =>
    case Close =>
    case Tick =>
    case Deliver(_, _) =>
  }

  /** Five of the states of the connection are never entered in any run. */
  lemma {:induction false} StatesNeverEntered(e: Endpoint, ops: seq<Op>)
    requires e.state !in NEVER_ENTERED
    ensures Run(e, ops).state !in NEVER_ENTERED
    decreases |ops|
  {
    hide Do;
    if ops != [] {
      NextState(e, ops[0]);
      StatesNeverEntered(Do(e, ops[0]).e, ops[1..]);
    }
  }

  /** A segment that opens a connection actively is one that acknowledges the socket's number, and not
      the one after it, which the SYN carried. */
  lemma OpenedExactlyWhen(e: Endpoint, s: Segment, memory: bool)
    requires e.state == SynSent
    ensures e.Process(s, memory).e.state == Established <==> s.flags == SynAck && s.ackn == e.seqn
  {
    hide Expired, Emit;
  }

  /** Whatever answers the SYN as section 3.4 of RFC 793 demands, with the number after that of the
      SYN. */
  predicate Proper(op: Op, syn: Segment) {
    op.Deliver? && op.segment.flags == SynAck ==> op.segment.ackn == Add32(syn.seqn, 1)
  }

  /** So connect never completes against a peer that acknowledges the SYN properly. */
  lemma ConnectNeverCompletes(e: Endpoint, ops: seq<Op>)
    requires e.state in {Reserved, Closed} && e.seqn < WORD
    requires var syn := Segment(Syn, Add32(e.seqn, 1), 0, []); forall op :: op in ops ==> Proper(op, syn)
    ensures e.Connect().out == [Segment(Syn, Add32(e.seqn, 1), 0, [])]
    ensures e.Connect().e == e.(state := SynSent, ackn := e.Connect().out[0].ackn)
    ensures Run(e.Connect().e, ops).state in {SynSent, Closed}
  {
    var syn := Segment(Syn, Add32(e.seqn, 1), 0, []);
    assert Add32(Add32(e.seqn, 1), 1) != e.seqn by { TwoAhead(e.seqn); }
    StaysUnopened(e.Connect().e, ops, syn);
  }

  lemma TwoAhead(n: nat)
    requires n < WORD
    ensures Add32(Add32(n, 1), 1) != n
  {
  }

  lemma {:induction false} StaysUnopened(e: Endpoint, ops: seq<Op>, syn: Segment)
    requires e.state in {SynSent, Closed} && (e.state == SynSent ==> Add32(syn.seqn, 1) != e.seqn)
    requires forall op :: op in ops ==> Proper(op, syn)
    ensures Run(e, ops).state in {SynSent, Closed}
    decreases |ops|
  {
    hide Do, Add32;
    if ops != [] {
      assert Proper(ops[0], syn);
      NextUnopened(e, ops[0], syn);
      StaysUnopened(Do(e, ops[0]).e, ops[1..], syn);
    }
  }

  lemma NextUnopened(e: Endpoint, op: Op, syn: Segment)
    requires e.state in {SynSent, Closed} && (e.state == SynSent ==> Add32(syn.seqn, 1) != e.seqn)
    requires Proper(op, syn)
    ensures Do(e, op).e.state in {SynSent, Closed}
    ensures Do(e, op).e.state == SynSent ==> Do(e, op).e.seqn == e.seqn && e.state == SynSent
  {
    hide Expired, Emit, Xor2, Find, HasRoom, Evicted, Add32;
    match op
    case Send(_, _) =>
    case Receive(_) =>
    case Close =>
    case Tick =>
    case Deliver(_, _) =>
  }

  /** And where a segment does open the connection, the peer's first data are queued exactly if the
      peer's number happens to be the one that it acknowledged: the code goes on from the wrong one. */
  lemma FirstDataQueuedExactlyWhen(e: Endpoint, s: Segment, data: seq<Byte>)
    requires e.state == SynSent && s.flags == SynAck && s.ackn == e.seqn < WORD && s.seqn < WORD
    requires HasRoom(e.queue) && data != []
    ensures var open := e.Process(s, true);
            && open.out == [Segment(Ack, e.seqn, Add32(s.ackn, 1), [])]
            && var next := open.e.Process(Segment(PshAck, Add32(s.seqn, 1), e.seqn, data), true).e;
               if s.seqn == s.ackn then next.queued == e.queued + data else next.queued == e.queued
  {
    hide Expired;
    ExpiryDropsAcked(e.queue, e.seqn, ReceivedPacket);
    ExpiredHasRoom(e.queue, e.seqn);
    NextNumbers(s.seqn, s.ackn);
  }

  lemma NextNumbers(a: nat, b: nat)
    requires a < WORD && b < WORD
    ensures Add32(a, 1) == Add32(b, 1) <==> a == b
  {
  }

  lemma {:induction false} ExpiredHasRoom(q: Queue, ackn: nat)
    ensures |Expired(q, ackn)| <= |q|
  {
    if q != [] {
      ExpiredHasRoom(q[1..], ackn);
    }
  }

  // ----- data -----------------------------------------------------------------------------------------

  /** A segment can be read at the other end exactly if its length, header included, is in 16 bits still
      that of a segment with a header; data short enough go out whole. */
  lemma ReadableExactlyWhen(flags: Flags, seqn: nat, ackn: nat, data: seq<Byte>)
    ensures Emit(flags, seqn, ackn, data) != [] <==> TCP_HEADER <= (|data| % LENGTHS + TCP_HEADER) % LENGTHS
    ensures |data| + TCP_HEADER < LENGTHS ==> Emit(flags, seqn, ackn, data) == [Segment(flags, seqn, ackn, data)]
  {
    assert data[..|data|] == data;
  }

  /** Which segments are answered: all but the next in order that carries no data or cannot be
      queued.  The answer tells what is expected next. */
  lemma AnsweredExactlyWhen(e: Endpoint, s: Segment, memory: bool)
    requires e.state == Established && s.flags in {Ack, PshAck, CwrPshAck}
    ensures var act := e.Process(s, memory);
            var queues := s.seqn == e.ackn && s.data != [] && HasRoom(Expired(e.queue, s.ackn)) && memory;
            && act.e.queued == (if queues then e.queued + s.data else e.queued)
            && (act.e.queued == e.queued ==> act.e.ackn == e.ackn)
            && act.out == if s.seqn == e.ackn && act.e.queued == e.queued then []
                          else [Segment(Ack, e.seqn, act.e.ackn, [])]
  {
    hide Expired, HasRoom;
  }

  /** What recv does: it hands out the first entry that waits, as far as the buffer reaches, and the
      rest of that entry is lost. */
  lemma ReceiveTakesFirst(e: Endpoint, max: nat)
    ensures var r, waiting := e.Receive(max).e, Of(e.queue, ReceivedPacket);
            if e.state != Established || waiting == [] then r == e
            else && waiting[0].Recv?
                 && var n := if |waiting[0].data| < max then |waiting[0].data| else max;
                    && r == e.(queue := r.queue, received := e.received + waiting[0].data[..n],
                               whole := e.whole && |waiting[0].data| <= max)
                    && Of(r.queue, ReceivedPacket) == waiting[1..]
                    && Of(r.queue, SentPacket) == Of(e.queue, SentPacket)
  {
    hide Of, Find, Evicted;
    EvictingPops(e.queue, ReceivedPacket, SentPacket);
    EvictingPops(e.queue, ReceivedPacket, ChildSocket);
  }

  /** n calls of recv in a row. */
  function Receives(e: Endpoint, max: nat, n: nat): Endpoint
    decreases n
  {
    if n == 0 then e else Receives(e.Receive(max).e, max, n - 1)
  }

  /** No entry that waits is longer than the buffer. */
  ghost predicate FitsIn(waiting: Queue, max: nat) {
    forall x :: x in waiting ==> x.Recv? && |x.data| <= max
  }

  lemma {:induction false} DrainsAll(e: Endpoint, max: nat, waiting: Queue)
    requires e.state == Established && waiting == Of(e.queue, ReceivedPacket) && FitsIn(waiting, max)
    requires e.whole && e.queued == e.received + Streams.Data(waiting)
    ensures Receives(e, max, |waiting|).received == e.queued && Receives(e, max, |waiting|).whole
    decreases |waiting|
  {
    hide Of, Endpoint.Receive;
    if waiting != [] {
      ReceiveTakesFirst(e, max);
      assert waiting[0] in waiting;
      var data := waiting[0].data;
      assert data[..|data|] == data;
      assert e.received + (data + Streams.Data(waiting[1..])) == e.received + data + Streams.Data(waiting[1..]);
      DrainsAll(e.Receive(max).e, max, waiting[1..]);
    }
  }

  lemma BegunInOrder(n: Streams.Net, i: nat, j: nat)
    requires Streams.Begun(n, i, j)
    ensures Streams.InOrder(n.a) && Streams.InOrder(n.b)
  {
  }

  /** In every run of two connected ends, a socket that is still established hands out all that it has
      queued, in as many calls of recv as entries wait, if no buffer is ever too small. */
  lemma AllIsHandedOut(n: Streams.Net, i: nat, j: nat, steps: seq<Streams.Step>, max: nat)
    requires Streams.Begun(n, i, j) && Streams.Feasible(n, steps)
    requires var b := Streams.Run(n, steps).b;
             b.state == Established && b.whole && FitsIn(Of(b.queue, ReceivedPacket), max)
    ensures var b := Streams.Run(n, steps).b;
            Receives(b, max, |Of(b.queue, ReceivedPacket)|).received == b.queued
  {
    hide Of, Streams.Inv, Streams.Feasible, Streams.Run, Receives;
    Streams.BegunInv(n, i, j);
    BegunInOrder(n, i, j);
    Streams.RunInOrder(n, i, j, steps);
    var b := Streams.Run(n, steps).b;
    DrainsAll(b, max, Of(b.queue, ReceivedPacket));
  }

  /** All that a sequence of calls of send passes. */
  function Joined(datas: seq<seq<Byte>>): seq<Byte> {
    if datas == [] then [] else datas[0] + Joined(datas[1..])
  }

  /** Such calls in a row, with no acknowledgement in between. */
  function Sends(e: Endpoint, datas: seq<seq<Byte>>): Endpoint
    decreases |datas|
  {
    if datas == [] then e else Sends(e.Send(datas[0], true).e, datas[1..])
  }

  /** The queue takes six entries, although ESIX_QUEUE_DEPHT is 5: of the data passed to send while
      nothing is acknowledged, the first six parts are accepted and no more. */
  lemma {:induction false} SixAreAccepted(e: Endpoint, datas: seq<seq<Byte>>)
    requires e.state == Established && |e.queue| <= 6
    ensures var taken := if |datas| < 6 - |e.queue| then |datas| else 6 - |e.queue|;
            && Sends(e, datas).accepted == e.accepted + Joined(datas[..taken])
            && |Sends(e, datas).queue| == |e.queue| + taken
    decreases |datas|
  {
    if datas != [] {
      var next := e.Send(datas[0], true).e;
      SixAreAccepted(next, datas[1..]);
      var rest := if |datas| - 1 < 6 - |next.queue| then |datas| - 1 else 6 - |next.queue|;
      if |e.queue| < 6 {
        var some := datas[..rest + 1];
        assert some[1..] == datas[1..][..rest];
        assert e.accepted + (datas[0] + Joined(some[1..])) == e.accepted + datas[0] + Joined(some[1..]);
      }
    }
  }

  // ----- closing --------------------------------------------------------------------------------------

  /** close resets a connection with the numbers that it has come to and leaves a closed socket with
      nothing queued, from every state that is ever entered. */
  lemma CloseEnds(e: Endpoint)
    requires e.state !in NEVER_ENTERED && (e.state == Closed ==> e.queue == [])
    ensures e.Close().e.state == Closed && e.Close().e.queue == []
    ensures e.Close().out == if e.state in {SynSent, SynReceived, Established}
                               then [Segment(RstAck, e.seqn, e.ackn, [])] else []
    ensures e.(state := Closing).Close() == Act(e.(state := Closing), [])
  {
  }

  /** A reset, with whatever numbers, ends a connection and is not answered. */
  lemma ResetEnds(e: Endpoint, s: Segment, memory: bool)
    requires s.flags in {Rst, RstAck}
    ensures e.Process(s, memory) == if e.Connected() then Act(e.(state := Closed, queue := []), []) else Act(e, [])
  {
  }

  /** A SYN, or flags that mean nothing, leave any socket as it is. */
  lemma StrayFlagsChangeNothing(e: Endpoint, s: Segment, memory: bool)
    requires s.flags in {Syn, Unknown}
    ensures e.Process(s, memory) == Act(e, [])
  {
  }

  /** The segments that a run sends. */
  function SentIn(e: Endpoint, ops: seq<Op>): seq<Segment>
    decreases |ops|
  {
    if ops == [] then [] else Do(e, ops[0]).out + SentIn(Do(e, ops[0]).e, ops[1..])
  }

  lemma NextClosed(e: Endpoint, op: Op)
    requires e.state == Closed && e.queue == []
    ensures var act := Do(e, op);
            && act.e == e.(clock := act.e.clock, rexmit := act.e.rexmit)
            && forall s :: s in act.out ==> s.flags == RstAck
  {
    hide Emit, Xor2;
    match op
    case Send(_, _) =>
    case Receive(_) =>
    case Close =>
    case Tick =>
    case Deliver(_, _) =>
  }

  /** A closed socket stays closed and empty until socket() gives it out again, and sends nothing but
      resets. */
  lemma {:induction false} ClosedForGood(e: Endpoint, ops: seq<Op>)
    requires e.state == Closed && e.queue == []
    ensures Run(e, ops) == e.(clock := Run(e, ops).clock, rexmit := Run(e, ops).rexmit)
    ensures forall s :: s in SentIn(e, ops) ==> s.flags == RstAck
    decreases |ops|
  {
    hide Do;
    if ops != [] {
      NextClosed(e, ops[0]);
      ClosedForGood(Do(e, ops[0]).e, ops[1..]);
    }
  }

  // ----- the timer of an idle socket ------------------------------------------------------------------

  /** With nothing to send again the timer sends nothing, and turns itself off when its date comes. */
  lemma {:induction false} IdleIsSilent(e: Endpoint, n: nat)
    requires Of(e.queue, SentPacket) == []
    ensures Ticks(e, n) == e.(clock := e.clock + n,
                              rexmit := if 0 < n && e.rexmit <= e.clock + n then 0 else e.rexmit)
    ensures Ticks(e, n).Tick().out == []
    decreases n
  {
    hide Of, Find, Emit, Xor2;
    EvictingPops(e.queue, SentPacket, ReceivedPacket);
    if 0 < n {
      IdleIsSilent(e, n - 1);
    }
  }

  // ----- the peer closes ------------------------------------------------------------------------------

  /** A FIN changes the state of a connection exactly if it acknowledges all that this end has sent,
      whatever its own number; otherwise it is not answered, and what has been received stays. */
  lemma FinIsAcceptedExactlyWhen(e: Endpoint, fin: Segment, memory: bool)
    requires e.Connected() && fin.flags in {Fin, FinAck}
    ensures var act := e.Process(fin, memory);
            var takes := fin.ackn == e.seqn && e.state in {SynReceived, Established, FinWait1};
            && (act.e.state != e.state <==> takes) && (act.out != [] <==> takes)
            && (takes ==> act.e.state == if e.state == FinWait1 then Closed else FinWait2)
            && (fin.ackn != e.seqn ==> act.e == e.(queue := Expired(e.queue, fin.ackn)))
            && (fin.ackn == e.seqn ==> act.e.ackn == Add32(e.ackn, 1))
  {
    hide Expired;
  }

  /** A FIN that comes in order is acknowledged together with this end's own, and the acknowledgement of
      that closes the socket. */
  lemma PassiveCloseCompletes(e: Endpoint, fin: Segment, memory: bool)
    requires e.state in {SynReceived, Established} && fin.flags in {Fin, FinAck}
    requires fin.seqn == e.ackn && fin.ackn == e.seqn
    ensures var act := e.Process(fin, memory);
            && act.out == [Segment(FinAck, e.seqn, Add32(fin.seqn, 1), [])]
            && act.e.state == FinWait2 && act.e.seqn == Add32(e.seqn, 1)
            && var last := act.e.Process(Segment(Ack, act.out[0].ackn, Add32(act.out[0].seqn, 1), []), memory);
               last.e.state == Closed && last.e.queue == [] && last.out == []
  {
    hide Expired;
  }

  /** But the FIN need not come in order.  It is acknowledged with the right number exactly if it does;
      otherwise data that it has overtaken are given up. */
  lemma FinOvertakesExactlyWhen(e: Endpoint, fin: Segment, memory: bool)
    requires e.state == Established && fin.flags in {Fin, FinAck} && fin.ackn == e.seqn
    requires e.ackn < WORD && fin.seqn < WORD
    ensures var act := e.Process(fin, memory);
            |act.out| == 1 && (act.out[0].ackn == Add32(fin.seqn, 1) <==> fin.seqn == e.ackn)
  {
    hide Expired;
    NextNumbers(fin.seqn, e.ackn);
  }

  lemma NextAfterFin(e: Endpoint, op: Op)
    requires e.state in {FinWait2, Closed}
    ensures var r := Do(e, op).e;
            && r.state in {FinWait2, Closed}
            && r.accepted == e.accepted && r.queued == e.queued && r.received == e.received
  {
    hide Emit, Xor2, Expired, Find, HasRoom, Add32;
    match op
    case Send(_, _) =>
    case Receive(_) =>
    case Close =>
    case Tick =>
    case Deliver(_, _) =>
  }

  /** After that, in any run, nothing more is accepted from the application, queued for it or handed out
      to it, not even what waited when the FIN came. */
  lemma {:induction false} NothingAfterFin(e: Endpoint, ops: seq<Op>)
    requires e.state in {FinWait2, Closed}
    ensures var r := Run(e, ops);
            && r.state in {FinWait2, Closed}
            && r.accepted == e.accepted && r.queued == e.queued && r.received == e.received
    decreases |ops|
  {
    hide Do;
    if ops != [] {
      NextAfterFin(e, ops[0]);
      NothingAfterFin(Do(e, ops[0]).e, ops[1..]);
    }
  }

  /** A tick, or the same FIN once more. */
  predicate Waits(op: Op, fin: Segment) {
    op.Tick? || (op.Deliver? && op.segment == fin)
  }

  /** A FIN that is repeated because the answer to it was lost is not answered: the socket stays in
      FIN_WAIT_2, and sends nothing, for as long as nothing else comes. */
  lemma {:induction false} RepeatedFinIsIgnored(e: Endpoint, fin: Segment, ops: seq<Op>)
    requires e.state == FinWait2 && Of(e.queue, SentPacket) == []
    requires fin.flags in {Fin, FinAck} && fin.ackn != e.seqn && forall op :: op in ops ==> Waits(op, fin)
    ensures Run(e, ops).state == FinWait2 && SentIn(e, ops) == []
    decreases |ops|
  {
    hide Do, Of;
    if ops != [] {
      assert Waits(ops[0], fin);
      NextIgnored(e, fin, ops[0]);
      RepeatedFinIsIgnored(Do(e, ops[0]).e, fin, ops[1..]);
    }
  }

  lemma NextIgnored(e: Endpoint, fin: Segment, op: Op)
    requires e.state == FinWait2 && Of(e.queue, SentPacket) == [] && Waits(op, fin)
    requires fin.flags in {Fin, FinAck} && fin.ackn != e.seqn
    ensures var act := Do(e, op);
            act.e.state == FinWait2 && Of(act.e.queue, SentPacket) == [] && act.e.seqn == e.seqn && act.out == []
  {
    hide Of, Expired, DropAcked, Endpoint.Tick, Endpoint.Process;
    if op.Tick? {
      IdleIsSilent(e, 0);
      IdleIsSilent(e, 1);
    } else {
      FinIsAcceptedExactlyWhen(e, fin, op.memory);
      ExpiryDropsAcked(e.queue, fin.ackn, SentPacket);
      NoneToDrop(fin.ackn);
    }
  }

  lemma NoneToDrop(ackn: nat)
    ensures DropAcked([], ackn) == []
  {
  }
}
