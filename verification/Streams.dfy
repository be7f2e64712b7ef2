/** Two connected sockets and a network that may lose, duplicate and reorder segments. */
module Streams {
  import opened Bytes
  import opened SocketQueues
  import opened Endpoints

  // ----- what is kept about one direction -----------------------------------------------------------

  /** `data` is what the stream `acc`, whose first byte is numbered i, has from number seqn on. */
  ghost predicate Part(acc: seq<Byte>, i: nat, seqn: nat, data: seq<Byte>) {
    i <= seqn && seqn - i + |data| <= |acc| && acc[seqn - i..seqn - i + |data|] == data
  }

  /** The sent entries run on without gaps from number `from` to number `to`. */
  ghost predicate Chain(s: Queue, acc: seq<Byte>, i: nat, from: nat, to: nat)
    decreases |s|
  {
    if s == [] then from == to
    else s[0].Sent? && s[0].seqn == from && Part(acc, i, from, s[0].data) && Chain(s[1..], acc, i, from + |s[0].data|, to)
  }

  /** The lowest number still held for retransmission. */
  function Oldest(s: Queue, next: nat): nat {
    if s == [] || !s[0].Sent? then next else s[0].seqn
  }

  ghost predicate Midstream(f: Flags) {
    f == Ack || f == PshAck
  }

  /** A segment of the stream: it carries a part of it, unless it only resets the connection. */
  ghost predicate Carries(s: Segment, acc: seq<Byte>, i: nat) {
    s.flags == RstAck || (Midstream(s.flags) && Part(acc, i, s.seqn, s.data))
  }

  /** A segment of the opposite stream: it acknowledges no more than the receiver has queued. */
  ghost predicate Acknowledges(s: Segment, ackn: nat) {
    s.flags == RstAck || (Midstream(s.flags) && s.ackn <= ackn)
  }

  /** The states that a connection between two such endpoints passes through. */
  ghost predicate Usual(e: Endpoint) {
    e.state == SynReceived || e.state == Established || (e.state == Closed && e.queue == [])
  }

  /** The stream from x to y, whose first byte is numbered i; xy are the segments that x has ever
      sent and yx those that y has. */
  ghost predicate Flow(x: Endpoint, y: Endpoint, xy: set<Segment>, yx: set<Segment>, i: nat) {
    && x.seqn == i + |x.accepted| < WORD
    && y.ackn == i + |y.queued| && y.queued <= x.accepted
    && (forall s :: s in xy ==> Carries(s, x.accepted, i))
    && (forall s :: s in yx ==> Acknowledges(s, y.ackn))
    && Usual(x) && (x.Connected() ==> Held(x, y.ackn, i))
  }

  /** Every byte that x has accepted and y has not queued is still held by x. */
  ghost predicate Held(x: Endpoint, ackn: nat, i: nat) {
    var s := Of(x.queue, SentPacket);
    Oldest(s, x.seqn) <= ackn && Chain(s, x.accepted, i, Oldest(s, x.seqn), x.seqn)
  }

  // ----- chains of sent entries -----------------------------------------------------------------------

  lemma PartGrows(acc: seq<Byte>, more: seq<Byte>, i: nat, seqn: nat, data: seq<Byte>)
    requires Part(acc, i, seqn, data)
    ensures Part(acc + more, i, seqn, data)
  {
  }

  lemma PartCut(acc: seq<Byte>, i: nat, seqn: nat, data: seq<Byte>, n: nat)
    requires Part(acc, i, seqn, data) && n <= |data|
    ensures Part(acc, i, seqn, data[..n])
  {
    assert acc[seqn - i..seqn - i + n] == acc[seqn - i..seqn - i + |data|][..n];
  }

  lemma {:induction false} ChainGrows(s: Queue, acc: seq<Byte>, i: nat, from: nat, t: nat, data: seq<Byte>)
    requires Chain(s, acc, i, from, i + |acc|) && i <= from
    ensures Chain(s + [Sent(i + |acc|, t, data)], acc + data, i, from, i + |acc| + |data|)
    decreases |s|
  {
    var e := Sent(i + |acc|, t, data);
    if s == [] {
      assert s + [e] == [e];
      assert (acc + data)[|acc|..] == data;
    } else {
      PartGrows(acc, data, i, from, s[0].data);
      ChainGrows(s[1..], acc, i, from + |s[0].data|, t, data);
      assert (s + [e])[1..] == s[1..] + [e];
    }
  }

  lemma {:induction false} ChainDrops(s: Queue, acc: seq<Byte>, i: nat, from: nat, to: nat, ackn: nat, limit: nat)
    requires Chain(s, acc, i, from, to) && from <= limit && ackn <= limit && to == i + |acc| < WORD
    ensures var r := DropAcked(s, ackn);
            Oldest(r, to) <= limit && Chain(r, acc, i, Oldest(r, to), to)
    decreases |s|
  {
    if s != [] && s[0].End() <= ackn {
      ChainDrops(s[1..], acc, i, from + |s[0].data|, to, ackn, limit);
    }
  }

  lemma ChainBegins(s: Queue, acc: seq<Byte>, i: nat, from: nat, to: nat)
    requires Chain(s, acc, i, from, to) && to == i + |acc|
    ensures i <= from
  {
  }

  lemma {:induction false} ChainIsLong(s: Queue, acc: seq<Byte>, i: nat, from: nat, to: nat)
    requires Chain(s, acc, i, from, to)
    ensures from <= to && Oldest(s, to) == from
    decreases |s|
  {
    if s != [] {
      ChainIsLong(s[1..], acc, i, from + |s[0].data|, to);
    }
  }

  // ----- the sender acts ------------------------------------------------------------------------------

  /** The network once an endpoint has acted. */
  function Heard(act: Act, net: set<Segment>): set<Segment> {
    net + set s | s in act.out
  }

  /** A step at x that accepts no data and at most lets go of what number `ackn` acknowledges. */
  lemma SenderKeeps(x: Endpoint, act: Act, y: Endpoint, xy: set<Segment>, yx: set<Segment>, i: nat, ackn: nat)
    requires Flow(x, y, xy, yx, i) && Usual(act.e) && ackn <= y.ackn
    requires act.e.seqn == x.seqn && act.e.accepted == x.accepted
    requires act.e.Connected() ==> x.Connected()
    requires act.e.Connected() ==>
               var s, r := Of(x.queue, SentPacket), Of(act.e.queue, SentPacket); r == s || r == DropAcked(s, ackn)
    requires forall s :: s in act.out ==> Carries(s, x.accepted, i)
    ensures Flow(act.e, y, Heard(act, xy), yx, i)
  {
    if act.e.Connected() {
      var s := Of(x.queue, SentPacket);
      ChainDrops(s, x.accepted, i, Oldest(s, x.seqn), x.seqn, ackn, y.ackn);
    }
  }

  lemma SendFlows(x: Endpoint, y: Endpoint, xy: set<Segment>, yx: set<Segment>, i: nat, data: seq<Byte>, memory: bool)
    requires Flow(x, y, xy, yx, i) && x.seqn + |data| < WORD
    ensures var act := x.Send(data, memory); Flow(act.e, y, Heard(act, xy), yx, i)
  {
    var act := x.Send(data, memory);
    var s, e := Of(x.queue, SentPacket), Entry.Sent(x.seqn, x.clock, data);
    if act.e != x {
      QueueingAppends(x.queue, e, SentPacket);
      ChainIsLong(s, x.accepted, i, Oldest(s, x.seqn), x.seqn);
      ChainBegins(s, x.accepted, i, Oldest(s, x.seqn), x.seqn);
      ChainGrows(s, x.accepted, i, Oldest(s, x.seqn), x.clock, data);
      assert (x.accepted + data)[|x.accepted|..] == data;
      forall t | t in Heard(act, xy) ensures Carries(t, act.e.accepted, i) {
        if t in xy {
          if t.flags != RstAck { PartGrows(x.accepted, data, i, t.seqn, t.data); }
        } else {
          PartCut(act.e.accepted, i, x.seqn, data, |t.data|);
        }
      }
    }
  }

  lemma EmptyPart(acc: seq<Byte>, i: nat)
    ensures Part(acc, i, i + |acc|, [])
  {
  }

  /** The entry that is sent again is part of the stream. */
  lemma ResentPart(x: Endpoint, y: Endpoint, xy: set<Segment>, yx: set<Segment>, i: nat)
    requires Flow(x, y, xy, yx, i) && Find(x.queue, SentPacket) < |x.queue|
    ensures var e := x.queue[Find(x.queue, SentPacket)]; Part(x.accepted, i, e.seqn, e.data)
  {
    EvictingPops(x.queue, SentPacket, ReceivedPacket);
  }

  lemma TickFlows(x: Endpoint, y: Endpoint, xy: set<Segment>, yx: set<Segment>, i: nat)
    requires Flow(x, y, xy, yx, i)
    ensures var act := x.Tick(); Flow(act.e, y, Heard(act, xy), yx, i)
  {
    hide Held, Xor2;
    var act := x.Tick();
    if Find(x.queue, SentPacket) < |x.queue| {
      ResentPart(x, y, xy, yx, i);
      var e := x.queue[Find(x.queue, SentPacket)];
      forall t | t in act.out ensures Carries(t, x.accepted, i) {
        PartCut(x.accepted, i, e.seqn, e.data, if |t.data| <= |e.data| then |t.data| else 0);
      }
    }
    SenderKeeps(x, act, y, xy, yx, i, 0);
  }

  lemma ReceiveFlows(x: Endpoint, y: Endpoint, xy: set<Segment>, yx: set<Segment>, i: nat, max: nat)
    requires Flow(x, y, xy, yx, i)
    ensures var act := x.Receive(max); Flow(act.e, y, Heard(act, xy), yx, i)
  {
    hide Held;
    EvictingPops(x.queue, ReceivedPacket, SentPacket);
    SenderKeeps(x, x.Receive(max), y, xy, yx, i, 0);
  }

  lemma CloseFlows(x: Endpoint, y: Endpoint, xy: set<Segment>, yx: set<Segment>, i: nat)
    requires Flow(x, y, xy, yx, i)
    ensures var act := x.Close(); Flow(act.e, y, Heard(act, xy), yx, i)
  {
    hide Held;
    SenderKeeps(x, x.Close(), y, xy, yx, i, 0);
  }

  /** A segment in mid-stream moves neither what x has accepted nor its sequence number, makes x
      let go of what the segment acknowledges, and is answered by an acknowledgement if at all. */
  lemma AckKeeps(x: Endpoint, s: Segment, memory: bool)
    requires Usual(x) && x.Connected()
    ensures var act := x.ProcessAck(s, memory);
            && act.e.seqn == x.seqn && act.e.accepted == x.accepted && Usual(act.e) && act.e.Connected()
            && Of(act.e.queue, SentPacket) == DropAcked(Of(x.queue, SentPacket), s.ackn)
            && forall t :: t in act.out ==> t == Segment(Ack, x.seqn, act.e.ackn, [])
  {
    hide Of, DropAcked, Expired, Emit, Add32;
    ExpiryDropsAcked(x.queue, s.ackn, SentPacket);
    QueueingAppends(Expired(x.queue, s.ackn), Recv(s.data), SentPacket);
  }

  lemma MidstreamIsAck(x: Endpoint, s: Segment, memory: bool)
    requires x.Connected() && Midstream(s.flags)
    ensures x.Process(s, memory) == x.ProcessAck(s, memory)
  {
  }

  /** Other segments that come either close the connection or change nothing. */
  lemma OtherwiseQuiet(x: Endpoint, s: Segment, memory: bool)
    requires s.flags == RstAck || (Midstream(s.flags) && !x.Connected())
    ensures var act := x.Process(s, memory);
            && (act.e == x || act.e == x.Shut()) && forall t :: t in act.out ==> t.flags == RstAck
  {
  }

  lemma Known(x: Endpoint, y: Endpoint, xy: set<Segment>, yx: set<Segment>, i: nat, s: Segment)
    requires Flow(x, y, xy, yx, i)
    ensures Usual(x) && x.seqn == i + |x.accepted| < WORD
    ensures y.ackn == i + |y.queued| && y.queued <= x.accepted
    ensures s in yx ==> Acknowledges(s, y.ackn)
    ensures s in xy ==> Carries(s, x.accepted, i)
  {
    hide Held, Chain, Part;
  }

  /** Segments of the opposite stream make x let go of what y has acknowledged. */
  lemma DeliverFlows(x: Endpoint, y: Endpoint, xy: set<Segment>, yx: set<Segment>, i: nat, s: Segment, memory: bool)
    requires Flow(x, y, xy, yx, i) && s in yx
    ensures var act := x.Process(s, memory); Flow(act.e, y, Heard(act, xy), yx, i)
  {
    hide Flow, Endpoint.Process, Endpoint.ProcessAck, DropAcked, Of;
    var act := x.Process(s, memory);
    Known(x, y, xy, yx, i, s);
    if Midstream(s.flags) && x.Connected() {
      MidstreamIsAck(x, s, memory);
      AckKeeps(x, s, memory);
      EmptyPart(x.accepted, i);
      SenderKeeps(x, act, y, xy, yx, i, s.ackn);
    } else {
      OtherwiseQuiet(x, s, memory);
      SenderKeeps(x, act, y, xy, yx, i, 0);
    }
  }

  // ----- the receiver acts ----------------------------------------------------------------------------

  /** A step at y that queues at most the next part of the stream. */
  lemma ReceiverKeeps(x: Endpoint, y: Endpoint, act: Act, xy: set<Segment>, yx: set<Segment>, i: nat)
    requires Flow(x, y, xy, yx, i)
    requires act.e.ackn == i + |act.e.queued| && y.queued <= act.e.queued <= x.accepted
    requires forall s :: s in act.out ==> Acknowledges(s, act.e.ackn)
    ensures Flow(x, act.e, xy, Heard(act, yx), i)
  {
  }

  lemma QuietReceiver(x: Endpoint, y: Endpoint, xy: set<Segment>, yx: set<Segment>, i: nat, op: Op)
    requires Flow(x, y, xy, yx, i) && !op.Deliver?
    ensures Flow(x, Do(y, op).e, xy, Heard(Do(y, op), yx), i)
  {
    hide Held, Xor2;
    ReceiverKeeps(x, y, Do(y, op), xy, yx, i);
  }

  /** Data that comes in sequence is the next part of the stream. */
  lemma NextPart(acc: seq<Byte>, i: nat, queued: seq<Byte>, data: seq<Byte>)
    requires queued <= acc && Part(acc, i, i + |queued|, data)
    ensures queued + data <= acc
  {
  }

  lemma AckQueues(y: Endpoint, s: Segment, memory: bool, acc: seq<Byte>, i: nat)
    requires Usual(y) && y.Connected() && y.ackn == i + |y.queued| && y.queued <= acc && i + |acc| < WORD
    requires Part(acc, i, s.seqn, s.data)
    ensures var act := y.ProcessAck(s, memory);
            act.e.ackn == i + |act.e.queued| && y.queued <= act.e.queued <= acc
  {
    if s.seqn == y.ackn {
      NextPart(acc, i, y.queued, s.data);
    }
  }

  lemma DeliveredFlows(x: Endpoint, y: Endpoint, xy: set<Segment>, yx: set<Segment>, i: nat, s: Segment, memory: bool)
    requires Flow(x, y, xy, yx, i) && Usual(y) && s in xy
    ensures var act := y.Process(s, memory); Flow(x, act.e, xy, Heard(act, yx), i)
  {
    hide Flow, Endpoint.Process, Endpoint.ProcessAck, Part, Of;
    var act := y.Process(s, memory);
    Known(x, y, xy, yx, i, s);
    if Midstream(s.flags) && y.Connected() {
      MidstreamIsAck(y, s, memory);
      AckKeeps(y, s, memory);
      AckQueues(y, s, memory, x.accepted, i);
    } else {
      OtherwiseQuiet(y, s, memory);
    }
    ReceiverKeeps(x, y, act, xy, yx, i);
  }

  // ----- the two directions together ------------------------------------------------------------------

  datatype Net = Net(a: Endpoint, b: Endpoint, ab: set<Segment>, ba: set<Segment>)
  {
    /** The connection as seen from the other end. */
    function Turned(): Net {
      Net(b, a, ba, ab)
    }

    /** An operation at a. */
    function AtA(op: Op): Net {
      Net(Do(a, op).e, b, Heard(Do(a, op), ab), ba)
    }
  }

  /** Something happens at one of the two ends. */
  datatype Step = Step(atA: bool, op: Op)

  function Next(n: Net, s: Step): Net {
    if s.atA then n.AtA(s.op) else n.Turned().AtA(s.op).Turned()
  }

  /** A stream stays below 2^32 bytes, and only segments that the other end has sent arrive. */
  predicate Enabled(n: Net, s: Step) {
    var m := if s.atA then n else n.Turned();
    match s.op
    case Send(data, _) => m.a.seqn + |data| < WORD
    case Deliver(segment, _) => segment in m.ba
    case _ => true
  }

  /** The streams in both directions; a's first byte is numbered i, b's is numbered j. */
  ghost predicate Inv(n: Net, i: nat, j: nat) {
    Flow(n.a, n.b, n.ab, n.ba, i) && Flow(n.b, n.a, n.ba, n.ab, j)
  }

  lemma AtAKeepsInv(n: Net, i: nat, j: nat, op: Op)
    requires Inv(n, i, j) && Enabled(n, Step(true, op))
    ensures Inv(n.AtA(op), i, j)
  {
    hide Flow, Endpoint.Send, Endpoint.Receive, Endpoint.Close, Endpoint.Tick, Endpoint.Process;
    match op
    case Send(data, memory) =>
      SendFlows(n.a, n.b, n.ab, n.ba, i, data, memory);
      QuietReceiver(n.b, n.a, n.ba, n.ab, j, op);
    case Receive(max) =>
      ReceiveFlows(n.a, n.b, n.ab, n.ba, i, max);
      QuietReceiver(n.b, n.a, n.ba, n.ab, j, op);
    case Close =>
      CloseFlows(n.a, n.b, n.ab, n.ba, i);
      QuietReceiver(n.b, n.a, n.ba, n.ab, j, op);
    case Tick =>
      TickFlows(n.a, n.b, n.ab, n.ba, i);
      QuietReceiver(n.b, n.a, n.ba, n.ab, j, op);
    case Deliver(s, memory) =>
      DeliverFlows(n.a, n.b, n.ab, n.ba, i, s, memory);
      FlowUsual(n.a, n.b, n.ab, n.ba, i);
      DeliveredFlows(n.b, n.a, n.ba, n.ab, j, s, memory);
  }

  lemma FlowUsual(x: Endpoint, y: Endpoint, xy: set<Segment>, yx: set<Segment>, i: nat)
    requires Flow(x, y, xy, yx, i)
    ensures Usual(x)
  {
  }

  lemma NextKeepsInv(n: Net, i: nat, j: nat, s: Step)
    requires Inv(n, i, j) && Enabled(n, s)
    ensures Inv(Next(n, s), i, j)
  {
    hide Flow, Do;
    if s.atA {
      AtAKeepsInv(n, i, j, s.op);
    } else {
      AtAKeepsInv(n.Turned(), j, i, s.op);
    }
  }

  // ----- runs -----------------------------------------------------------------------------------------

  function Fresh(state: State, seqn: nat, ackn: nat, clock: nat): Endpoint {
    Endpoint(state, seqn, ackn, 0, [], clock, [], [], [], true)
  }

  /** Two connected sockets whose numbers match, before any data; either may still wait for its
      first segment. */
  ghost predicate Begun(n: Net, i: nat, j: nat) {
    && i < WORD && j < WORD && n.ab == {} && n.ba == {}
    && (n.a.state == Established || n.a.state == SynReceived) && n.a == Fresh(n.a.state, i, j, n.a.clock)
    && (n.b.state == Established || n.b.state == SynReceived) && n.b == Fresh(n.b.state, j, i, n.b.clock)
  }

  ghost predicate Feasible(n: Net, steps: seq<Step>)
    decreases |steps|
  {
    steps != [] ==> Enabled(n, steps[0]) && Feasible(Next(n, steps[0]), steps[1..])
  }

  ghost function Run(n: Net, steps: seq<Step>): Net
    decreases |steps|
  {
    if steps == [] then n else Run(Next(n, steps[0]), steps[1..])
  }

  lemma {:induction false} RunKeepsInv(n: Net, i: nat, j: nat, steps: seq<Step>)
    requires Inv(n, i, j) && Feasible(n, steps)
    ensures Inv(Run(n, steps), i, j)
    decreases |steps|
  {
    hide Inv, Next, Enabled;
    if steps != [] {
      NextKeepsInv(n, i, j, steps[0]);
      RunKeepsInv(Next(n, steps[0]), i, j, steps[1..]);
    }
  }

  lemma BegunInv(n: Net, i: nat, j: nat)
    requires Begun(n, i, j)
    ensures Inv(n, i, j)
  {
  }

  /** Whatever the network does, the bytes queued for recv at one end are a prefix of the bytes
      accepted by send at the other, and the ends send nothing but data, acknowledgements and
      resets. */
  lemma StreamsAreSafe(n: Net, i: nat, j: nat, steps: seq<Step>)
    requires Begun(n, i, j) && Feasible(n, steps)
    ensures var r := Run(n, steps);
            && r.b.queued <= r.a.accepted && r.a.queued <= r.b.accepted
            && forall s :: s in r.ab + r.ba ==> s.flags == Ack || s.flags == PshAck || s.flags == RstAck
  {
    hide Held, Begun;
    BegunInv(n, i, j);
    RunKeepsInv(n, i, j, steps);
  }

  lemma {:induction false} ChainAckedFirst(s: Queue, acc: seq<Byte>, i: nat, from: nat, to: nat, ackn: nat)
    requires Chain(s, acc, i, from, to) && to == i + |acc| < WORD
    ensures AckedFirst(s, ackn) && forall e :: e in s ==> from <= e.End()
    decreases |s|
  {
    if s != [] {
      var t, end := s[1..], from + |s[0].data|;
      ChainAckedFirst(t, acc, i, end, to, ackn);
      EndInStream(acc, i, s[0]);
      hide Entry.End;
      forall j, k | 0 <= j < k < |s| && ackn < s[j].End() ensures ackn < s[k].End() {
        assert s[k] == t[k - 1] && t[k - 1] in t;
        if 0 < j {
          assert s[j] == t[j - 1];
        }
      }
    }
  }

  /** In every reachable state of an open socket, expiry removes exactly the entries that an
      acknowledgement covers. */
  lemma ExpiryIsExact(n: Net, i: nat, j: nat, steps: seq<Step>, ackn: nat)
    requires Begun(n, i, j) && Feasible(n, steps) && Run(n, steps).a.Connected()
    ensures var q := Run(n, steps).a.queue;
            Of(Expired(q, ackn), SentPacket) == Unacked(Of(q, SentPacket), ackn)
  {
    hide Begun, Of, Expired, Unacked, DropAcked, AckedFirst;
    BegunInv(n, i, j);
    RunKeepsInv(n, i, j, steps);
    var x := Run(n, steps).a;
    var s := Of(x.queue, SentPacket);
    ChainAckedFirst(s, x.accepted, i, Oldest(s, x.seqn), x.seqn, ackn);
    ExpiryDropsAcked(x.queue, ackn, SentPacket);
    ExpiryIsExactWhen(s, ackn);
  }

  /** What x still holds for retransmission, end to end. */
  function Contents(s: Queue): seq<Byte> {
    if s == [] then [] else (if s[0].Sent? then s[0].data else []) + Contents(s[1..])
  }

  lemma {:induction false} ChainContents(s: Queue, acc: seq<Byte>, i: nat, from: nat, to: nat)
    requires Chain(s, acc, i, from, to) && i <= from && to == i + |acc|
    ensures from <= to && Contents(s) == acc[from - i..]
    decreases |s|
  {
    if s != [] {
      ChainContents(s[1..], acc, i, from + |s[0].data|, to);
      assert acc[from - i..] == s[0].data + acc[from - i + |s[0].data|..];
    }
  }

  /** What x holds for retransmission is an unbroken tail of its stream that begins no later than
      the first byte that y has not queued. */
  ghost predicate Backed(x: Endpoint, y: Endpoint) {
    var held := Contents(Of(x.queue, SentPacket));
    && |held| <= |x.accepted| <= |y.queued| + |held|
    && held == x.accepted[|x.accepted| - |held|..]
  }

  /** No data is let go too early while a socket is open. */
  lemma NothingLetGoEarly(n: Net, i: nat, j: nat, steps: seq<Step>)
    requires Begun(n, i, j) && Feasible(n, steps)
    ensures var r := Run(n, steps); (r.a.Connected() ==> Backed(r.a, r.b)) && (r.b.Connected() ==> Backed(r.b, r.a))
  {
    hide Flow, Begun, Backed;
    BegunInv(n, i, j);
    RunKeepsInv(n, i, j, steps);
    var r := Run(n, steps);
    if r.a.Connected() { TailHeld(r.a, r.b, r.ab, r.ba, i); }
    if r.b.Connected() { TailHeld(r.b, r.a, r.ba, r.ab, j); }
  }

  lemma TailHeld(x: Endpoint, y: Endpoint, xy: set<Segment>, yx: set<Segment>, i: nat)
    requires Flow(x, y, xy, yx, i) && x.Connected()
    ensures Backed(x, y)
  {
    var s := Of(x.queue, SentPacket);
    var from := Oldest(s, x.seqn);
    ChainBegins(s, x.accepted, i, from, x.seqn);
    ChainContents(s, x.accepted, i, from, x.seqn);
  }

  /** Once an open socket has nothing left to retransmit, the other end has queued everything. */
  lemma AllAcknowledgedIsAllQueued(n: Net, i: nat, j: nat, steps: seq<Step>)
    requires Begun(n, i, j) && Feasible(n, steps)
    requires Run(n, steps).a.Connected() && Of(Run(n, steps).a.queue, SentPacket) == []
    ensures Run(n, steps).b.queued == Run(n, steps).a.accepted
  {
    hide Begun, Inv;
    NothingLetGoEarly(n, i, j, steps);
    StreamsAreSafe(n, i, j, steps);
  }

  /** Any entry that a segment's acknowledgement makes a let go of had been queued by b, whole,
      before the segment was sent. */
  lemma ExpiryFollowsQueueing(n: Net, i: nat, j: nat, s: Segment, e: Entry)
    requires Inv(n, i, j) && s in n.ba && Midstream(s.flags)
    requires e in Of(n.a.queue, SentPacket) && e !in Of(Expired(n.a.queue, s.ackn), SentPacket)
    ensures e.Sent? && i <= e.seqn && e.seqn - i + |e.data| <= |n.b.queued|
    ensures n.b.queued[e.seqn - i..e.seqn - i + |e.data|] == e.data
  {
    hide Of, Expired, DropAcked, Chain, Carries;
    var q := Of(n.a.queue, SentPacket);
    assert Acknowledges(s, n.b.ackn);
    ExpiryDropsAcked(n.a.queue, s.ackn, SentPacket);
    ClosedHoldsNothing(n.a, n.b, n.ab, n.ba, i);
    DroppedWasAcked(q, n.a.accepted, i, Oldest(q, n.a.seqn), n.a.seqn, s.ackn, e);
    PartOfPrefix(n.a.accepted, n.b.queued, i, e.seqn, e.data);
  }

  lemma PartOfPrefix(acc: seq<Byte>, queued: seq<Byte>, i: nat, seqn: nat, data: seq<Byte>)
    requires Part(acc, i, seqn, data) && queued <= acc && seqn - i + |data| <= |queued|
    ensures queued[seqn - i..seqn - i + |data|] == data
  {
  }

  lemma ClosedHoldsNothing(x: Endpoint, y: Endpoint, xy: set<Segment>, yx: set<Segment>, i: nat)
    requires Flow(x, y, xy, yx, i) && Of(x.queue, SentPacket) != []
    ensures x.Connected()
  {
  }

  lemma {:induction false} DroppedWasAcked(s: Queue, acc: seq<Byte>, i: nat, from: nat, to: nat, ackn: nat, e: Entry)
    requires Chain(s, acc, i, from, to) && to == i + |acc| < WORD && e in s && e !in DropAcked(s, ackn)
    ensures e.Sent? && Part(acc, i, e.seqn, e.data) && e.seqn + |e.data| <= ackn
    decreases |s|
  {
    hide Entry.End;
    if s[0].End() <= ackn {
      if e == s[0] {
        EndInStream(acc, i, e);
      } else {
        DroppedWasAcked(s[1..], acc, i, from + |s[0].data|, to, ackn, e);
      }
    }
  }

  lemma EndInStream(acc: seq<Byte>, i: nat, e: Entry)
    requires e.Sent? && Part(acc, i, e.seqn, e.data) && i + |acc| < WORD
    ensures e.End() == e.seqn + |e.data|
  {
  }

  // ----- what a round trip achieves -------------------------------------------------------------------

  /** Closing one end closes the other as soon as the reset arrives. */
  lemma CloseReachesPeer(x: Endpoint, y: Endpoint, memory: bool)
    requires (x.state == Established || x.state == SynReceived) && y.Connected()
    ensures x.Close().e.state == Closed && x.Close().e.queue == []
    ensures |x.Close().out| == 1 && y.Process(x.Close().out[0], memory) == Act(y.Shut(), [])
  {
  }

  /** The entry that housekeeping sends again. */
  function OldestEntry(x: Endpoint): Entry
    requires Find(x.queue, SentPacket) < |x.queue|
  {
    x.queue[Find(x.queue, SentPacket)]
  }

  /** When the timer has run out and the oldest entry is not too old, housekeeping sends that entry
      again, whole. */
  lemma TimerResends(x: Endpoint)
    requires Find(x.queue, SentPacket) < |x.queue| && x.rexmit != 0 && x.rexmit <= x.clock + 1
    requires (x.clock + 1 - OldestEntry(x).tSent) % WORD <= MAX_RETX_TIME && |OldestEntry(x).data| < LENGTHS - TCP_HEADER
    ensures var e := OldestEntry(x);
            x.Tick().out == [Segment(PshAck, e.seqn, x.ackn, e.data)] && x.Tick().e.queue == x.queue
  {
    hide Xor2;
    assert OldestEntry(x).data[..|OldestEntry(x).data|] == OldestEntry(x).data;
  }

  /** Any segment other than the next in order, whether its data have come before or lie beyond a gap,
      is answered at once with what the receiver expects, and nothing of it is queued. */
  lemma OutOfOrderIsAnswered(y: Endpoint, s: Segment, memory: bool)
    requires y.Connected() && (Midstream(s.flags) || s.flags == CwrPshAck) && s.seqn != y.ackn
    ensures var act := y.Process(s, memory);
            && act.out == [Segment(Ack, y.seqn, y.ackn, [])]
            && act.e.state == y.state && act.e.ackn == y.ackn && act.e.queued == y.queued
            && Of(act.e.queue, ReceivedPacket) == Of(y.queue, ReceivedPacket)
  {
    hide Expired, Of;
    ExpiryDropsAcked(y.queue, s.ackn, ReceivedPacket);
  }

  /** A receiver that expects the data and has room for them, or does not expect them, answers with an
      acknowledgement; it covers them unless they lie beyond a gap. */
  lemma ReceiverAnswers(y: Endpoint, s: Segment, acc: seq<Byte>, i: nat)
    requires y.state == Established && y.ackn == i + |y.queued| && y.queued <= acc && i + |acc| < WORD
    requires s.flags == PshAck && s.data != [] && Part(acc, i, s.seqn, s.data)
    requires s.seqn != y.ackn || HasRoom(y.queue)
    ensures var act := y.Process(s, true);
            && act.out == [Segment(Ack, y.seqn, act.e.ackn, [])]
            && act.e.queued <= acc && act.e.ackn == i + |act.e.queued|
            && act.e.ackn == (if s.seqn == y.ackn then s.seqn + |s.data| else y.ackn)
  {
    hide Expired, Of;
    ExpiryDropsAcked(y.queue, s.ackn, ReceivedPacket);
    if s.seqn == y.ackn {
      NextPart(acc, i, y.queued, s.data);
    }
  }

  lemma {:induction false} ChainRises(s: Queue, acc: seq<Byte>, i: nat, from: nat, to: nat, e: Entry)
    requires Chain(s, acc, i, from, to) && e in s
    ensures e.Sent? && from <= e.seqn
    decreases |s|
  {
    if e != s[0] {
      ChainRises(s[1..], acc, i, from + |s[0].data|, to, e);
    }
  }

  lemma {:induction false} CoveredIsDropped(s: Queue, acc: seq<Byte>, i: nat, from: nat, to: nat, ackn: nat)
    requires Chain(s, acc, i, from, to) && to == i + |acc| < WORD && s != [] && s[0].data != []
    requires s[0].seqn + |s[0].data| <= ackn
    ensures s[0] !in DropAcked(s, ackn)
  {
    hide Entry.End;
    EndInStream(acc, i, s[0]);
    assert DropAcked(s, ackn) == DropAcked(s[1..], ackn);
    DropKeepsMembers(s[1..], ackn);
    if s[0] in s[1..] {
      ChainRises(s[1..], acc, i, from + |s[0].data|, to, s[0]);
    }
  }

  lemma DropKeepsMembers(s: Queue, ackn: nat)
    ensures forall e :: e in DropAcked(s, ackn) ==> e in s
  {
    var r := DropAcked(s, ackn);
    assert r == s[|s| - |r|..];
  }

  /** However much was lost before: once the oldest entry reaches a receiver that expects it and
      has room for it, or has it already, and the answer comes back, the receiver has its data and
      the sender lets go of it. */
  lemma RoundTripReleasesOldest(x: Endpoint, y: Endpoint, xy: set<Segment>, yx: set<Segment>, i: nat, s: Segment,
                                memory: bool)
    requires Flow(x, y, xy, yx, i) && x.Connected() && Find(x.queue, SentPacket) < |x.queue|
    requires s.flags == PshAck && s.seqn == OldestEntry(x).seqn && s.data == OldestEntry(x).data && s.data != []
    requires y.state == Established
    requires (s.seqn == y.ackn && HasRoom(y.queue)) || s.seqn + |s.data| <= y.ackn
    ensures var act := y.Process(s, true);
            && act.out == [Segment(Ack, y.seqn, act.e.ackn, [])]
            && s.seqn - i + |s.data| <= |act.e.queued| && act.e.queued <= x.accepted
            && OldestEntry(x) !in Of(x.Process(act.out[0], memory).e.queue, SentPacket)
  {
    hide Expired, Of, DropAcked, Endpoint.ProcessAck, Endpoint.Process;
    var q := Of(x.queue, SentPacket);
    ResentPart(x, y, xy, yx, i);
    Known(x, y, xy, yx, i, s);
    ReceiverAnswers(y, s, x.accepted, i);
    EvictingPops(x.queue, SentPacket, ReceivedPacket);
    var ack := y.Process(s, true).out[0];
    AckKeeps(x, ack, memory);
    CoveredIsDropped(q, x.accepted, i, Oldest(q, x.seqn), x.seqn, ack.ackn);
    MidstreamIsAck(x, ack, memory);
  }

  // ----- what recv hands out ------------------------------------------------------------------------

  function Data(q: Queue): seq<Byte> {
    if q == [] then [] else (if q[0].Recv? then q[0].data else []) + Data(q[1..])
  }

  /** Unless some recv had too small a buffer, what has been handed out and what waits are all
      that was queued, in order. */
  ghost predicate InOrder(e: Endpoint) {
    && Usual(e)
    && (e.whole ==> e.received <= e.queued && (e.Connected() ==> e.queued == e.received + Data(Of(e.queue, ReceivedPacket))))
  }

  lemma {:induction false} DataAppend(q: Queue, data: seq<Byte>)
    ensures Data(q + [Recv(data)]) == Data(q) + data
  {
    if q == [] {
      assert q + [Recv(data)] == [Recv(data)];
      assert [Recv(data)][1..] == [];
    } else {
      DataAppend(q[1..], data);
      var longer := q + [Recv(data)];
      assert longer[0] == q[0] && longer[1..] == q[1..] + [Recv(data)];
      var first := if q[0].Recv? then q[0].data else [];
      assert first + (Data(q[1..]) + data) == first + Data(q[1..]) + data;
    }
  }

  lemma ReceiveInOrder(e: Endpoint, max: nat)
    requires InOrder(e)
    ensures InOrder(e.Receive(max).e)
  {
    hide Evicted, Find, Of;
    EvictingPops(e.queue, ReceivedPacket, SentPacket);
  }

  lemma ProcessInOrder(e: Endpoint, s: Segment, memory: bool)
    requires InOrder(e) && (Midstream(s.flags) || s.flags == RstAck)
    ensures InOrder(e.Process(s, memory).e)
  {
    hide Of, Data, Emit, Expired, HasRoom, Add32;
    if Midstream(s.flags) && e.Connected() {
      MidstreamIsAck(e, s, memory);
      ExpiryDropsAcked(e.queue, s.ackn, ReceivedPacket);
      QueueingAppends(Expired(e.queue, s.ackn), Recv(s.data), ReceivedPacket);
      DataAppend(Of(e.queue, ReceivedPacket), s.data);
    }
  }

  lemma DoInOrder(e: Endpoint, op: Op)
    requires InOrder(e) && (op.Deliver? ==> Midstream(op.segment.flags) || op.segment.flags == RstAck)
    ensures InOrder(Do(e, op).e)
  {
    hide Of, Data, Emit, Expired, Xor2, Endpoint.Receive, Endpoint.Process;
    match op
    case Send(data, _) => QueueingAppends(e.queue, Entry.Sent(e.seqn, e.clock, data), ReceivedPacket);
    case Receive(max) => ReceiveInOrder(e, max);
    case Deliver(s, memory) => ProcessInOrder(e, s, memory);
    case Close =>
    case Tick =>
  }

  lemma NextInOrder(n: Net, i: nat, j: nat, s: Step)
    requires Inv(n, i, j) && Enabled(n, s) && InOrder(n.a) && InOrder(n.b)
    ensures InOrder(Next(n, s).a) && InOrder(Next(n, s).b)
  {
    hide Do, InOrder, Held;
    DoInOrder(if s.atA then n.a else n.b, s.op);
  }

  lemma {:induction false} RunInOrder(n: Net, i: nat, j: nat, steps: seq<Step>)
    requires Inv(n, i, j) && Feasible(n, steps) && InOrder(n.a) && InOrder(n.b)
    ensures InOrder(Run(n, steps).a) && InOrder(Run(n, steps).b)
    decreases |steps|
  {
    hide Inv, Next, Enabled, InOrder;
    if steps != [] {
      NextKeepsInv(n, i, j, steps[0]);
      NextInOrder(n, i, j, steps[0]);
      RunInOrder(Next(n, steps[0]), i, j, steps[1..]);
    }
  }

  /** With large enough buffers, recv at one end hands out a prefix of what send accepted at the
      other. */
  lemma ReceivedIsPrefix(n: Net, i: nat, j: nat, steps: seq<Step>)
    requires Begun(n, i, j) && Feasible(n, steps)
    ensures var r := Run(n, steps);
            && (r.b.whole ==> r.b.received <= r.a.accepted) && (r.a.whole ==> r.a.received <= r.b.accepted)
  {
    hide Inv, Run;
    StreamsAreSafe(n, i, j, steps);
    BegunInv(n, i, j);
    RunInOrder(n, i, j, steps);
  }
}
