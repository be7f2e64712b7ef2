/** One end of a connection: the TCP socket of socket.c and the segment processing of tcp6.c, each
    call, received segment or tick as one step. */
module Endpoints {
  import opened Bytes
  import opened SocketQueues

  /** MAX_RETX_TIME. */
  const MAX_RETX_TIME: nat := 120

  /** sizeof(struct tcp_hdr), and one more than what a 16-bit length can say. */
  const TCP_HEADER: nat := 20
  const LENGTHS: nat := 0x1_0000

  /** What socket() takes as type, and keeps as the protocol. */
  const SOCK_STREAM: nat := 6
  const SOCK_DGRAM: nat := 17

  type Address = nat

  /** in6addr_any. */
  const ANY: Address := 0

  /** The address and port that recvfrom and accept hand back, if any. */
  datatype Peer = Unnamed | Named(address: Address, port: nat)

  datatype State =
    | Closed | Listen | SynSent | SynReceived | Established | FinWait1 | FinWait2 | CloseWait
    | Closing | LastAck | TimeWait | Reserved

  /** The combinations of flags that the segment processing tells apart. */
  datatype Flags = Syn | SynAck | Ack | PshAck | CwrPshAck | Fin | FinAck | Rst | RstAck | Unknown

  datatype Segment = Segment(flags: Flags, seqn: nat, ackn: nat, data: seq<Byte>)

  /** esix_tcp_send: the data is cut to a 16-bit length, and a segment whose length together with
      the header's does not fit in 16 bits is too short to be read at the other end. */
  function Emit(flags: Flags, seqn: nat, ackn: nat, data: seq<Byte>): (out: seq<Segment>)
    ensures out != [] ==> out == [Segment(flags, seqn, ackn, out[0].data)] && out[0].data <= data
  {
    var n := |data| % LENGTHS;
    if n + TCP_HEADER < LENGTHS then [Segment(flags, seqn, ackn, data[..n])] else []
  }

  /** The C expression a ^ 2, which flips the second lowest bit. */
  function Xor2(a: nat): (r: nat)
    ensures r % 2 == a % 2 && r / 2 % 2 != a / 2 % 2 && r / 4 == a / 4
  {
    Bits(a / 4, a % 4);
    if a / 2 % 2 == 0 then
      Bits(a / 4, a % 4 + 2);
      a + 2
    else
      Bits(a / 4, a % 4 - 2);
      a - 2
  }

  lemma Bits(q: nat, r: nat)
    requires r < 4
    ensures (4 * q + r) % 2 == r % 2 && (4 * q + r) / 2 % 2 == r / 2 && (4 * q + r) / 4 == q
  {
    Halves(2 * q + r / 2, r % 2);
    Halves(q, r / 2);
    Quarters(q, r);
  }

  lemma Halves(n: nat, b: nat)
    requires b < 2
    ensures (2 * n + b) / 2 == n && (2 * n + b) % 2 == b
  {
  }

  lemma Quarters(q: nat, r: nat)
    requires r < 4
    ensures (4 * q + r) / 4 == q
  {
  }

  /** The fields of struct esix_sock that the connection uses, and the time.  The rest is history:
      the bytes that send has accepted, the bytes that have been queued for recv, those that recv
      has handed out, and whether each recv had room for the whole entry. */
  datatype Endpoint = Endpoint(
    state: State, seqn: nat, ackn: nat, rexmit: nat, queue: Queue, clock: nat,
    accepted: seq<Byte>, queued: seq<Byte>, received: seq<Byte>, whole: bool)
  {
    /** Whether FIND_CONNECTED finds the socket. */
    predicate Connected() {
      state != Closed && state != Reserved
    }

    /** The end of close, of a time-out and of a reset. */
    function Shut(): Endpoint {
      this.(state := Closed, queue := [])
    }

    /** connect on a stream socket, once a source address has been picked. */
    function Connect(): Act {
      if state != Reserved && state != Closed then Act(this, [])
      else Act(this.(state := SynSent, ackn := 0), Emit(Syn, Add32(seqn, 1), 0, []))
    }

    /** send on a stream socket; `memory` says whether the allocations succeed. */
    function Send(data: seq<Byte>, memory: bool): Act {
      if state != Established || !HasRoom(queue) || !memory then Act(this, [])
      else Act(this.(queue := queue + [Sent(seqn, clock, data)], seqn := Add32(seqn, |data|),
                     rexmit := clock + 2, accepted := accepted + data),
               Emit(PshAck, seqn, ackn, data))
    }

    /** The part of recvfrom after its test of the state, with a buffer of `max` bytes. */
    function TakeOut(max: nat): Endpoint {
      if Find(queue, ReceivedPacket) == |queue| then this
      else
        var data := queue[Find(queue, ReceivedPacket)].data;
        var n := if max < |data| then max else |data|;
        this.(queue := Evicted(queue, ReceivedPacket), received := received + data[..n], whole := whole && n == |data|)
    }

    /** recvfrom on a stream socket. */
    function Receive(max: nat): Act {
      Act(if state != Established then this else TakeOut(max), [])
    }

    function Close(): Act {
      if state == Closed || state == Closing then Act(this, [])
      else Act(Shut(), if state == SynSent || state == SynReceived || state == Established
                         then Emit(RstAck, seqn, ackn, []) else [])
    }

    /** The branch of esix_tcp_process for segments in mid-stream. */
    function ProcessAck(s: Segment, memory: bool): Act {
      var e := this.(queue := Expired(queue, s.ackn));
      if s.seqn != ackn then Act(e, Emit(Ack, seqn, ackn, []))
      else match state
           case SynReceived => Act(e.(state := Established), [])
           case FinWait2 => Act(e.Shut(), [])
           case Established =>
             if s.data == [] || !HasRoom(e.queue) || !memory then Act(e, [])
             else Act(e.(queue := e.queue + [Recv(s.data)], ackn := Add32(ackn, |s.data|), queued := queued + s.data),
                      Emit(Ack, seqn, Add32(ackn, |s.data|), []))
           case _ => Act(e, [])
    }

    function ProcessFin(s: Segment): Act {
      var e := this.(queue := Expired(queue, s.ackn));
      if s.ackn != seqn then Act(e, [])
      else
        var f := e.(ackn := Add32(ackn, 1));
        match state
        case SynReceived => Act(f.(seqn := Add32(seqn, 1), state := FinWait2), Emit(FinAck, seqn, f.ackn, []))
        case Established => Act(f.(seqn := Add32(seqn, 1), state := FinWait2), Emit(FinAck, seqn, f.ackn, []))
        case FinWait1 => Act(f.Shut(), Emit(Ack, seqn, f.ackn, []))
        case _ => Act(f, [])
    }

    /** esix_tcp_process for a segment addressed to this socket.  SYN concerns a listening socket
        and leaves this one alone. */
    function Process(s: Segment, memory: bool): Act {
      match s.flags
      case Ack => if Connected() then ProcessAck(s, memory) else Act(this, Emit(RstAck, s.ackn, s.seqn, []))
      case PshAck => if Connected() then ProcessAck(s, memory) else Act(this, Emit(RstAck, s.ackn, s.seqn, []))
      case CwrPshAck => if Connected() then ProcessAck(s, memory) else Act(this, Emit(RstAck, s.ackn, s.seqn, []))
      case SynAck =>
        if !Connected() then Act(this, Emit(RstAck, Add32(s.ackn, 1), Add32(s.seqn, 1), []))
        else if s.ackn != seqn then Act(this, [])
        else Act(this.(state := if state == SynSent then Established else state, ackn := Add32(s.ackn, 1)),
                 Emit(Ack, seqn, Add32(s.ackn, 1), []))
      case Fin => if Connected() then ProcessFin(s) else Act(this, Emit(RstAck, Add32(s.ackn, 1), Add32(s.seqn, 1), []))
      case FinAck => if Connected() then ProcessFin(s) else Act(this, Emit(RstAck, Add32(s.ackn, 1), Add32(s.seqn, 1), []))
      case Rst => if Connected() then Act(Shut(), []) else Act(this, [])
      case RstAck => if Connected() then Act(Shut(), []) else Act(this, [])
      case Syn => Act(this, [])
      case Unknown => Act(this, [])
    }

    /** The time since an entry was queued. */
    function Age(e: Entry): nat
      requires e.Sent?
    {
      (clock - e.tSent) % WORD
    }

    /** esix_socket_housekeep for this socket. */
    function Housekeep(): Act {
      if rexmit == 0 || clock < rexmit then Act(this, [])
      else if Find(queue, SentPacket) == |queue| then Act(this.(rexmit := 0), [])
      else
        var e := queue[Find(queue, SentPacket)];
        if MAX_RETX_TIME < Age(e) then Act(Shut(), Emit(RstAck, seqn, ackn, []))
        else Act(this.(rexmit := clock + Xor2(Age(e))), Emit(PshAck, e.seqn, ackn, e.data))
    }

    /** esix_periodic_callback. */
    function Tick(): Act {
      this.(clock := clock + 1).Housekeep()
    }
  }

  /** The endpoint after a step and the segments that the step emits. */
  datatype Act = Act(e: Endpoint, out: seq<Segment>)

  /** What can happen at an endpoint. */
  datatype Op =
    | Send(data: seq<Byte>, memory: bool)
    | Receive(max: nat)
    | Close
    | Tick
    | Deliver(segment: Segment, memory: bool)

  function Do(e: Endpoint, op: Op): Act {
    match op
    case Send(data, memory) => e.Send(data, memory)
    case Receive(max) => e.Receive(max)
    case Close => e.Close()
    case Tick => e.Tick()
    case Deliver(s, memory) => e.Process(s, memory)
  }

  /** Whatever happens, a closed socket's queue is empty. */
  lemma ClosedStaysEmpty(e: Endpoint, op: Op)
    requires e.state == Closed ==> e.queue == []
    ensures Do(e, op).e.state == Closed ==> Do(e, op).e.queue == []
  {
    hide Expired, Emit, Xor2;
    match op
    case Send(_, _) =>
    case Receive(_) =>
    case Close =>
    case Tick =>
    case Deliver(_, _) =>
  }
}
