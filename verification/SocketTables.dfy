/** The table of sockets: finding, opening and passively creating them, and the calls and received
    segments that go to one of them. */
module SocketTables {
  import opened Bytes
  import opened Rings
  import opened SocketQueues
  import opened Endpoints
  import opened Lifecycles
  import opened Sockets

  /** ESIX_MAX_SOCK, FIRST_PORT and LAST_PORT. */
  const MAX_SOCK: nat := 32
  const FIRST_PORT: nat := 32000
  const LAST_PORT: nat := 65535

  const AF_INET6: nat := 10

  datatype Mask = FindAny | FindListen | FindConnected

  /** A segment with the addresses and ports that it travels between. */
  datatype Packet = Packet(saddr: Address, daddr: Address, sport: nat, dport: nat, segment: Segment)

  /** The packets that carry the given segments back along a path. */
  function From(saddr: Address, daddr: Address, sport: nat, dport: nat, out: seq<Segment>): (r: seq<Packet>)
    ensures |r| == |out|
  {
    seq(|out|, i requires 0 <= i < |out| => Packet(saddr, daddr, sport, dport, out[i]))
  }

  function FromSocket(path: Path, out: seq<Segment>): seq<Packet> {
    From(path.laddr, path.raddr, path.lport, path.rport, out)
  }

  /** An answer to a packet goes back the way it came. */
  function Back(p: Packet, out: seq<Segment>): seq<Packet> {
    From(p.daddr, p.saddr, p.dport, p.sport, out)
  }

  /** What esix_tcp_process answers to a segment that no socket takes. */
  function Refusal(s: Segment): seq<Segment> {
    match s.flags
    case Ack => Emit(RstAck, s.ackn, s.seqn, [])
    case PshAck => Emit(RstAck, s.ackn, s.seqn, [])
    case CwrPshAck => Emit(RstAck, s.ackn, s.seqn, [])
    case Rst => []
    case RstAck => []
    case Unknown => []
    case _ => Emit(RstAck, Add32(s.ackn, 1), Add32(s.seqn, 1), [])
  }

  /** The test of esix_find_socket, for a packet that comes in. */
  predicate Matches(state: State, path: Path, p: Packet, proto: nat, mask: Mask) {
    && path.proto == proto && path.lport == p.dport && (path.laddr == p.daddr || path.laddr == ANY)
    && match mask
       case FindAny => true
       case FindListen => state == Listen
       case FindConnected => state != Closed && state != Reserved && path.raddr == p.saddr && path.rport == p.sport
  }

  /** Socket number n is the first that takes the packet. */
  predicate Takes(all: seq<Slot>, n: int, p: Packet, proto: nat, mask: Mask) {
    && 0 <= n < |all| && Matches(all[n].e.state, all[n].path, p, proto, mask)
    && forall j :: 0 <= j < n ==> !Matches(all[j].e.state, all[j].path, p, proto, mask)
  }

  /** No socket takes it. */
  predicate Untaken(all: seq<Slot>, p: Packet, proto: nat, mask: Mask) {
    forall j :: 0 <= j < |all| ==> !Matches(all[j].e.state, all[j].path, p, proto, mask)
  }

  /** Socket number n is the first closed one. */
  predicate Free(all: seq<Slot>, n: int) {
    0 <= n < |all| && all[n].e.state == Closed && forall j :: 0 <= j < n ==> all[j].e.state != Closed
  }

  predicate Full(all: seq<Slot>) {
    forall j :: 0 <= j < |all| ==> all[j].e.state != Closed
  }

  /** The ports that open sockets use. */
  ghost function PortsInUse(all: seq<Slot>): set<nat> {
    set i | 0 <= i < |all| && all[i].e.state != Closed :: all[i].path.lport
  }

  lemma {:induction false} FewPortsInUse(all: seq<Slot>)
    ensures |PortsInUse(all)| <= |all|
  {
    if all != [] {
      var n := |all| - 1;
      FewPortsInUse(all[..n]);
      var last := if all[n].e.state != Closed then {all[n].path.lport} else {};
      assert PortsInUse(all) == PortsInUse(all[..n]) + last;
    }
  }

  /** The next port to try; the counter has 16 bits. */
  function NextPort(port: nat): (r: nat)
    ensures FIRST_PORT <= r <= LAST_PORT
  {
    var p := (port + 1) % LENGTHS;
    if LAST_PORT < p || p < FIRST_PORT then FIRST_PORT else p
  }

  /** A connection in which nothing has happened yet. */
  function Unused(state: State, clock: nat): Endpoint {
    Endpoint(state, 0, 0, 0, [], clock, [], [], [], true)
  }

  /** The table once the state of socket n is another. */
  function WithState(all: seq<Slot>, n: nat, state: State): (r: seq<Slot>)
    requires n < |all|
    ensures |r| == |all|
  {
    all[n := all[n].(e := all[n].e.(state := state))]
  }

  /** The table once the connection of socket n is another. */
  function With(all: seq<Slot>, n: nat, e: Endpoint): (r: seq<Slot>)
    requires n < |all|
    ensures |r| == |all|
  {
    all[n := all[n].(e := e)]
  }

  /** What socket() makes of the closed socket n. */
  function Opened(all: seq<Slot>, n: nat, proto: nat, port: nat): (r: seq<Slot>)
    requires n < |all|
    ensures |r| == |all|
  {
    all[n := Slot(Path(proto, ANY, port, ANY, 0), Unused(Reserved, all[n].e.clock))]
  }

  /** A child waits behind all that is queued at socket n. */
  function Queued(all: seq<Slot>, n: nat, child: nat): (r: seq<Slot>)
    requires n < |all|
    ensures |r| == |all|
  {
    all[n := all[n].(e := all[n].e.(queue := all[n].e.queue + [Child(child)]))]
  }

  /** The passively opened socket of a packet's sender. */
  function Passive(p: Packet, proto: nat, clock: nat): Slot {
    Slot(Path(proto, p.daddr, p.dport, p.saddr, p.sport), Unused(SynReceived, clock))
  }

  /** The same once the SYN has been answered: it expects the byte after the SYN, and its own
      first byte is number 1. */
  function Begun(p: Packet, clock: nat): Slot {
    var child := Passive(p, SOCK_STREAM, clock);
    child.(e := child.e.(seqn := 1, ackn := Add32(p.segment.seqn, 1)))
  }

  /** A child has come to be at n, the first closed socket.  It waits behind all that is queued at
      `server`, the first socket that listens for the packet, and its segments find a socket. */
  predicate Created(before: seq<Slot>, after: seq<Slot>, server: int, n: int, p: Packet, proto: nat) {
    && Takes(before, server, p, proto, FindListen) && Free(before, n) && n != server
    && after == Queued(before, server, n)[n := Passive(p, proto, before[n].e.clock)]
    && Matches(after[n].e.state, after[n].path, p, proto, FindConnected)
  }

  /** At most closed sockets have changed, and they are still closed. */
  predicate OpenAlike(before: seq<Slot>, after: seq<Slot>) {
    && |after| == |before|
    && forall i :: 0 <= i < |before| ==> after[i] == before[i] || after[i].e.state == before[i].e.state == Closed
  }

  lemma Alike(all: seq<Slot>)
    ensures OpenAlike(all, all)
  {
  }

  /** What a SYN does: a child comes to be exactly if some socket listens, the table has room and
      there is memory.  It is the first closed socket, and it waits behind all that is queued at
      the first socket that listens.  Otherwise at most a closed socket has changed. */
  predicate Greeted(before: seq<Slot>, after: seq<Slot>, p: Packet, memory: bool, out: seq<Packet>, n: int, server: int) {
    if n == -1 then
      && (!memory || Full(before) || Untaken(before, p, SOCK_STREAM, FindListen))
      && OpenAlike(before, after)
      && out == Back(p, Emit(RstAck, Add32(p.segment.ackn, 1), Add32(p.segment.seqn, 1), []))
    else
      && memory && Takes(before, server, p, SOCK_STREAM, FindListen) && Free(before, n) && n != server
      && after == Queued(before, server, n)[n := Begun(p, before[n].e.clock)]
      && out == Back(p, Emit(SynAck, 0, Add32(p.segment.seqn, 1), []))
  }

  /** What any other segment does: it goes to the first connected socket that it matches, or is
      refused if there is none. */
  predicate Handled(before: seq<Slot>, after: seq<Slot>, p: Packet, memory: bool, out: seq<Packet>, n: int) {
    if n == -1 then
      Untaken(before, p, SOCK_STREAM, FindConnected) && after == before && out == Back(p, Refusal(p.segment))
    else
      && Takes(before, n, p, SOCK_STREAM, FindConnected)
      && var act := before[n].e.Process(p.segment, memory);
         after == With(before, n, act.e) && out == Back(p, act.out)
  }

  class Table {
    const sockets: seq<Socket>
    var lastPort: nat

    ghost function Sockets(): set<Socket> {
      set s | s in sockets
    }

    /** Every element that was ever queued at any socket. */
    ghost function Elements(): set<Element>
      reads Sockets()
    {
      set s, e | s in Sockets() && e in s.ever :: e
    }

    ghost function Views(): (all: seq<Slot>)
      reads Sockets()
      ensures |all| == |sockets| && forall i :: 0 <= i < |sockets| ==> all[i] == sockets[i].View()
    {
      seq(|sockets|, i requires 0 <= i < |sockets| reads Sockets() => sockets[i].View())
    }

    /** The sockets are different objects, and no two have ever queued the same element. */
    ghost predicate Apart()
      reads Sockets()
    {
      forall i, j :: 0 <= i < j < |sockets| ==> sockets[i] != sockets[j] && sockets[i].ever !! sockets[j].ever
    }

    /** Each socket is in order, with an account of its own elements. */
    ghost predicate Sound()
      reads this, Sockets(), Elements()
    {
      && |sockets| == MAX_SOCK && lastPort < LENGTHS && Apart()
      && forall i :: 0 <= i < MAX_SOCK ==> sockets[i].Valid()
    }

    /** And all go by one clock. */
    ghost predicate Valid()
      reads this, Sockets(), Elements()
    {
      Sound() && forall i :: 0 <= i < MAX_SOCK ==> sockets[i].clock == sockets[0].clock
    }

    /** esix_socket_init. */
    constructor ()
      ensures Valid() && fresh(Sockets()) && Elements() == {} && lastPort == 0
      ensures forall i :: 0 <= i < MAX_SOCK ==> Views()[i].e == Unused(Closed, 1)
    {
      var all: seq<Socket> := [];
      var n := 0;
      while n < MAX_SOCK
        invariant |all| == n <= MAX_SOCK
        invariant forall i :: 0 <= i < n ==>
                    fresh(all[i]) && all[i].Valid() && all[i].ever == {} && all[i].Abs() == Unused(Closed, 1)
        invariant forall i, j :: 0 <= i < j < n ==> all[i] != all[j]
      {
        var s := new Socket();
        all := all + [s];
        n := n + 1;
      }
      sockets := all;
      lastPort := 0;
    }

    /** Every element that was ever queued is linked into the queue of exactly one socket or has
        been freed, and never both. */
    lemma LinkedOnceOrFreed(e: Element)
      requires Valid() && e in Elements()
      ensures e.Alive() <==> exists i :: 0 <= i < MAX_SOCK && e in sockets[i].cells
      ensures e.Freed() <==> forall i :: 0 <= i < MAX_SOCK ==> e !in sockets[i].cells
      ensures forall i, j :: 0 <= i < j < MAX_SOCK && e in sockets[i].cells ==> e !in sockets[j].cells
      ensures forall i, a, b :: 0 <= i < MAX_SOCK && 0 <= a < b < |sockets[i].cells| && sockets[i].cells[a] == e ==>
                sockets[i].cells[b] != e
    {
      var s :| s in Sockets() && e in s.ever;
      var n :| 0 <= n < MAX_SOCK && sockets[n] == s;
      assert s.Valid();
      forall i | 0 <= i < MAX_SOCK && e in sockets[i].cells ensures i == n {
        assert sockets[i] in Sockets() && sockets[i].Valid();
        assert e in sockets[i].ever;
      }
      AllApart(s.cells);
    }

    lemma Size()
      requires Valid()
      ensures |sockets| == MAX_SOCK
    {
    }

    /** What happens at socket n, if it is one, leaves the others as they are and the elements
        apart. */
    twostate lemma Others(n: int)
      requires old(Sound()) && lastPort < LENGTHS
      requires forall i :: 0 <= i < MAX_SOCK && i != n ==> unchanged(sockets[i])
      requires forall i, e :: 0 <= i < MAX_SOCK && i != n && e in old(sockets[i].ever) ==> unchanged(e)
      requires 0 <= n < MAX_SOCK ==>
                 && sockets[n].Valid() && old(sockets[n].ever) <= sockets[n].ever
                 && fresh(sockets[n].ever - old(sockets[n].ever))
      ensures Sound() && old(Elements()) <= Elements()
      ensures forall e :: e in Elements() ==> e in old(Elements()) || fresh(e)
      ensures old(Valid()) && (0 <= n < MAX_SOCK ==> sockets[n].clock == old(sockets[n].clock)) ==> Valid()
      ensures Views() == if 0 <= n < MAX_SOCK then old(Views())[n := sockets[n].View()] else old(Views())
      ensures (0 <= n < MAX_SOCK ==> sockets[n].ever == old(sockets[n].ever)) ==> Elements() == old(Elements())
    {
    }

    // ----- opening --------------------------------------------------------------------------------

    /** esix_port_available. */
    method PortAvailable(port: nat) returns (ok: bool)
      requires |sockets| == MAX_SOCK
      ensures ok <==> port !in PortsInUse(Views())
    {
      var i := 0;
      while i < MAX_SOCK
        invariant 0 <= i <= MAX_SOCK
        invariant forall j :: 0 <= j < i ==> Views()[j].e.state == Closed || Views()[j].path.lport != port
      {
        if sockets[i].state != Closed && sockets[i].lport == port {
          assert Views()[i] == sockets[i].View();
          return false;
        }
        i := i + 1;
      }
      ok := true;
    }

    /** The port search of socket(): it finds the first port behind the last one given out that no open
        socket uses, and it ends within one try more than there are sockets, since the ports it tries
        are all different. */
    method FreePort() returns (ghost tries: nat)
      requires |sockets| == MAX_SOCK
      modifies this`lastPort
      ensures FIRST_PORT <= lastPort <= LAST_PORT && lastPort !in PortsInUse(Views())
      ensures 0 < tries <= MAX_SOCK + 1 && lastPort == Nth(NextPort(old(lastPort)), tries - 1)
      ensures Tried(NextPort(old(lastPort)), tries - 1) <= PortsInUse(Views())
    {
      hide PortsInUse, Nth, NextPort, Tried;
      ghost var views := Views();
      ghost var used := PortsInUse(views);
      FewPortsInUse(views);
      ghost var first := NextPort(lastPort);
      NthFirst(first);
      TriedNone(first);
      tries := 0;
      while true
        invariant lastPort == if tries == 0 then old(lastPort) else Nth(first, tries - 1)
        invariant Views() == views && |Tried(first, tries)| == tries <= MAX_SOCK && Tried(first, tries) <= used
        decreases MAX_SOCK + 1 - tries
      {
        if 0 < tries {
          NthSteps(first, tries);
        }
        lastPort := NextPort(lastPort);
        tries := tries + 1;
        var ok := PortAvailable(lastPort);
        assert Views() == views;
        if ok {
          return;
        }
        TriedOneMore(first, tries - 1);
        Smaller(Tried(first, tries), used);
      }
    }

    /** socket(): the first closed socket, with a port that no open socket uses; -1 when the family
        is wrong or the table is full. */
    method OpenSocket(family: nat, proto: nat) returns (n: int)
      requires Valid()
      modifies this`lastPort, Sockets()
      ensures Valid() && -1 <= n < MAX_SOCK && Elements() == old(Elements())
      ensures n == -1 ==> (family != AF_INET6 || Full(Views())) && Views() == old(Views())
      ensures n != -1 ==>
                && family == AF_INET6 && Free(old(Views()), n) && Views() == Opened(old(Views()), n, proto, lastPort)
                && FIRST_PORT <= lastPort <= LAST_PORT && lastPort !in PortsInUse(old(Views()))
    {
      if family != AF_INET6 {
        Others(-1);
        return -1;
      }
      ghost var tries := FreePort();
      n := 0;
      while n < MAX_SOCK
        invariant 0 <= n <= MAX_SOCK
        invariant forall j :: 0 <= j < n ==> sockets[j].state != Closed
        invariant forall s :: s in Sockets() ==> unchanged(s)
      {
        if sockets[n].state == Closed {
          sockets[n].Reserve(proto, lastPort);
          Others(n);
          return;
        }
        n := n + 1;
      }
      n := -1;
      Others(-1);
    }

    /** esix_find_socket. */
    method FindSocket(p: Packet, proto: nat, mask: Mask) returns (n: int)
      requires Valid()
      ensures n == -1 || (0 <= n < MAX_SOCK && Takes(Views(), n, p, proto, mask))
      ensures n == -1 <==> Untaken(Views(), p, proto, mask)
    {
      n := 0;
      while n < MAX_SOCK
        invariant 0 <= n <= MAX_SOCK
        invariant forall j :: 0 <= j < n ==> !Matches(Views()[j].e.state, Views()[j].path, p, proto, mask)
      {
        assert Views()[n] == sockets[n].View();
        if Matches(sockets[n].state, sockets[n].Ends(), p, proto, mask) {
          return;
        }
        n := n + 1;
      }
      n := -1;
    }

    /** listen(). */
    method Listen(n: nat) returns (r: int)
      requires Valid() && n < MAX_SOCK
      modifies sockets[n]
      ensures Valid() && Elements() == old(Elements())
      ensures r == if old(sockets[n].state) == Reserved then 0 else -1
      ensures Views() == if r == 0 then WithState(old(Views()), n, State.Listen) else old(Views())
    {
      r := -1;
      if sockets[n].state == Reserved {
        sockets[n].state := State.Listen;
        r := 0;
      }
      Others(n);
    }

    // ----- passive opening ------------------------------------------------------------------------

    method QueueChild(n: nat, child: nat)
      requires Valid() && n < MAX_SOCK && Views()[n].e.state != Closed
      modifies Sockets(), Elements()`next
      ensures Valid() && old(Elements()) <= Elements()
      ensures forall e :: e in Elements() ==> e in old(Elements()) || fresh(e)
      ensures Views() == Queued(old(Views()), n, child)
    {
      assert Views()[n] == sockets[n].View();
      sockets[n].QueueChild(child);
      Others(n);
    }

    /** Give up a socket that socket() has just opened. */
    method GiveBack(n: nat)
      requires Valid() && n < MAX_SOCK && Views()[n].e.queue == []
      modifies Sockets()
      ensures Valid() && Elements() == old(Elements()) && Views() == WithState(old(Views()), n, Closed)
    {
      assert Views()[n] == sockets[n].View();
      sockets[n].state := Closed;
      Others(n);
    }

    method Answer(n: nat, path: Path)
      requires Valid() && n < MAX_SOCK && Views()[n].e.state == Reserved
      modifies Sockets()
      ensures Valid() && Elements() == old(Elements())
      ensures Views() == WithState(old(Views())[n := old(Views())[n].(path := path)], n, SynReceived)
    {
      assert Views()[n] == sockets[n].View();
      sockets[n].Answer(path);
      Others(n);
    }

    /** Link a child to the socket that listens and give it its addresses. */
    method Adopt(server: nat, n: nat, path: Path)
      requires Valid() && server < MAX_SOCK && n < MAX_SOCK && server != n
      requires Views()[server].e.state != Closed && Views()[n].e.state == Reserved
      modifies Sockets(), Elements()`next
      ensures Valid() && old(Elements()) <= Elements()
      ensures forall e :: e in Elements() ==> e in old(Elements()) || fresh(e)
      ensures var linked := Queued(old(Views()), server, n);
              Views() == WithState(linked[n := linked[n].(path := path)], n, SynReceived)
    {
      hide Views, Valid, Sound, WithState;
      Size();
      QueueChild(server, n);
      Answer(n, path);
    }

    /** esix_socket_create_child once it has found a socket that listens. */
    method CreateFor(server: nat, p: Packet, proto: nat, memory: bool) returns (n: int)
      requires Valid() && server < MAX_SOCK && Takes(Views(), server, p, proto, FindListen)
      modifies this`lastPort, Sockets(), Elements()`next
      ensures Valid() && -1 <= n < MAX_SOCK && old(Elements()) <= Elements()
      ensures forall e :: e in Elements() ==> e in old(Elements()) || fresh(e)
      ensures n != -1 ==> memory && Created(old(Views()), Views(), server, n, p, proto)
      ensures n == -1 ==>
                (!memory || Full(old(Views()))) && Elements() == old(Elements()) && OpenAlike(old(Views()), Views())
    {
      hide Views, Valid, Sound, Elements, PortsInUse, Matches, Takes, Free, Opened, Queued, WithState, Created, OpenAlike;
      Size();
      ghost var before := Views();
      n := OpenSocket(AF_INET6, proto);
      if n < 0 {
        Alike(before);
        return -1;
      }
      ChildSteps(before, server, n, p, proto, lastPort);
      if memory {
        Adopt(server, n, Path(proto, p.daddr, p.dport, p.saddr, p.sport));
      } else {
        GiveBack(n);
        n := -1;
      }
    }

    /** esix_socket_create_child; `memory` says whether the allocation succeeds.  A child comes to
        be exactly if some socket listens, the table has room and there is memory; otherwise at most
        a closed socket has changed. */
    method CreateChild(p: Packet, proto: nat, memory: bool) returns (n: int, ghost server: int)
      requires Valid()
      modifies this`lastPort, Sockets(), Elements()`next
      ensures Valid() && -1 <= n < MAX_SOCK && old(Elements()) <= Elements()
      ensures forall e :: e in Elements() ==> e in old(Elements()) || fresh(e)
      ensures n != -1 ==> memory && Created(old(Views()), Views(), server, n, p, proto)
      ensures n == -1 ==>
                && (!memory || Full(old(Views())) || Untaken(old(Views()), p, proto, FindListen))
                && Elements() == old(Elements()) && OpenAlike(old(Views()), Views())
    {
      hide Views, Valid, Sound, Matches, Takes, Untaken, Full, Created, OpenAlike;
      var listener := FindSocket(p, proto, FindListen);
      server := listener;
      n := -1;
      if listener < 0 {
        Alike(Views());
      } else {
        n := CreateFor(listener, p, proto, memory);
      }
    }

    /** The branch of esix_tcp_process for SYN. */
    method ProcessSyn(p: Packet, memory: bool) returns (out: seq<Packet>, ghost n: int, ghost server: int)
      requires Valid() && p.segment.flags == Syn
      modifies this`lastPort, Sockets(), Elements()`next
      ensures Valid() && old(Elements()) <= Elements()
      ensures forall e :: e in Elements() ==> e in old(Elements()) || fresh(e)
      ensures Greeted(old(Views()), Views(), p, memory, out, n, server)
      ensures n == -1 ==> Elements() == old(Elements())
    {
      hide Views, Valid, Sound, Matches, Takes, Untaken, Free, Full, Queued, Passive, Begun, Emit;
      var s := p.segment;
      Size();
      ghost var before := Views();
      var child: int;
      child, server := CreateChild(p, SOCK_STREAM, memory);
      n := child;
      if child < 0 {
        out := Back(p, Emit(RstAck, Add32(s.ackn, 1), Add32(s.seqn, 1), []));
      } else {
        out := Start(p, child, before[child].e.clock);
      }
    }

    /** What becomes of the child once it exists. */
    method Start(p: Packet, n: nat, ghost clock: nat) returns (out: seq<Packet>)
      requires Valid() && n < MAX_SOCK && Views()[n] == Passive(p, SOCK_STREAM, clock)
      modifies Sockets()
      ensures Valid() && Elements() == old(Elements())
      ensures Views() == old(Views())[n := Begun(p, clock)]
      ensures out == Back(p, Emit(SynAck, 0, Add32(p.segment.seqn, 1), []))
    {
      hide Emit;
      assert Views()[n] == sockets[n].View();
      var segments := sockets[n].Greet(p.segment.seqn);
      out := Back(p, segments);
      Others(n);
    }

    /** esix_tcp_process for a packet of the right length and checksum. */
    method Process(p: Packet, memory: bool) returns (out: seq<Packet>, ghost n: int, ghost server: int)
      requires Valid()
      modifies this`lastPort, Sockets(), Elements()
      ensures Valid() && old(Elements()) <= Elements()
      ensures forall e :: e in Elements() ==> e in old(Elements()) || fresh(e)
      ensures if p.segment.flags == Syn then Greeted(old(Views()), Views(), p, memory, out, n, server)
              else if p.segment.flags == Unknown then Views() == old(Views()) && out == []
              else Handled(old(Views()), Views(), p, memory, out, n)
    {
      hide Views, Valid, Sound, Matches, Takes, Untaken, Emit, Refusal, Endpoint.Process;
      n, server, out := -1, -1, [];
      if p.segment.flags == Syn {
        out, n, server := ProcessSyn(p, memory);
      } else if p.segment.flags != Unknown {
        var found := FindSocket(p, SOCK_STREAM, FindConnected);
        n := found;
        if found < 0 {
          out := Back(p, Refusal(p.segment));
        } else {
          out := Pass(p, found, memory);
        }
      }
    }

    /** A segment goes to socket n. */
    method Pass(p: Packet, n: nat, memory: bool) returns (out: seq<Packet>)
      requires Valid() && n < MAX_SOCK && Takes(Views(), n, p, SOCK_STREAM, FindConnected)
      modifies Sockets(), Elements()
      ensures Valid() && old(Elements()) <= Elements()
      ensures forall e :: e in Elements() ==> e in old(Elements()) || fresh(e)
      ensures var act := old(Views())[n].e.Process(p.segment, memory);
              Views() == With(old(Views()), n, act.e) && out == Back(p, act.out)
    {
      hide Endpoint.Process;
      assert Views()[n] == sockets[n].View();
      var segments := sockets[n].Process(p.segment, memory);
      out := Back(p, segments);
      Others(n);
    }

    // ----- the calls ------------------------------------------------------------------------------

    /** accept(): the first child that waits at socket n, whose element is unlinked and freed, and the
        address of the peer of socket n itself. */
    method Accept(n: nat) returns (child: int, peer: Peer)
      requires Valid() && n < MAX_SOCK
      modifies sockets[n], sockets[n].ever
      ensures Valid() && Elements() == old(Elements())
      ensures Views() == With(old(Views()), n, (var e := old(Views())[n].e; e.(queue := Evicted(e.queue, ChildSocket))))
      ensures var children := Of(old(Views())[n].e.queue, ChildSocket);
              if children == [] then child == -1 else 0 <= child && children[0] == Child(child)
      ensures var path := old(Views())[n].path; peer == if child == -1 then Unnamed else Named(path.raddr, path.rport)
    {
      hide Evicted, Of;
      assert Views()[n] == sockets[n].View();
      child, peer := sockets[n].Accept();
      Others(n);
    }

    /** connect(); `source` says whether a source address is found for the destination. */
    method Connect(n: nat, to: Address, port: nat, source: bool) returns (r: int, out: seq<Packet>)
      requires Valid() && n < MAX_SOCK
      modifies sockets[n]
      ensures Valid() && Elements() == old(Elements())
      ensures var before := old(Views())[n];
              && (r == 0 <==> (|| (before.path.proto == SOCK_STREAM && before.e.state in {Reserved, Closed} && source)
                               || (before.path.proto == SOCK_DGRAM && before.e.state in {State.Listen, Established})))
              && (r == 0 || (r == -1 && Views() == old(Views()) && out == []))
              && (r == 0 ==>
                    var path := before.path.(raddr := to, rport := port);
                    var act := if path.proto == SOCK_STREAM then before.e.Connect()
                               else Act(before.e.(state := Established), []);
                    Views() == old(Views())[n := Slot(path, act.e)] && out == FromSocket(path, act.out))
    {
      assert Views()[n] == sockets[n].View();
      var segments;
      r, segments := sockets[n].Connect(to, port, source);
      out := FromSocket(sockets[n].Ends(), segments);
      Others(n);
    }

    /** send(); a datagram that it sends is not part of the result. */
    method Send(n: nat, data: seq<Byte>, memory: bool) returns (r: int, out: seq<Packet>)
      requires Valid() && n < MAX_SOCK
      modifies sockets[n], sockets[n].ever
      ensures Valid() && old(Elements()) <= Elements()
      ensures forall e :: e in Elements() ==> e in old(Elements()) || fresh(e)
      ensures var before := old(Views())[n];
              var act := if before.path.proto == SOCK_STREAM then before.e.Send(data, memory) else Act(before.e, []);
              && Views() == With(old(Views()), n, act.e) && out == FromSocket(before.path, act.out)
              && r == if before.e.state != Established then -1
                      else if before.path.proto == SOCK_DGRAM then |data|
                      else if before.path.proto != SOCK_STREAM then -1
                      else if act.e == before.e then 0 else |data|
    {
      assert Views()[n] == sockets[n].View();
      var segments;
      r, segments := sockets[n].Send(data, memory);
      out := FromSocket(sockets[n].Ends(), segments);
      Others(n);
    }

    /** recvfrom(). */
    method RecvFrom(n: nat, max: nat) returns (r: int, data: seq<Byte>, peer: Peer)
      requires Valid() && n < MAX_SOCK
      modifies sockets[n], sockets[n].ever
      ensures Valid() && Elements() == old(Elements())
      ensures var before := old(Views())[n];
              && Views() == With(old(Views()), n, if before.path.proto == SOCK_STREAM then before.e.Receive(max).e
                                                  else if before.path.proto == SOCK_DGRAM then before.e.TakeOut(max)
                                                  else before.e.(queue := Evicted(before.e.queue, ReceivedPacket)))
              && Views()[n].e.received == before.e.received + data
              && var waiting := Of(before.e.queue, ReceivedPacket);
                 if before.path.proto == SOCK_STREAM && before.e.state != Established then r == -1 && peer == Unnamed
                 else if waiting == [] then r == 0 && peer == Unnamed
                 else && waiting[0].Recv? && r == (if max < |waiting[0].data| then max else |waiting[0].data|)
                      && (before.path.proto == SOCK_STREAM ==> peer == Named(before.path.raddr, before.path.rport))
    {
      hide Evicted, Of, Find;
      assert Views()[n] == sockets[n].View();
      r, data, peer := sockets[n].RecvFrom(max);
      Others(n);
    }

    /** close(). */
    method Close(n: nat) returns (r: int, out: seq<Packet>)
      requires Valid() && n < MAX_SOCK
      modifies sockets[n], sockets[n].ever
      ensures Valid() && Elements() == old(Elements())
      ensures var before := old(Views())[n];
              var act := before.e.Close();
              && Views() == With(old(Views()), n, act.e)
              && out == FromSocket(before.path, if before.path.proto == SOCK_STREAM then act.out else [])
              && r == if before.e.state == Closed || before.e.state == Closing then -1 else 0
    {
      assert Views()[n] == sockets[n].View();
      var segments;
      r, segments := sockets[n].Close();
      out := FromSocket(sockets[n].Ends(), segments);
      Others(n);
    }

    // ----- time -----------------------------------------------------------------------------------

    lemma OneClock()
      requires Valid()
      ensures Ticked(Views(), 0) == Views() && forall i :: 0 <= i < MAX_SOCK ==> Views()[i].e.clock == Views()[0].e.clock
    {
      assert forall i :: 0 <= i < MAX_SOCK ==> Views()[i].e.clock == sockets[i].clock;
    }

    lemma StillOneClock(before: seq<Slot>)
      requires Sound() && |before| == MAX_SOCK && Views() == Ticked(before, MAX_SOCK)
      requires forall i :: 0 <= i < MAX_SOCK ==> before[i].e.clock == before[0].e.clock
      ensures Valid()
    {
      hide Endpoint.Tick, Apart;
      forall i | 0 <= i < MAX_SOCK ensures sockets[i].clock == before[0].e.clock + 1 {
        TickTakesOne(before[i].e);
        assert Views()[i] == sockets[i].View();
      }
    }

    /** The turn of one socket in the loop over all. */
    method TickOne(n: nat) returns (out: seq<Packet>)
      requires Sound() && n < MAX_SOCK
      modifies Sockets(), Elements()
      ensures Sound() && Elements() == old(Elements())
      ensures var act := old(Views())[n].e.Tick();
              Views() == With(old(Views()), n, act.e) && out == FromSocket(old(Views())[n].path, act.out)
    {
      hide Endpoint.Tick;
      assert Views()[n] == sockets[n].View();
      var segments := sockets[n].Tick();
      out := FromSocket(sockets[n].Ends(), segments);
      Others(n);
    }

    /** esix_periodic_callback and esix_socket_housekeep: every socket's timer, in turn. */
    method Tick() returns (out: seq<Packet>)
      requires Valid()
      modifies Sockets(), Elements()
      ensures Valid() && Elements() == old(Elements())
      ensures Views() == Ticked(old(Views()), MAX_SOCK) && out == TickPackets(old(Views()), MAX_SOCK)
    {
      hide Views, Sound, Elements, FromSocket, Endpoint.Tick;
      Size();
      ghost var before := Views();
      OneClock();
      out := [];
      var n := 0;
      while n < MAX_SOCK
        invariant 0 <= n <= MAX_SOCK && Sound() && Elements() == old(Elements())
        invariant Views() == Ticked(old(Views()), n) && out == TickPackets(old(Views()), n)
      {
        var more := TickOne(n);
        TickedStep(before, n);
        out := out + more;
        n := n + 1;
      }
      StillOneClock(before);
    }
  }

  /** The table once the first n sockets have seen the tick. */
  function Ticked(all: seq<Slot>, n: nat): (r: seq<Slot>)
    requires n <= |all|
    ensures |r| == |all|
  {
    seq(|all|, i requires 0 <= i < |all| => if i < n then all[i].(e := all[i].e.Tick().e) else all[i])
  }

  lemma TickedStep(all: seq<Slot>, n: nat)
    requires n < |all|
    ensures Ticked(all, n)[n] == all[n] && With(Ticked(all, n), n, all[n].e.Tick().e) == Ticked(all, n + 1)
  {
    hide Endpoint.Tick;
  }

  lemma TickTakesOne(e: Endpoint)
    ensures e.Tick().e.clock == e.clock + 1
  {
    hide Emit, Xor2, Find;
  }

  /** The segments that the first n sockets send at the tick. */
  function TickPackets(all: seq<Slot>, n: nat): seq<Packet>
    requires n <= |all|
  {
    if n == 0 then [] else TickPackets(all, n - 1) + FromSocket(all[n - 1].path, all[n - 1].e.Tick().out)
  }

  /** The port of a socket that is given out is that of no other open socket. */
  lemma OpenedPortIsNew(all: seq<Slot>, n: nat, proto: nat, port: nat)
    requires Free(all, n) && port !in PortsInUse(all)
    ensures var r := Opened(all, n, proto, port);
            && r[n].path.lport == port && r[n].path.proto == proto && r[n].e.state == Reserved
            && forall i :: 0 <= i < |all| && i != n ==>
                 r[i] == all[i] && (r[i].e.state != Closed ==> r[i].path.lport != port)
  {
    forall i | 0 <= i < |all| && all[i].e.state != Closed ensures all[i].path.lport in PortsInUse(all) {
    }
  }

  /** A tick sends what each socket's own timer sends, and no more than one packet for each. */
  lemma {:induction false} TickSendsForEach(all: seq<Slot>, n: nat, x: Packet)
    requires n <= |all|
    ensures x in TickPackets(all, n) <==> exists i :: 0 <= i < n && x in FromSocket(all[i].path, all[i].e.Tick().out)
    ensures |TickPackets(all, n)| <= n
  {
    hide FromSocket, Xor2, Find;
    if 0 < n {
      TickSendsForEach(all, n - 1, x);
      OnePerSocket(all[n - 1]);
    }
  }

  lemma OnePerSocket(s: Slot)
    ensures |FromSocket(s.path, s.e.Tick().out)| <= 1
  {
    hide Xor2, Find;
  }

  /** The steps of esix_socket_create_child, on values. */
  lemma ChildSteps(all: seq<Slot>, server: nat, n: nat, p: Packet, proto: nat, port: nat)
    requires Takes(all, server, p, proto, FindListen) && Free(all, n)
    ensures n != server
    ensures var taken := Opened(all, n, proto, port);
            && taken[server].e.state != Closed && taken[n].e.state == Reserved && taken[n].e.queue == []
            && OpenAlike(all, WithState(taken, n, Closed))
            && var linked, path := Queued(taken, server, n), Path(proto, p.daddr, p.dport, p.saddr, p.sport);
               Created(all, WithState(linked[n := linked[n].(path := path)], n, SynReceived), server, n, p, proto)
  {
  }

  // ----- the passive handshake --------------------------------------------------------------------

  /** Which packets find the child that a SYN has made: those of the SYN's sender, exactly if no
      socket before it in the table was connected to that sender already. */
  lemma ChildIsFoundExactlyWhen(before: seq<Slot>, after: seq<Slot>, syn: Packet, memory: bool, out: seq<Packet>,
                                n: int, server: int, p: Packet)
    requires Greeted(before, after, syn, memory, out, n, server) && n != -1
    requires p == syn.(segment := p.segment)
    ensures |after| == |before| && 0 <= n < |before|
    ensures Takes(after, n, p, SOCK_STREAM, FindConnected) <==>
              forall j :: 0 <= j < n ==> !Matches(before[j].e.state, before[j].path, syn, SOCK_STREAM, FindConnected)
  {
    assert forall j :: 0 <= j < n ==> after[j].path == before[j].path && after[j].e.state == before[j].e.state;
  }

  /** The peer's answer to a SYN|ACK: it acknowledges that number and goes on from the one that it
      has been told to. */
  function Completing(synAck: Segment, data: seq<Byte>): Segment {
    Segment(Ack, synAck.ackn, Add32(synAck.seqn, 1), data)
  }

  /** Then the acknowledgement that completes the handshake establishes the child.  The two ends agree
      on the numbers, the peer's being the one after the SYN, and nothing waits; and accept on the
      listening socket will hand the child out after those that waited before. */
  lemma HandshakeEstablishes(before: seq<Slot>, after: seq<Slot>, syn: Packet, memory: bool, out: seq<Packet>,
                             n: int, server: int, ack: Packet, last: seq<Slot>, answer: seq<Packet>, m: int)
    requires Greeted(before, after, syn, memory, out, n, server) && n != -1
    requires forall j :: 0 <= j < n ==> !Matches(before[j].e.state, before[j].path, syn, SOCK_STREAM, FindConnected)
    requires ack == syn.(segment := Completing(out[0].segment, ack.segment.data))
    requires Handled(after, last, ack, memory, answer, m)
    ensures m == n && answer == []
    ensures last == With(after, n, after[n].e.(state := Established))
    ensures last[n].e.seqn == ack.segment.ackn && last[n].e.queue == []
    ensures last[n].e.ackn == ack.segment.seqn == Add32(syn.segment.seqn, 1)
    ensures Of(last[server].e.queue, ChildSocket) == Of(before[server].e.queue, ChildSocket) + [Child(n)]
  {
    hide Of;
    ChildIsFoundExactlyWhen(before, after, syn, memory, out, n, server, ack);
    FirstIsOne(after, n, m, ack, SOCK_STREAM, FindConnected);
    EstablishedByAck(after[n].e, ack.segment, memory);
    QueueingAppends(before[server].e.queue, Child(n), ChildSocket);
  }

  /** A socket that connects to one that listens is not connected by the answer: it takes no notice of
      it, since it expects its own number to be acknowledged and not the one after that. */
  lemma ConnectMeetsListen(e: Endpoint, path: Path, before: seq<Slot>, after: seq<Slot>, memory: bool, out: seq<Packet>,
                           n: int, server: int, memory': bool)
    requires e.state in {Reserved, Closed} && e.seqn < WORD && |e.Connect().out| == 1
    requires Greeted(before, after, FromSocket(path, e.Connect().out)[0], memory, out, n, server) && n != -1
    ensures |out| == 1 && Matches(SynSent, path, out[0], path.proto, FindConnected)
    ensures e.Connect().e.Process(out[0].segment, memory') == Act(e.Connect().e, [])
  {
    hide Takes, Free, Queued, Begun;
    TwoAhead(e.seqn);
  }

  lemma FirstIsOne(all: seq<Slot>, n: int, m: int, p: Packet, proto: nat, mask: Mask)
    requires Takes(all, n, p, proto, mask)
    requires if m == -1 then Untaken(all, p, proto, mask) else Takes(all, m, p, proto, mask)
    ensures m == n
  {
  }

  lemma EstablishedByAck(e: Endpoint, s: Segment, memory: bool)
    requires e.state == SynReceived && e.queue == [] && s.flags == Ack && s.seqn == e.ackn
    ensures e.Process(s, memory) == Act(e.(state := Established), [])
  {
  }

  /** A SYN is accepted exactly if a stream socket listens on its port, at any address or the one it
      was sent to, some socket is closed, and there is memory. */
  lemma SynIsAcceptedExactlyWhen(before: seq<Slot>, after: seq<Slot>, p: Packet, memory: bool, out: seq<Packet>,
                                 n: int, server: int)
    requires Greeted(before, after, p, memory, out, n, server)
    ensures n != -1 <==>
              && memory && (exists i :: 0 <= i < |before| && before[i].e.state == Closed)
              && exists i ::
                   && 0 <= i < |before| && before[i].e.state == State.Listen && before[i].path.proto == SOCK_STREAM
                   && before[i].path.lport == p.dport && before[i].path.laddr in {ANY, p.daddr}
    ensures n == -1 ==> out == Back(p, Emit(RstAck, Add32(p.segment.ackn, 1), Add32(p.segment.seqn, 1), []))
  {
  }

  // ----- who hears whom ---------------------------------------------------------------------------

  /** A connected socket hears one peer only: whatever two segments it takes come from the same
      address and port, and to the same port and, unless it is open to all, the same address.  And a
      socket of another type hears no segment. */
  lemma OnePeer(all: seq<Slot>, n: int, p: Packet, q: Packet)
    requires Takes(all, n, p, SOCK_STREAM, FindConnected) && Takes(all, n, q, SOCK_STREAM, FindConnected)
    ensures p.saddr == q.saddr && p.sport == q.sport && p.dport == q.dport
    ensures 0 <= n < |all| && all[n].path.proto == SOCK_STREAM
    ensures all[n].path.laddr != ANY ==> p.daddr == q.daddr == all[n].path.laddr
  {
  }

  /** The connection as the other end sees it. */
  function Mirror(path: Path): Path {
    Path(path.proto, path.raddr, path.rport, path.laddr, path.lport)
  }

  predicate Connected(s: Slot) {
    s.e.state != Closed && s.e.state != Reserved
  }

  /** Socket n is connected, and none before it is connected to the same peer. */
  predicate FirstOfItsPeer(all: seq<Slot>, n: nat) {
    && n < |all| && Connected(all[n])
    && var b := all[n].path;
       forall j :: 0 <= j < n && Connected(all[j]) ==>
         var a := all[j].path;
         a.proto != b.proto || a.lport != b.lport || a.raddr != b.raddr || a.rport != b.rport || a.laddr !in {ANY, b.laddr}
  }

  /** What the other end sends along a connection finds this end's socket and no other, and what
      this end answers is sent along the connection in turn, so that it finds the other end's. */
  lemma SegmentsMeet(path: Path, out: seq<Segment>, i: nat, b: seq<Slot>, m: nat,
                     memory: bool, after: seq<Slot>, answer: seq<Packet>, k: int)
    requires path.proto == SOCK_STREAM && i < |out|
    requires FirstOfItsPeer(b, m) && b[m].path == Mirror(path)
    requires Handled(b, after, FromSocket(path, out)[i], memory, answer, k)
    ensures k == m && after == With(b, m, b[m].e.Process(out[i], memory).e)
    ensures answer == FromSocket(Mirror(path), b[m].e.Process(out[i], memory).out)
    ensures Mirror(Mirror(path)) == path
  {
    hide Endpoint.Process, Emit, Refusal;
    var p := FromSocket(path, out)[i];
    assert Takes(b, m, p, SOCK_STREAM, FindConnected);
    FirstIsOne(b, m, k, p, SOCK_STREAM, FindConnected);
  }

  /** A segment that no socket takes is answered with a reset, unless it is one itself; the reset takes
      its numbers from the segment, and is not answered in turn. */
  lemma RefusalsEnd(s: Segment)
    ensures Refusal(s) != [] <==> s.flags !in {Rst, RstAck, Unknown}
    ensures forall r :: r in Refusal(s) ==>
              && r.flags == RstAck && r.data == [] && Refusal(r) == []
              && var more := if s.flags in {Ack, PshAck, CwrPshAck} then 0 else 1;
                 r.seqn == (if more == 0 then s.ackn else Add32(s.ackn, 1))
                 && r.ackn == (if more == 0 then s.seqn else Add32(s.seqn, 1))
  {
  }

  /** A socket that is not connected answers a segment as if there were none. */
  lemma UnconnectedRefuses(e: Endpoint, s: Segment, memory: bool)
    requires !e.Connected() && s.flags != Syn
    ensures e.Process(s, memory) == Act(e, Refusal(s))
  {
  }

  /** A connection whose other end is gone is closed as soon as a segment has gone there and the reset
      has come back. */
  lemma HalfOpenIsReset(a: seq<Slot>, n: nat, out: seq<Segment>, i: nat,
                        b: seq<Slot>, memory: bool, after: seq<Slot>, answer: seq<Packet>, k: int,
                        memory': bool, last: seq<Slot>, answer': seq<Packet>, m: int)
    requires FirstOfItsPeer(a, n) && a[n].path.proto == SOCK_STREAM && i < |out|
    requires out[i].flags !in {Rst, RstAck, Unknown}
    requires var p := FromSocket(a[n].path, out)[i];
             Untaken(b, p, SOCK_STREAM, FindConnected) && Handled(b, after, p, memory, answer, k)
    ensures after == b && |answer| == 1
    ensures Handled(a, last, answer[0], memory', answer', m) ==>
              m == n && answer' == [] && last == With(a, n, a[n].e.(state := Closed, queue := []))
  {
    hide Takes;
    var p, path := FromSocket(a[n].path, out)[i], a[n].path;
    RefusalsEnd(out[i]);
    assert k == -1 by { NoneTakes(b, p, k); }
    assert answer == FromSocket(Mirror(path), Refusal(out[i]));
    if Handled(a, last, answer[0], memory', answer', m) {
      SegmentsMeet(Mirror(path), Refusal(out[i]), 0, a, n, memory', last, answer', m);
      ResetEnds(a[n].e, Refusal(out[i])[0], memory');
    }
  }

  lemma NoneTakes(all: seq<Slot>, p: Packet, k: int)
    requires Untaken(all, p, SOCK_STREAM, FindConnected)
    ensures !Takes(all, k, p, SOCK_STREAM, FindConnected)
  {
  }

  /** The two packets do not travel between the same ends. */
  predicate DifferentPeers(p: Packet, q: Packet) {
    p.saddr != q.saddr || p.sport != q.sport || p.dport != q.dport
  }

  /** Two SYNs, even from one host, make two connections that are kept apart: the segments of each
      sender find its own child. */
  lemma PeersAreKeptApart(before: seq<Slot>, p: Packet, memory: bool, out: seq<Packet>, n: int, s: int, mid: seq<Slot>,
                          q: Packet, memory': bool, out': seq<Packet>, m: int, s': int, after: seq<Slot>)
    requires DifferentPeers(p, q)
    requires Untaken(before, p, SOCK_STREAM, FindConnected) && Untaken(before, q, SOCK_STREAM, FindConnected)
    requires Greeted(before, mid, p, memory, out, n, s) && Greeted(mid, after, q, memory', out', m, s')
    requires n != -1 && m != -1
    ensures n != m && Takes(after, n, p, SOCK_STREAM, FindConnected) && Takes(after, m, q, SOCK_STREAM, FindConnected)
  {
    hide Emit;
    ChildIsFoundExactlyWhen(before, mid, p, memory, out, n, s, p);
    assert forall j :: 0 <= j < |before| && j != n ==>
        mid[j].path == before[j].path && mid[j].e.state == before[j].e.state;
    assert !Matches(mid[n].e.state, mid[n].path, q, SOCK_STREAM, FindConnected);
    ChildIsFoundExactlyWhen(mid, after, q, memory', out', m, s', q);
    assert forall j :: 0 <= j < |mid| && j != m ==>
        after[j].path == mid[j].path && after[j].e.state == mid[j].e.state;
    assert !Matches(after[m].e.state, after[m].path, p, SOCK_STREAM, FindConnected);
  }

  /** Then a segment of the first sender's leaves the second one's connection as it is. */
  lemma PeersDoNotMix(all: seq<Slot>, p: Packet, n: int, q: Packet, m: int,
                      x: Packet, memory: bool, after: seq<Slot>, answer: seq<Packet>, k: int)
    requires n != m && Takes(all, n, p, SOCK_STREAM, FindConnected) && Takes(all, m, q, SOCK_STREAM, FindConnected)
    requires x == p.(segment := x.segment) && Handled(all, after, x, memory, answer, k)
    ensures k == n && |after| == |all| && 0 <= m < |all| && after[m] == all[m]
  {
    hide Endpoint.Process, Emit, Refusal;
    assert Takes(all, n, x, SOCK_STREAM, FindConnected);
    FirstIsOne(all, n, k, x, SOCK_STREAM, FindConnected);
  }

  /** A table of closed sockets but for one that listens and has nothing queued. */
  predicate OneListens(all: seq<Slot>, server: nat) {
    && 1 < |all| && server < |all| && all[server].path == Path(SOCK_STREAM, ANY, all[server].path.lport, ANY, 0)
    && all[server].e == Unused(State.Listen, 1)
    && forall i :: 0 <= i < |all| && i != server ==> all[i].e == Unused(Closed, 1)
  }

  lemma OpenedFirst(all: seq<Slot>, n: int, port: nat)
    requires 1 < |all| && forall i :: 0 <= i < |all| ==> all[i].e == Unused(Closed, 1)
    ensures !Full(all)
    ensures Free(all, n) ==>
              && Opened(all, n, SOCK_STREAM, port)[n].e.state == Reserved
              && OneListens(WithState(Opened(all, n, SOCK_STREAM, port), n, State.Listen), n)
  {
    assert all[0].e.state == Closed;
  }

  lemma GreetedAlone(all: seq<Slot>, server: nat, after: seq<Slot>, p: Packet, out: seq<Packet>, n: int, s: int)
    requires OneListens(all, server) && p.dport == all[server].path.lport
    requires Greeted(all, after, p, true, out, n, s)
    ensures s == server && 0 <= n < |all| && n != server
    ensures after == Queued(all, server, n)[n := Begun(p, 1)]
    ensures after[server].e == Unused(State.Listen, 1).(queue := [Child(n)]) && after[server].path == all[server].path
  {
    hide Emit, Begun;
    assert Matches(all[server].e.state, all[server].path, p, SOCK_STREAM, FindListen);
    var other := if server == 0 then 1 else 0;
    assert all[other].e.state == Closed;
  }

  lemma OnlyChildLeaves(n: nat)
    ensures Of([Child(n)], ChildSocket) == [Child(n)] && Evicted([Child(n)], ChildSocket) == []
  {
  }

  /** The table once accept has handed that child out. */
  lemma ServedAlone(all: seq<Slot>, server: nat, after: seq<Slot>, p: Packet, out: seq<Packet>, n: int, s: int)
    requires OneListens(all, server) && p.dport == all[server].path.lport
    requires Greeted(all, after, p, true, out, n, s)
    ensures |after| == |all| && 0 <= n < |all| && n != server && Of(after[server].e.queue, ChildSocket) == [Child(n)]
    ensures after[server].path == Path(SOCK_STREAM, ANY, p.dport, ANY, 0)
    ensures var e := after[server].e;
            var last := With(after, server, e.(queue := Evicted(e.queue, ChildSocket)));
            && last[n] == Begun(p, 1)
            && last[server].e == Unused(State.Listen, 1) && last[server].path.lport == p.dport
  {
    hide Greeted, Of, Evicted, Begun;
    GreetedAlone(all, server, after, p, out, n, s);
    OnlyChildLeaves(n);
  }

  /** From an empty table, a socket is opened and listens. */
  method ListenAlone() returns (table: Table, server: int)
    ensures table.Valid() && fresh(table) && fresh(table.Sockets()) && table.Elements() == {}
    ensures 0 <= server < MAX_SOCK && OneListens(table.Views(), server)
  {
    hide Full, Free, Opened, WithState, OneListens, Unused;
    table := new Table();
    ghost var none := table.Views();
    OpenedFirst(none, 0, 0);
    server := table.OpenSocket(AF_INET6, SOCK_STREAM);
    OpenedFirst(none, server, table.lastPort);
    var r := table.Listen(server);
  }

  /** Then a SYN comes for it, and accept hands out the connection that the SYN has opened; but the
      address that it hands back is not the peer's. */
  method ServeOne(saddr: Address, daddr: Address, sport: nat, isn: nat)
    returns (table: Table, server: int, child: int, peer: Peer)
    ensures table.Valid() && 0 <= server < MAX_SOCK && 0 <= child < MAX_SOCK && child != server
    ensures table.Views()[server].e == Unused(State.Listen, 1)
    ensures var port := table.Views()[server].path.lport;
            table.Views()[child] == Begun(Packet(saddr, daddr, sport, port, Segment(Syn, isn, 0, [])), 1)
    ensures peer == Named(ANY, 0)
  {
    hide OneListens, Begun, Greeted, Of, Evicted, With, Unused, Table.Views, Table.Valid;
    table, server := ListenAlone();
    table.Size();
    ghost var listening := table.Views();
    var p := Packet(saddr, daddr, sport, table.sockets[server].lport, Segment(Syn, isn, 0, []));
    var out, n, s := table.ProcessSyn(p, true);
    ServedAlone(listening, server, table.Views(), p, out, n, s);
    child, peer := table.Accept(server);
  }

  // ----- a second SYN from the same sender --------------------------------------------------------

  /** A sender that is connected already keeps its connection exactly if that is before the new child
      in the table; otherwise its segments go to the new child from then on. */
  lemma ConnectionIsKeptExactlyWhen(before: seq<Slot>, after: seq<Slot>, syn: Packet, memory: bool, out: seq<Packet>,
                                    n: int, server: int, m: int, p: Packet)
    requires Greeted(before, after, syn, memory, out, n, server) && n != -1
    requires Takes(before, m, syn, SOCK_STREAM, FindConnected) && p == syn.(segment := p.segment)
    ensures m != n && 0 <= n < |before|
    ensures Takes(after, m, p, SOCK_STREAM, FindConnected) <==> m < n
    ensures Takes(after, n, p, SOCK_STREAM, FindConnected) <==> n < m
  {
    hide Emit;
    ChildIsFoundExactlyWhen(before, after, syn, memory, out, n, server, p);
    assert after[m].path == before[m].path && after[m].e.state == before[m].e.state;
    assert forall j :: 0 <= j < n ==> after[j].path == before[j].path && after[j].e.state == before[j].e.state;
    assert Matches(after[n].e.state, after[n].path, p, SOCK_STREAM, FindConnected);
  }

  /** Once that has happened, no segment from the sender reaches the old connection. */
  lemma TakenOverIsStranded(before: seq<Slot>, after: seq<Slot>, syn: Packet, memory: bool, out: seq<Packet>,
                            n: int, server: int, m: int, p: Packet, last: seq<Slot>, answer: seq<Packet>, k: int)
    requires Greeted(before, after, syn, memory, out, n, server) && -1 < n < m
    requires Takes(before, m, syn, SOCK_STREAM, FindConnected) && p == syn.(segment := p.segment)
    requires Handled(after, last, p, memory, answer, k)
    ensures k == n && m < |last| && |after| == |last| && last[m] == after[m]
  {
    hide Emit, Takes, Endpoint.Process;
    ConnectionIsKeptExactlyWhen(before, after, syn, memory, out, n, server, m, p);
    FirstIsOne(after, n, k, p, SOCK_STREAM, FindConnected);
    TakesFits(before, m, syn, SOCK_STREAM, FindConnected);
  }

  lemma TakesFits(all: seq<Slot>, m: int, p: Packet, proto: nat, mask: Mask)
    requires Takes(all, m, p, proto, mask)
    ensures 0 <= m < |all|
  {
  }

  /** The first socket has been opened and the second listens; the others are closed. */
  predicate SecondListens(all: seq<Slot>) {
    && 2 < |all| && all[0].e == Unused(Reserved, 1)
    && all[1].path == Path(SOCK_STREAM, ANY, all[1].path.lport, ANY, 0) && all[1].e == Unused(State.Listen, 1)
    && forall i :: 2 <= i < |all| ==> all[i].e == Unused(Closed, 1)
  }

  lemma SecondOpened(none: seq<Slot>, a: int, one: seq<Slot>, port: nat, b: int, other: nat)
    requires 2 < |none| && forall i :: 0 <= i < |none| ==> none[i].e == Unused(Closed, 1)
    ensures !Full(none)
    ensures Free(none, a) && one == Opened(none, a, SOCK_STREAM, port) ==> a == 0 && !Full(one)
    ensures Free(none, a) && one == Opened(none, a, SOCK_STREAM, port) && Free(one, b) ==>
              && b == 1 && Opened(one, b, SOCK_STREAM, other)[b].e.state == Reserved
              && SecondListens(WithState(Opened(one, b, SOCK_STREAM, other), b, State.Listen))
  {
    assert none[0].e.state == Closed;
    if Free(none, a) {
      var first := Opened(none, a, SOCK_STREAM, port);
      assert first[1].e.state == Closed;
    }
  }

  /** A SYN makes a child of the third socket, to which the sender is then connected. */
  lemma GreetedThird(all: seq<Slot>, after: seq<Slot>, p: Packet, out: seq<Packet>, n: int, s: int)
    requires SecondListens(all) && p.dport == all[1].path.lport && p.saddr != ANY
    requires Greeted(all, after, p, true, out, n, s)
    ensures n == 2 && |after| == |all| && after[0].e == Unused(Reserved, 1)
    ensures after[1].path == Path(SOCK_STREAM, ANY, p.dport, ANY, 0) && after[1].e.state == State.Listen
    ensures Takes(after, 2, p, SOCK_STREAM, FindConnected)
  {
    hide Emit;
    assert Matches(all[1].e.state, all[1].path, p, SOCK_STREAM, FindListen);
    assert all[2].e.state == Closed;
    ChildIsFoundExactlyWhen(all, after, p, true, out, n, s, p);
  }

  /** Once the first socket is closed, the same SYN makes a child of that. */
  lemma GreetedFirst(all: seq<Slot>, closed: seq<Slot>, after: seq<Slot>, p: Packet, out: seq<Packet>, n: int, s: int)
    requires 2 < |all| && all[0].e == Unused(Reserved, 1) && all[1].e.state == State.Listen
    requires all[1].path == Path(SOCK_STREAM, ANY, p.dport, ANY, 0) && Takes(all, 2, p, SOCK_STREAM, FindConnected)
    requires closed == With(all, 0, all[0].e.Close().e) && Greeted(closed, after, p, true, out, n, s)
    ensures n == 0 && |after| == |all| && Takes(after, 0, p, SOCK_STREAM, FindConnected) && after[2] == all[2]
  {
    hide Emit;
    assert closed[0].e.state == Closed;
    assert Matches(closed[1].e.state, closed[1].path, p, SOCK_STREAM, FindListen);
    assert forall j :: 0 < j < |all| ==> closed[j] == all[j];
    assert Takes(closed, 2, p, SOCK_STREAM, FindConnected);
    ConnectionIsKeptExactlyWhen(closed, after, p, true, out, n, s, 2, p);
    assert Queued(closed, s, n)[2] == closed[2];
  }

  /** From an empty table, two sockets are opened, and the second listens. */
  method ListenSecond() returns (table: Table)
    ensures table.Valid() && fresh(table) && fresh(table.Sockets()) && table.Elements() == {}
    ensures SecondListens(table.Views())
  {
    hide Full, Free, Opened, WithState, SecondListens, Unused;
    table := new Table();
    ghost var none := table.Views();
    SecondOpened(none, 0, none, 0, 0, 0);
    var a := table.OpenSocket(AF_INET6, SOCK_STREAM);
    ghost var one, port := table.Views(), table.lastPort;
    SecondOpened(none, a, one, port, 0, 0);
    var b := table.OpenSocket(AF_INET6, SOCK_STREAM);
    SecondOpened(none, a, one, port, b, table.lastPort);
    var r := table.Listen(b);
  }

  /** The first socket is closed, and the SYN comes again. */
  method CloseAndRepeat(table: Table, p: Packet)
    requires table.Valid() && |table.Views()| == MAX_SOCK && table.Views()[0].e == Unused(Reserved, 1)
    requires table.Views()[1].path == Path(SOCK_STREAM, ANY, p.dport, ANY, 0) && table.Views()[1].e.state == State.Listen
    requires p.segment.flags == Syn && Takes(table.Views(), 2, p, SOCK_STREAM, FindConnected)
    modifies table`lastPort, table.Sockets(), table.Elements()
    ensures table.Valid() && |table.Views()| == MAX_SOCK && table.Views()[2] == old(table.Views())[2]
    ensures Takes(table.Views(), 0, p, SOCK_STREAM, FindConnected)
  {
    hide Greeted, With, Takes, Unused, Endpoint.Close, Table.Views, Table.Valid;
    table.Size();
    ghost var before := table.Views();
    var r, out := table.Close(0);
    ghost var closed := table.Views();
    var answer, n, s := table.ProcessSyn(p, true);
    GreetedFirst(before, closed, table.Views(), p, answer, n, s);
  }

  /** Such a sender loses its connection: a SYN makes the connection, the first socket is closed, and
      the same SYN, which the network has repeated, takes the connection's segments away, although
      the connection itself is as it was. */
  method RepeatedSyn(saddr: Address, daddr: Address, sport: nat, isn: nat)
    returns (table: Table, p: Packet, ghost before: seq<Slot>)
    requires saddr != ANY
    ensures p.saddr == saddr && p.segment.flags == Syn && p.segment.seqn == isn
    ensures |before| == MAX_SOCK && Takes(before, 2, p, SOCK_STREAM, FindConnected)
    ensures table.Valid() && |table.Views()| == MAX_SOCK && table.Views()[2] == before[2]
    ensures Takes(table.Views(), 0, p, SOCK_STREAM, FindConnected)
  {
    hide Greeted, Takes, SecondListens, Table.Views, Table.Valid;
    table := ListenSecond();
    table.Size();
    ghost var listening := table.Views();
    p := Packet(saddr, daddr, sport, table.sockets[1].lport, Segment(Syn, isn, 0, []));
    var out, n, s := table.ProcessSyn(p, true);
    before := table.Views();
    GreetedThird(listening, before, p, out, n, s);
    CloseAndRepeat(table, p);
  }

  /** The port tried k tries after `first`. */
  ghost function Nth(first: nat, k: nat): nat {
    if first + k <= LAST_PORT then first + k else FIRST_PORT + (first + k - LAST_PORT - 1)
  }

  lemma NthFirst(first: nat)
    requires first <= LAST_PORT
    ensures Nth(first, 0) == first
  {
  }

  lemma NthSteps(first: nat, k: nat)
    requires FIRST_PORT <= first <= LAST_PORT && 0 < k <= MAX_SOCK
    ensures NextPort(Nth(first, k - 1)) == Nth(first, k)
  {
  }

  /** The first n of them. */
  ghost function Tried(first: nat, n: nat): set<nat> {
    set k: nat | k < n :: Nth(first, k)
  }

  lemma TriedNone(first: nat)
    ensures Tried(first, 0) == {}
  {
  }

  lemma TriedOneMore(first: nat, n: nat)
    requires FIRST_PORT <= first <= LAST_PORT && n <= MAX_SOCK
    ensures Tried(first, n + 1) == Tried(first, n) + {Nth(first, n)}
    ensures |Tried(first, n)| == n ==> |Tried(first, n + 1)| == n + 1
  {
    hide Nth;
    NthDiffers(first, n);
    forall p ensures p in Tried(first, n + 1) <==> p in Tried(first, n) || p == Nth(first, n) {
      if p in Tried(first, n) || p == Nth(first, n) {
        var k: nat :| k < n + 1 && p == Nth(first, k);
      }
    }
    assert Tried(first, n + 1) == Tried(first, n) + {Nth(first, n)};
  }

  lemma NthDiffers(first: nat, k: nat)
    requires FIRST_PORT <= first <= LAST_PORT && k <= MAX_SOCK
    ensures forall j: nat :: j < k ==> Nth(first, j) != Nth(first, k)
  {
  }

  lemma Smaller(a: set<nat>, b: set<nat>)
    requires a <= b
    ensures |a| <= |b|
  {
    if a != {} {
      var x :| x in a;
      Smaller(a - {x}, b - {x});
    }
  }
}
