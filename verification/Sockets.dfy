/** socket.c and tcp6.c in their own form: a socket whose fields and linked queue are changed in
    place.  Every method is proved to do what module Endpoints says, and to free exactly what it
    unlinks. */
module Sockets {
  import opened Bytes
  import opened Rings
  import opened SocketQueues
  import opened Endpoints

  /** struct sock_queue.  What is stored does not change once the element is linked.  The flags
      tell whether the element and its data are allocated. */
  class Element {
    const entry: Entry
    var next: Element?
    ghost var inUse: bool
    ghost var dataInUse: bool

    constructor (entry: Entry)
      ensures this.entry == entry && next == null && inUse && (dataInUse <==> !entry.Child?)
    {
      this.entry, next := entry, null;
      inUse, dataInUse := true, !entry.Child?;
    }

    ghost predicate Alive()
      reads this
    {
      inUse && (dataInUse <==> !entry.Child?)
    }

    ghost predicate Freed()
      reads this
    {
      !inUse && !dataInUse
    }

    /** esix_w_free of the data, if there are any, and of the element; neither twice. */
    ghost method Free()
      requires Alive()
      modifies `inUse, `dataInUse
      ensures Freed()
    {
      inUse, dataInUse := false, false;
    }
  }

  function Entries(cells: seq<Element>): (q: Queue)
    ensures |q| == |cells|
  {
    seq(|cells|, i requires 0 <= i < |cells| => cells[i].entry)
  }

  /** The element that follows the first k. */
  function Node(cells: seq<Element>, k: nat): Element? {
    if k < |cells| then cells[k] else null
  }

  lemma EntriesWithout(cells: seq<Element>, p: nat)
    requires p < |cells|
    ensures Entries(RemoveAt(cells, p)) == RemoveAt(Entries(cells), p)
  {
  }

  /** Expiry steps over entries that are not sent data. */
  lemma {:induction false} ExpirySkips(q: Queue, k: nat, ackn: nat)
    requires k <= |q| && forall i :: 0 <= i < k ==> !q[i].Sent?
    ensures Expired(q, ackn) == q[..k] + Expired(q[k..], ackn)
    decreases k
  {
    hide Entry.End;
    if k == 0 {
      assert q[0..] == q;
    } else {
      ExpirySkips(q[1..], k - 1, ackn);
      assert Expired(q, ackn) == [q[0]] + Expired(q[1..], ackn);
      assert q[1..][k - 1..] == q[k..] && q[..k] == [q[0]] + q[1..][..k - 1];
    }
  }

  /** Dropping an acknowledged entry that only such entries precede is a step of expiry. */
  lemma ExpiryDrops(q: Queue, k: nat, ackn: nat)
    requires k < |q| && (forall i :: 0 <= i < k ==> !q[i].Sent?) && q[k].Sent? && q[k].End() <= ackn
    ensures Expired(RemoveAt(q, k), ackn) == Expired(q, ackn)
  {
    ExpirySkips(q, k, ackn);
    ExpirySkips(RemoveAt(q, k), k, ackn);
    assert RemoveAt(q, k)[..k] == q[..k] && RemoveAt(q, k)[k..] == q[k + 1..] == q[k..][1..];
  }

  /** Expiry ends at the first entry that is not acknowledged. */
  lemma ExpiryEnds(q: Queue, k: nat, ackn: nat)
    requires k <= |q| && (forall i :: 0 <= i < k ==> !q[i].Sent?)
    requires k < |q| ==> q[k].Sent? && ackn < q[k].End()
    ensures Expired(q, ackn) == q
  {
    ExpirySkips(q, k, ackn);
    assert q == q[..k] + q[k..];
  }

  lemma FindIs(q: Queue, kind: Kind, k: nat)
    requires k <= |q| && (forall i :: 0 <= i < k ==> q[i].Kind() != kind) && (k < |q| ==> q[k].Kind() == kind)
    ensures Find(q, kind) == k
  {
  }

  /** Which protocol a socket speaks, and between which addresses and ports. */
  datatype Path = Path(proto: nat, laddr: Address, lport: nat, raddr: Address, rport: nat)

  /** All of struct esix_sock. */
  datatype Slot = Slot(path: Path, e: Endpoint)

  class Socket {
    var proto: nat
    var laddr: Address
    var lport: nat
    var raddr: Address
    var rport: nat
    var state: State
    var seqn: nat
    var ackn: nat
    var rexmit: nat
    var queue: Element?
    var clock: nat
    ghost var cells: seq<Element>
    ghost var ever: set<Element>
    ghost var accepted: seq<Byte>
    ghost var queued: seq<Byte>
    ghost var received: seq<Byte>
    ghost var whole: bool

    ghost function Abs(): Endpoint
      reads this
    {
      Endpoint(state, seqn, ackn, rexmit, Entries(cells), clock, accepted, queued, received, whole)
    }

    function Ends(): Path
      reads this`proto, this`laddr, this`lport, this`raddr, this`rport
    {
      Path(proto, laddr, lport, raddr, rport)
    }

    /** A socket as the table sees it. */
    ghost function View(): Slot
      reads this
    {
      Slot(Ends(), Abs())
    }

    ghost predicate Linked()
      reads this`queue, this`cells, cells
    {
      && queue == Node(cells, 0) && Apart(cells, |cells|)
      && forall i {:trigger cells[i].next} :: 0 <= i < |cells| ==> cells[i].next == Node(cells, i + 1)
    }

    /** Every element that was ever queued here is in the queue or freed, and never both. */
    ghost predicate Accounted()
      reads this`cells, this`ever, ever
    {
      && (forall e :: e in cells ==> e in ever)
      && (forall e :: e in ever ==> if e in cells then e.Alive() else e.Freed())
    }

    /** The same while element `out` has been unlinked and not yet freed. */
    ghost predicate AccountedBut(out: Element?)
      reads this`cells, this`ever, ever
    {
      && (forall e :: e in cells ==> e in ever && e != out)
      && (forall e :: e in ever ==> if e in cells || e == out then e.Alive() else e.Freed())
    }

    ghost predicate Sound()
      reads this`queue, this`cells, this`ever, ever
    {
      Accounted() && Linked()
    }

    /** A closed socket's queue is empty. */
    ghost predicate Valid()
      reads this`queue, this`cells, this`ever, this`state, ever
    {
      Sound() && (state == Closed ==> cells == [])
    }

    /** esix_socket_init, for one socket. */
    constructor ()
      ensures Valid() && Abs() == Endpoint(Closed, 0, 0, 0, [], 1, [], [], [], true) && ever == {}
    {
      proto, laddr, lport, raddr, rport := 0, ANY, 0, ANY, 0;
      state, seqn, ackn, rexmit, queue, clock := Closed, 0, 0, 0, null, 1;
      cells, ever, accepted, queued, received, whole := [], {}, [], [], [], true;
    }

    /** The addresses and ports that socket() and esix_socket_create_child set. */
    method SetPath(proto: nat, laddr: Address, lport: nat, raddr: Address, rport: nat)
      modifies `proto, `laddr, `lport, `raddr, `rport
      ensures Ends() == Path(proto, laddr, lport, raddr, rport)
    {
      this.proto, this.laddr, this.lport, this.raddr, this.rport := proto, laddr, lport, raddr, rport;
    }

    /** What esix_socket_create_child makes of the socket that socket() has given it. */
    method Answer(path: Path)
      requires Valid() && state == Reserved
      modifies `proto, `laddr, `lport, `raddr, `rport, `state
      ensures Valid() && Ends() == path && Abs() == old(Abs()).(state := SynReceived)
    {
      SetPath(path.proto, path.laddr, path.lport, path.raddr, path.rport);
      state := SynReceived;
    }

    /** A socket that is reused has no history. */
    ghost method Forget()
      modifies `accepted, `queued, `received, `whole
      ensures accepted == queued == received == [] && whole
    {
      accepted, queued, received, whole := [], [], [], true;
    }

    /** What socket() sets when it gives out a closed socket.  It forgets the queue without freeing
        it, which loses no element because the queue is empty. */
    method Reserve(proto: nat, port: nat)
      requires Valid() && state == Closed
      modifies this
      ensures Valid() && Abs() == Endpoint(Reserved, 0, 0, 0, [], clock, [], [], [], true) && clock == old(clock)
      ensures Ends() == Path(proto, ANY, port, ANY, 0) && ever == old(ever)
    {
      hide Sound;
      SetPath(proto, ANY, port, ANY, 0);
      Forget();
      Reset();
    }

    method Reset()
      requires Sound() && cells == []
      modifies `state, `seqn, `ackn, `rexmit, `queue
      ensures Sound() && state == Reserved && seqn == ackn == rexmit == 0 && queue == null
    {
      hide Sound;
      assert queue == null by { Nothing(); }
      state, seqn, ackn, rexmit, queue := Reserved, 0, 0, 0, null;
    }

    lemma Nothing()
      requires Sound() && cells == []
      ensures queue == null
    {
    }

    // ----- the queue ------------------------------------------------------------------------------

    /** The depth test of esix_queue_data. */
    method CheckRoom() returns (ok: bool)
      requires Linked()
      ensures ok <==> HasRoom(Entries(cells))
    {
      var at, i := queue, 0;
      ok := true;
      while at != null
        invariant i <= |cells| && at == Node(cells, i) && i <= DEPTH && ok
        decreases |cells| - i
      {
        if DEPTH <= i {
          ok := false;
          return;
        }
        at := at.next;
        i := i + 1;
      }
    }

    /** The end of esix_queue_data: link a new element behind the last one. */
    method LinkLast(item: Element)
      requires Sound() && item !in ever && item.next == null && item.Alive()
      modifies this`queue, this`cells, this`ever, ever`next
      ensures Sound() && cells == old(cells) + [item] && ever == old(ever) + {item}
    {
      if queue == null {
        queue := item;
      } else {
        var at, i := queue, 0;
        while at.next != null
          invariant i < |cells| && at == cells[i]
          decreases |cells| - i
        {
          at := at.next;
          i := i + 1;
        }
        LastIs(cells, i);
        at.next := item;
      }
      Appended(cells, item);
      cells, ever := cells + [item], ever + {item};
    }

    /** esix_queue_data; `memory` says whether the allocations succeed. */
    method QueueData(entry: Entry, memory: bool) returns (ok: bool)
      requires Sound()
      modifies this`queue, this`cells, this`ever, ever`next
      ensures Sound()
      ensures ok <==> HasRoom(Entries(old(cells))) && (proto == SOCK_DGRAM || proto == SOCK_STREAM) && memory
      ensures Entries(cells) == if ok then Entries(old(cells)) + [entry] else Entries(old(cells))
      ensures fresh(ever - old(ever)) && old(ever) <= ever
    {
      ok := CheckRoom();
      ok := ok && (proto == SOCK_DGRAM || proto == SOCK_STREAM) && memory;
      if ok {
        var item := new Element(entry);
        LinkLast(item);
        EntriesAppended(old(cells), item);
      }
    }

    /** The part of esix_socket_create_child that links a child to the listening socket: behind the
        last element, however many there are. */
    method QueueChild(child: nat)
      requires Valid() && state != Closed
      modifies this`queue, this`cells, this`ever, ever`next
      ensures Valid() && Abs() == old(Abs()).(queue := old(Abs()).queue + [Child(child)])
      ensures fresh(ever - old(ever)) && old(ever) <= ever
    {
      var item := new Element(Child(child));
      LinkLast(item);
      EntriesAppended(old(cells), item);
    }

    /** The search of esix_socket_find_e: an element, or null, and its predecessor. */
    method Search(kind: Kind) returns (at: Element?, previous: Element?, ghost k: nat)
      requires Linked()
      ensures k == Find(Entries(cells), kind) && at == Node(cells, Find(Entries(cells), kind))
      ensures k < |cells| ==> previous == if k == 0 then cells[0] else cells[k - 1]
    {
      at, previous, k := queue, queue, 0;
      while at != null && at.entry.Kind() != kind
        invariant k <= |cells| && at == Node(cells, k)
        invariant k < |cells| ==> previous == if k == 0 then cells[0] else cells[k - 1]
        invariant forall i :: 0 <= i < k ==> Entries(cells)[i].Kind() != kind
        decreases |cells| - k
      {
        previous := at;
        at := at.next;
        k := k + 1;
      }
      FindIs(Entries(cells), kind, k);
    }

    /** Unlink element number k. */
    method Unlink(at: Element, previous: Element, ghost k: nat)
      requires Linked() && k < |cells| && at == cells[k] && (0 < k ==> previous == cells[k - 1])
      modifies this`queue, this`cells, previous`next
      ensures Linked() && cells == RemoveAt(old(cells), k) && at !in cells
      ensures forall e :: e in cells <==> e in old(cells) && e != at
      ensures at.next == old(at.next) == Node(cells, k)
    {
      AllApart(cells);
      IndexOfUnique(cells, k);
      WithoutMembers(cells, at);
      if queue == at {
        queue := at.next;
      } else {
        previous.next := at.next;
      }
      cells := RemoveAt(cells, k);
    }

    /** Unlink element number k and free it. */
    method Release(at: Element, previous: Element, ghost k: nat)
      requires Sound() && k < |cells| && at == cells[k] && (0 < k ==> previous == cells[k - 1]) && previous in ever
      modifies this`queue, this`cells, ever
      ensures Sound() && cells == RemoveAt(old(cells), k)
      ensures at.next == old(at.next) == Node(cells, k)
    {
      assert at in cells;
      Unlink(at, previous, k);
      at.Free();
    }

    /** esix_socket_find_e with EVICT. */
    method FindAndEvict(kind: Kind) returns (at: Element?)
      requires Sound()
      modifies this`queue, this`cells, ever`next
      ensures Linked() && AccountedBut(at) && Entries(cells) == Evicted(Entries(old(cells)), kind)
      ensures ever == old(ever) && (at != null ==> at in ever)
      ensures at == null <==> Find(Entries(old(cells)), kind) == |Entries(old(cells))|
      ensures at == null ==> cells == old(cells) && Sound()
      ensures at != null ==> at.entry == Entries(old(cells))[Find(Entries(old(cells)), kind)]
    {
      hide RemoveAt, Find;
      var previous;
      ghost var k;
      at, previous, k := Search(kind);
      if at != null {
        EntriesWithout(cells, k);
        assert at in cells && previous in cells;
        Unlink(at, previous, k);
      }
    }

    /** Free an element that has been unlinked. */
    ghost method Drop(out: Element)
      requires Linked() && AccountedBut(out) && out in ever
      modifies out`inUse, out`dataInUse
      ensures Sound()
    {
      out.Free();
    }

    /** esix_socket_expire_e; it tells how many entries it has expired. */
    method ExpireE(ackn: nat) returns (n: nat)
      requires Sound()
      modifies this`queue, this`cells, ever
      ensures Sound() && ever == old(ever)
      ensures Entries(cells) == Expired(Entries(old(cells)), ackn) && n == |old(cells)| - |cells|
    {
      hide Expired, Entry.End;
      var at, previous := queue, queue;
      ghost var k := 0;
      n := 0;
      assert queue != null ==> cells[0] in cells;
      while at != null
        invariant Sound() && ever == old(ever) && k <= |cells| && at == Node(cells, k)
        invariant 0 < k ==> previous == cells[k - 1]
        invariant at != null ==> previous != null && previous in ever
        invariant forall i :: 0 <= i < k ==> !Entries(cells)[i].Sent?
        invariant Expired(Entries(cells), ackn) == Expired(Entries(old(cells)), ackn)
        invariant n + |cells| == |old(cells)|
        decreases |cells| - k
      {
        if at.entry.Sent? {
          if at.entry.End() <= ackn {
            ExpiryDrops(Entries(cells), k, ackn);
            EntriesWithout(cells, k);
            var gone := at;
            at := at.next;
            Release(gone, previous, k);
            n := n + 1;
          } else {
            break;
          }
        } else {
          assert at in cells;
          previous := at;
          at := at.next;
          k := k + 1;
        }
      }
      ExpiryEnds(Entries(cells), k, ackn);
    }

    /** esix_socket_free_queue. */
    method FreeQueue()
      requires Sound()
      modifies this`queue, this`cells, ever
      ensures Sound() && cells == [] && ever == old(ever)
    {
      while queue != null
        invariant Sound() && ever == old(ever)
        decreases |cells|
      {
        var gone := queue;
        assert gone in cells;
        Release(gone, gone, 0);
      }
    }

    /** The end of close and of a time-out. */
    method ShutDown()
      requires Sound()
      modifies `state, `queue, `cells, ever
      ensures Valid() && state == Closed && cells == [] && ever == old(ever)
    {
      hide Linked, Accounted;
      state := Closing;
      FreeQueue();
      state := Closed;
    }

    // ----- the calls ------------------------------------------------------------------------------

    /** send; a datagram that it sends is not part of the result. */
    method Send(data: seq<Byte>, memory: bool) returns (n: int, out: seq<Segment>)
      requires Valid()
      modifies this, ever`next
      ensures Valid() && Ends() == old(Ends()) && clock == old(clock)
      ensures Act(Abs(), out) == if proto == SOCK_STREAM then old(Abs()).Send(data, memory) else Act(old(Abs()), [])
      ensures n == if old(state) != Established then -1
                   else if proto == SOCK_DGRAM then |data|
                   else if proto != SOCK_STREAM then -1
                   else if Abs() == old(Abs()) then 0 else |data|
      ensures fresh(ever - old(ever)) && old(ever) <= ever
    {
      hide Sound, Node, Emit;
      out := [];
      if state != Established {
        return -1, [];
      }
      if proto == SOCK_STREAM {
        var ok := QueueData(Sent(seqn, clock, data), memory);
        if !ok {
          return 0, [];
        }
        out := Emit(PshAck, seqn, ackn, data);
        seqn := Add32(seqn, |data|);
        rexmit := clock + 2;
        accepted := accepted + data;
        n := |data|;
      } else if proto == SOCK_DGRAM {
        n := |data|;
      } else {
        n := -1;
      }
    }

    /** recvfrom.  A socket that is neither a stream nor a datagram socket copies nothing out; the
        sender of a datagram is not part of the model. */
    method RecvFrom(max: nat) returns (n: int, data: seq<Byte>, peer: Peer)
      requires Valid()
      modifies this, ever
      ensures Valid() && Ends() == old(Ends()) && clock == old(clock) && ever == old(ever)
      ensures Abs() == if proto == SOCK_STREAM then old(Abs()).Receive(max).e
                       else if proto == SOCK_DGRAM then old(Abs()).TakeOut(max)
                       else old(Abs()).(queue := Evicted(old(Abs()).queue, ReceivedPacket))
      ensures received == old(received) + data
      ensures var waiting := Of(old(Abs()).queue, ReceivedPacket);
              if proto == SOCK_STREAM && state != Established then n == -1 && data == [] && peer == Unnamed
              else if waiting == [] then n == 0 && data == [] && peer == Unnamed
              else && waiting[0].Recv? && n == (if max < |waiting[0].data| then max else |waiting[0].data|)
                   && (data == if proto == SOCK_STREAM || proto == SOCK_DGRAM then waiting[0].data[..n] else [])
                   && peer == if proto == SOCK_STREAM then Named(raddr, rport) else Unnamed
    {
      hide Evicted, Find, Of, Node, Sound, Linked, AccountedBut;
      n, data, peer := 0, [], Unnamed;
      EvictingPops(Entries(cells), ReceivedPacket, SentPacket);
      if proto == SOCK_STREAM && state != Established {
        return -1, [], Unnamed;
      }
      var at := FindAndEvict(ReceivedPacket);
      if at == null {
        return;
      }
      var bytes := at.entry.data;
      n := if max < |bytes| then max else |bytes|;
      if proto == SOCK_DGRAM {
        data := bytes[..n];
      } else if proto == SOCK_STREAM {
        peer := Named(raddr, rport);
        data := bytes[..n];
      }
      Drop(at);
      HandOut(data, n == |bytes|);
    }

    /** What recvfrom has handed out is history; a socket of no known protocol has none. */
    ghost method HandOut(data: seq<Byte>, all: bool)
      requires proto != SOCK_STREAM && proto != SOCK_DGRAM ==> data == []
      modifies `received, `whole
      ensures received == old(received) + data
      ensures whole == if proto == SOCK_STREAM || proto == SOCK_DGRAM then old(whole) && all else old(whole)
    {
      received := received + data;
      if proto == SOCK_STREAM || proto == SOCK_DGRAM {
        whole := whole && all;
      }
    }

    /** accept on a listening socket: the number of the first child that waits, or -1.  The address
        handed back is the listening socket's. */
    method Accept() returns (n: int, peer: Peer)
      requires Valid()
      modifies this`queue, this`cells, ever
      ensures Valid() && Abs() == old(Abs()).(queue := Evicted(old(Abs()).queue, ChildSocket)) && ever == old(ever)
      ensures n == -1 || 0 <= n
      ensures n == -1 <==> Of(old(Abs()).queue, ChildSocket) == []
      ensures n != -1 ==> Of(old(Abs()).queue, ChildSocket)[0] == Child(n)
      ensures peer == if n == -1 then Unnamed else Named(raddr, rport)
    {
      hide Evicted, Find, Node, Sound, Linked, AccountedBut;
      ghost var q := Entries(cells);
      EvictingPops(q, ChildSocket, SentPacket);
      var at := FindAndEvict(ChildSocket);
      if at == null {
        return -1, Unnamed;
      }
      n := at.entry.socket;
      Drop(at);
      peer := Named(raddr, rport);
    }

    /** connect; `source` says whether a source address is found for the destination. */
    method Connect(to: Address, port: nat, source: bool) returns (n: int, out: seq<Segment>)
      requires Valid()
      modifies `state, `ackn, `raddr, `rport
      ensures Valid()
      ensures n == 0 <==> (|| (proto == SOCK_STREAM && old(state) in {Reserved, Closed} && source)
                           || (proto == SOCK_DGRAM && old(state) in {Listen, Established}))
      ensures n == 0 || (n == -1 && Ends() == old(Ends()) && Abs() == old(Abs()) && out == [])
      ensures n == 0 ==> Ends() == old(Ends()).(raddr := to, rport := port)
      ensures n == 0 && proto == SOCK_STREAM ==> Act(Abs(), out) == old(Abs()).Connect()
      ensures n == 0 && proto == SOCK_DGRAM ==> Abs() == old(Abs()).(state := Established) && out == []
    {
      hide Sound, Emit;
      n, out := -1, [];
      if proto == SOCK_STREAM {
        if (state != Reserved && state != Closed) || !source {
          return;
        }
        ackn := 0;
        rport, raddr := port, to;
        state := SynSent;
        out := Emit(Syn, Add32(seqn, 1), ackn, []);
        n := 0;
      } else if proto == SOCK_DGRAM {
        if state != Listen && state != Established {
          return;
        }
        rport, raddr := port, to;
        state := Established;
        n := 0;
      }
    }

    /** close. */
    method Close() returns (n: int, out: seq<Segment>)
      requires Valid()
      modifies this, ever
      ensures Valid() && Ends() == old(Ends()) && clock == old(clock) && ever == old(ever)
      ensures Abs() == old(Abs()).Close().e
      ensures out == if proto == SOCK_STREAM then old(Abs()).Close().out else []
      ensures n == if old(state) == Closed || old(state) == Closing then -1 else 0
    {
      out := [];
      if state == Closed || state == Closing {
        return -1, [];
      }
      hide Sound, Node, Emit;
      if proto == SOCK_STREAM && (state == SynSent || state == SynReceived || state == Established) {
        out := Emit(RstAck, seqn, ackn, []);
      }
      ShutDown();
      n := 0;
    }

    // ----- received segments ------------------------------------------------------------------------

    /** The branch of esix_tcp_process for ACK, PSH|ACK and CWR|PSH|ACK. */
    method ProcessAck(s: Segment, memory: bool) returns (out: seq<Segment>)
      requires Valid() && proto == SOCK_STREAM
      modifies this, ever
      ensures Valid() && Ends() == old(Ends()) && clock == old(clock)
      ensures Act(Abs(), out) == old(Abs()).ProcessAck(s, memory)
      ensures fresh(ever - old(ever)) && old(ever) <= ever
    {
      hide Expired, Emit, HasRoom, Node, Sound, Add32;
      out := [];
      var n := ExpireE(s.ackn);
      if s.seqn != ackn {
        out := Emit(Ack, seqn, ackn, []);
      } else if state == SynReceived {
        state := Established;
      } else if state == FinWait2 {
        FreeQueue();
        state := Closed;
      } else if state == Established && s.data != [] {
        var ok := QueueData(Recv(s.data), memory);
        if ok {
          ackn := Add32(ackn, |s.data|);
          queued := queued + s.data;
          out := Emit(Ack, seqn, ackn, []);
        }
      }
    }

    /** The branch for FIN and FIN|ACK. */
    method ProcessFin(s: Segment) returns (out: seq<Segment>)
      requires Valid()
      modifies this, ever
      ensures Valid() && Ends() == old(Ends()) && clock == old(clock)
      ensures Act(Abs(), out) == old(Abs()).ProcessFin(s) && ever == old(ever)
    {
      hide Expired, Emit, Node, Sound, Add32;
      out := [];
      var n := ExpireE(s.ackn);
      if s.ackn == seqn {
        ackn := Add32(ackn, 1);
        if state == SynReceived || state == Established {
          out := Emit(FinAck, seqn, ackn, []);
          seqn := Add32(seqn, 1);
          state := FinWait2;
        } else if state == FinWait1 {
          out := Emit(Ack, seqn, ackn, []);
          FreeQueue();
          state := Closed;
        }
      }
    }

    /** The branch for RST and RST|ACK. */
    method ProcessRst()
      requires Valid()
      modifies this, ever
      ensures Valid() && Ends() == old(Ends()) && clock == old(clock)
      ensures Abs() == (if old(Abs()).Connected() then old(Abs()).Shut() else old(Abs())) && ever == old(ever)
    {
      if state != Closed && state != Reserved {
        state := Closed;
        FreeQueue();
      }
    }

    /** The branch for SYN|ACK. */
    method ProcessSynAck(s: Segment) returns (out: seq<Segment>)
      requires Valid() && s.flags == SynAck && Abs().Connected()
      modifies this
      ensures Valid() && Ends() == old(Ends()) && clock == old(clock)
      ensures Act(Abs(), out) == old(Abs()).Process(s, true) && ever == old(ever)
    {
      hide Emit, Sound, Add32;
      out := [];
      if s.ackn == seqn {
        if state == SynSent {
          state := Established;
        }
        ackn := Add32(s.ackn, 1);
        out := Emit(Ack, seqn, ackn, []);
      }
    }

    /** What esix_tcp_process makes of a child that a SYN has just created. */
    method Greet(isn: nat) returns (out: seq<Segment>)
      requires Valid() && state == SynReceived
      modifies `state, `ackn, `seqn
      ensures Valid() && Ends() == old(Ends())
      ensures Abs() == old(Abs()).(ackn := Add32(isn, 1), seqn := Add32(old(seqn), 1))
      ensures out == Emit(SynAck, old(seqn), Add32(isn, 1), [])
    {
      hide Sound, Emit, Add32;
      state := SynReceived;
      ackn := Add32(isn, 1);
      out := Emit(SynAck, seqn, ackn, []);
      seqn := Add32(seqn, 1);
    }

    /** The answer when the socket is not connected. */
    method Refuse(s: Segment) returns (out: seq<Segment>)
      requires state == Closed || state == Reserved
      ensures Act(Abs(), out) == Abs().Process(s, true) == Abs().Process(s, false)
    {
      hide Emit, Add32;
      out := [];
      match s.flags
      case Ack | PshAck | CwrPshAck => out := Emit(RstAck, s.ackn, s.seqn, []);
      case SynAck | Fin | FinAck => out := Emit(RstAck, Add32(s.ackn, 1), Add32(s.seqn, 1), []);
      case Rst | RstAck | Syn | Unknown =>
    }

    /** esix_tcp_process for a segment addressed to this socket. */
    method Process(s: Segment, memory: bool) returns (out: seq<Segment>)
      requires Valid() && proto == SOCK_STREAM
      modifies this, ever
      ensures Valid() && Ends() == old(Ends()) && clock == old(clock)
      ensures Act(Abs(), out) == old(Abs()).Process(s, memory)
      ensures fresh(ever - old(ever)) && old(ever) <= ever
    {
      hide Endpoint.ProcessAck, Endpoint.ProcessFin, Emit, Node, Sound, Add32;
      out := [];
      if state == Closed || state == Reserved {
        out := Refuse(s);
        return;
      }
      match s.flags
      case Ack | PshAck | CwrPshAck => out := ProcessAck(s, memory);
      case SynAck => out := ProcessSynAck(s);
      case Fin | FinAck => out := ProcessFin(s);
      case Rst | RstAck => ProcessRst();
      case Syn | Unknown =>
    }

    // ----- time -----------------------------------------------------------------------------------

    /** esix_socket_housekeep for this socket. */
    method Housekeep() returns (out: seq<Segment>)
      requires Valid()
      modifies this, ever
      ensures Valid() && Ends() == old(Ends()) && clock == old(clock) && ever == old(ever)
      ensures Act(Abs(), out) == old(Abs()).Housekeep()
    {
      hide Emit, Find, Xor2, Linked, Accounted;
      out := [];
      if rexmit == 0 || clock < rexmit {
        return;
      }
      var at, previous, k := Search(SentPacket);
      if at == null {
        rexmit := 0;
      } else {
        var age := (clock - at.entry.tSent) % WORD;
        if MAX_RETX_TIME < age {
          out := Emit(RstAck, seqn, ackn, []);
          ShutDown();
        } else {
          rexmit := clock + Xor2(age);
          out := Emit(PshAck, at.entry.seqn, ackn, at.entry.data);
        }
      }
    }

    /** esix_periodic_callback, as far as sockets are concerned. */
    method Tick() returns (out: seq<Segment>)
      requires Valid()
      modifies this, ever
      ensures Valid() && Ends() == old(Ends()) && Act(Abs(), out) == old(Abs()).Tick() && ever == old(ever)
    {
      hide Endpoint.Housekeep, Sound, Node;
      clock := clock + 1;
      out := Housekeep();
    }
  }

  lemma LastIs(cells: seq<Element>, i: nat)
    requires i < |cells| && Node(cells, i + 1) == null
    ensures i == |cells| - 1
  {
  }

  lemma Appended(cells: seq<Element>, item: Element)
    requires Apart(cells, |cells|) && item !in cells
    ensures Apart(cells + [item], |cells| + 1)
  {
  }

  lemma EntriesAppended(cells: seq<Element>, item: Element)
    ensures Entries(cells + [item]) == Entries(cells) + [item.entry]
  {
  }
}
