/** The one linked queue of a socket, in which child sockets, sent and received data are mixed. */
module SocketQueues {
  import opened Bytes
  import opened Rings

  /** ESIX_QUEUE_DEPHT. */
  const DEPTH: nat := 5

  datatype Kind = ChildSocket | SentPacket | ReceivedPacket

  datatype Entry =
    | Child(socket: nat)
    | Sent(seqn: nat, tSent: nat, data: seq<Byte>)
    | Recv(data: seq<Byte>)
  {
    function Kind(): Kind {
      match this
      case Child(_) => ChildSocket
      case Sent(_, _, _) => SentPacket
      case Recv(_) => ReceivedPacket
    }

    /** The sequence number just past sent data, in 32 bits. */
    function End(): nat {
      if Sent? then Add32(seqn, |data|) else 0
    }
  }

  type Queue = seq<Entry>

  /** The depth test of esix_queue_data: it gives up only on meeting an entry after DEPTH others. */
  predicate HasRoom(q: Queue) {
    |q| <= DEPTH
  }

  /** Where the first entry of a kind is. */
  function Find(q: Queue, k: Kind): (p: nat)
    ensures p <= |q| && (p < |q| ==> q[p].Kind() == k) && forall i :: 0 <= i < p ==> q[i].Kind() != k
  {
    if q == [] || q[0].Kind() == k then 0 else 1 + Find(q[1..], k)
  }

  /** esix_socket_find_e with EVICT. */
  function Evicted(q: Queue, k: Kind): Queue {
    if Find(q, k) < |q| then RemoveAt(q, Find(q, k)) else q
  }

  /** esix_socket_expire_e: it steps over entries of other kinds and stops at the first sent entry
      that is not acknowledged. */
  function Expired(q: Queue, ackn: nat): Queue {
    if q == [] then []
    else if !q[0].Sent? then [q[0]] + Expired(q[1..], ackn)
    else if q[0].End() <= ackn then Expired(q[1..], ackn)
    else q
  }

  // ----- three queues in one ----------------------------------------------------------------------

  /** The entries of one kind, in queue order. */
  function Of(q: Queue, k: Kind): Queue {
    if q == [] then []
    else if q[0].Kind() == k then [q[0]] + Of(q[1..], k)
    else Of(q[1..], k)
  }

  lemma {:induction false} OfAppend(q: Queue, r: Queue, k: Kind)
    ensures Of(q + r, k) == Of(q, k) + Of(r, k)
  {
    if q == [] {
      assert q + r == r;
    } else {
      OfAppend(q[1..], r, k);
      assert (q + r)[1..] == q[1..] + r;
    }
  }

  /** Queueing an entry appends it to the queue of its kind and leaves the other two alone. */
  lemma QueueingAppends(q: Queue, e: Entry, k: Kind)
    ensures Of(q + [e], k) == if e.Kind() == k then Of(q, k) + [e] else Of(q, k)
  {
    OfAppend(q, [e], k);
  }

  lemma OfCons(e: Entry, q: Queue, k: Kind)
    ensures Of([e] + q, k) == if e.Kind() == k then [e] + Of(q, k) else Of(q, k)
  {
    assert ([e] + q)[1..] == q;
  }

  /** Evicting works on the rest of the queue unless the first entry is of the kind. */
  lemma EvictStep(q: Queue, k: Kind)
    requires q != []
    ensures q[0].Kind() == k ==> Find(q, k) == 0 && Evicted(q, k) == q[1..]
    ensures q[0].Kind() != k ==> Find(q, k) == 1 + Find(q[1..], k) && Evicted(q, k) == [q[0]] + Evicted(q[1..], k)
  {
    hide Entry.Kind, RemoveAt;
    var t := q[1..];
    var p := Find(t, k);
    assert Find(q, k) == if q[0].Kind() == k then 0 else 1 + p;
    RemoveFromRest(q, if p < |t| then p else 0);
    assert q == [q[0]] + t;
  }

  lemma RemoveFromRest<T>(q: seq<T>, p: nat)
    requires q != []
    ensures RemoveAt(q, 0) == q[1..]
    ensures p < |q| - 1 ==> RemoveAt(q, 1 + p) == [q[0]] + RemoveAt(q[1..], p)
  {
  }

  /** Evicting takes the head of the queue of one kind, if it has one, and leaves the other two
      alone. */
  lemma {:induction false} EvictingPops(q: Queue, k: Kind, other: Kind)
    requires other != k
    ensures Find(q, k) < |q| <==> Of(q, k) != []
    ensures Of(q, k) != [] ==> q[Find(q, k)] == Of(q, k)[0] && Of(Evicted(q, k), k) == Of(q, k)[1..]
    ensures Of(Evicted(q, k), other) == Of(q, other)
  {
    hide Evicted, Entry.Kind, Find;
    if q != [] {
      EvictStep(q, k);
      if q[0].Kind() != k {
        EvictingPops(q[1..], k, other);
        OfCons(q[0], Evicted(q[1..], k), k);
        OfCons(q[0], Evicted(q[1..], k), other);
      }
    } else {
      assert Evicted(q, k) == q by { EvictNothing(q, k); }
    }
  }

  lemma EvictNothing(q: Queue, k: Kind)
    requires q == []
    ensures Evicted(q, k) == q
  {
  }

  /** What expiry leaves of the sent entries: all from the first that is not acknowledged on. */
  function DropAcked(s: Queue, ackn: nat): (r: Queue)
    ensures |r| <= |s| && r == s[|s| - |r|..]
  {
    if s != [] && s[0].End() <= ackn then DropAcked(s[1..], ackn) else s
  }

  lemma ExpireStep(q: Queue, ackn: nat)
    requires q != []
    ensures q == [q[0]] + q[1..]
    ensures q[0].Kind() != SentPacket ==> Expired(q, ackn) == [q[0]] + Expired(q[1..], ackn)
    ensures q[0].Kind() == SentPacket && q[0].End() <= ackn ==> Expired(q, ackn) == Expired(q[1..], ackn)
    ensures q[0].Kind() == SentPacket && ackn < q[0].End() ==> Expired(q, ackn) == q
  {
  }

  /** Expiry takes acknowledged entries from the head of the sent queue, and leaves the other two
      alone. */
  lemma {:induction false} ExpiryDropsAcked(q: Queue, ackn: nat, k: Kind)
    ensures Of(Expired(q, ackn), k) == if k == SentPacket then DropAcked(Of(q, k), ackn) else Of(q, k)
    ensures |Expired(q, ackn)| <= |q|
  {
    hide Entry.Kind, Entry.End;
    if q != [] {
      hide Expired, Of;
      ExpireStep(q, ackn);
      ExpiryDropsAcked(q[1..], ackn, k);
      OfCons(q[0], Expired(q[1..], ackn), k);
      OfCons(q[0], q[1..], k);
    }
  }

  /** The sent entries that an acknowledgement does not cover. */
  function Unacked(s: Queue, ackn: nat): (r: Queue)
    ensures |r| <= |s| && forall i :: 0 <= i < |r| ==> ackn < r[i].End()
  {
    if s == [] then [] else if s[0].End() <= ackn then Unacked(s[1..], ackn) else [s[0]] + Unacked(s[1..], ackn)
  }

  /** No acknowledged entry stands behind one that is not. */
  ghost predicate AckedFirst(s: Queue, ackn: nat) {
    forall i, j :: 0 <= i < j < |s| && ackn < s[i].End() ==> ackn < s[j].End()
  }

  /** Expiry removes exactly the acknowledged entries if and only if none of them stands behind
      one that is not acknowledged. */
  lemma {:induction false} ExpiryIsExactWhen(s: Queue, ackn: nat)
    ensures DropAcked(s, ackn) == Unacked(s, ackn) <==> AckedFirst(s, ackn)
  {
    if s != [] {
      if s[0].End() <= ackn {
        ExpiryIsExactWhen(s[1..], ackn);
        AckedHead(s, ackn);
      } else {
        AllUnacked(s, ackn);
      }
    }
  }

  lemma AckedHead(s: Queue, ackn: nat)
    requires s != [] && s[0].End() <= ackn
    ensures AckedFirst(s, ackn) <==> AckedFirst(s[1..], ackn)
  {
    hide Entry.End;
    var t := s[1..];
    if AckedFirst(s, ackn) {
      forall i, j | 0 <= i < j < |t| && ackn < t[i].End() ensures ackn < t[j].End() {
        assert t[i] == s[i + 1] && t[j] == s[j + 1];
      }
    }
    if AckedFirst(t, ackn) {
      forall i, j | 0 <= i < j < |s| && ackn < s[i].End() ensures ackn < s[j].End() {
        assert s[i] == t[i - 1] && s[j] == t[j - 1];
      }
    }
  }

  lemma {:induction false} AllUnacked(s: Queue, ackn: nat)
    ensures Unacked(s, ackn) == s <==> forall i :: 0 <= i < |s| ==> ackn < s[i].End()
  {
    hide Entry.End;
    if s != [] {
      var t := s[1..];
      AllUnacked(t, ackn);
      assert forall i :: 1 <= i < |s| ==> s[i] == t[i - 1];
      if ackn < s[0].End() {
        assert Unacked(s, ackn) == s <==> Unacked(t, ackn) == t by {
          assert s == [s[0]] + t;
          assert Unacked(s, ackn)[1..] == Unacked(t, ackn);
        }
      }
    }
  }

  // ----- sequence numbers that wrap -----------------------------------------------------------------

  /** Two absolute numbers lie in the same turn of the 32-bit counter. */
  predicate Together(x: nat, y: nat) {
    x / WORD == y / WORD
  }

  /** The verdict on an entry whose data ends at absolute number `end`, against an absolute
      acknowledgement less than 2^32 away: the 32-bit comparison is right exactly when both numbers
      lie in the same turn of the counter. */
  lemma VerdictIsRightWhen(n: nat, t: nat, data: seq<Byte>, a: nat)
    requires a < n + |data| + WORD && n + |data| < a + WORD
    ensures (Sent(Low32(n), t, data).End() <= Low32(a) <==> n + |data| <= a) <==> Together(n + |data|, a)
  {
    var end := n + |data|;
    assert (n % WORD + |data|) % WORD == end % WORD;
    TurnsCompare(end, a);
  }

  lemma TurnsCompare(x: nat, y: nat)
    requires x < y + WORD && y < x + WORD
    ensures (x % WORD <= y % WORD <==> x <= y) <==> Together(x, y)
  {
    var p, q := x / WORD, y / WORD;
    assert x == p * WORD + x % WORD && y == q * WORD + y % WORD;
    assert p < q + 2 && q < p + 2;
  }

  /** The entries hold the stretch of a stream from absolute number `from` to absolute number
      `to`, numbered in 32 bits. */
  ghost predicate Numbered(s: Queue, from: nat, to: nat)
    decreases |s|
  {
    if s == [] then from == to
    else s[0].Sent? && s[0].seqn == Low32(from) && Numbered(s[1..], from + |s[0].data|, to)
  }

  /** The absolute number at which entry j ends. */
  function AbsoluteEnd(s: Queue, from: nat, j: nat): nat
    requires j < |s| && forall i :: 0 <= i < |s| ==> s[i].Sent?
  {
    if j == 0 then from + |s[0].data| else AbsoluteEnd(s[1..], from + |s[0].data|, j - 1)
  }

  /** How many entries end at or before the absolute acknowledgement a. */
  function Covered(s: Queue, from: nat, a: nat): (m: nat)
    requires forall i :: 0 <= i < |s| ==> s[i].Sent?
    ensures m <= |s|
  {
    if s == [] || a < from + |s[0].data| then 0 else 1 + Covered(s[1..], from + |s[0].data|, a)
  }

  lemma {:induction false} NumberedIsSent(s: Queue, from: nat, to: nat)
    requires Numbered(s, from, to)
    ensures from <= to && forall i :: 0 <= i < |s| ==> s[i].Sent?
    decreases |s|
  {
    if s != [] {
      NumberedIsSent(s[1..], from + |s[0].data|, to);
      assert forall i :: 1 <= i < |s| ==> s[i] == s[1..][i - 1];
    }
  }

  /** The entry that an acknowledgement covers first and the one that it leaves first both end in
      the same turn of the 32-bit counter as the acknowledgement. */
  ghost predicate SameTurn(s: Queue, from: nat, a: nat)
    requires forall i :: 0 <= i < |s| ==> s[i].Sent?
  {
    var m := Covered(s, from, a);
    && (0 < m ==> Together(AbsoluteEnd(s, from, 0), a))
    && (m < |s| ==> Together(AbsoluteEnd(s, from, m), a))
  }

  /** For a stream of any length, with less than 2^32 bytes under way and an acknowledgement that is
      no further behind, expiry drops exactly the entries covered if and only if no turn of the counter falls between
      the first covered end, the acknowledgement and the first end left. */
  lemma {:induction false} ExpiryIsRightWhen(s: Queue, from: nat, to: nat, a: nat)
    requires Numbered(s, from, to) && a <= to < from + WORD && to < a + WORD
    ensures forall i :: 0 <= i < |s| ==> s[i].Sent?
    ensures DropAcked(s, Low32(a)) == s[Covered(s, from, a)..] <==> SameTurn(s, from, a)
    decreases |s|
  {
    hide Entry.End, DropAcked, Covered, SameTurn, Together, Low32, Numbered;
    NumberedIsSent(s, from, to);
    if s == [] {
      NothingToDrop(s, from, a);
    } else {
      var t, end := s[1..], from + |s[0].data|;
      NumberedHead(s, from, to);
      NumberedIsSent(t, end, to);
      VerdictIsRightWhen(from, s[0].tSent, s[0].data, a);
      DropStep(s, Low32(a));
      if a < end {
        NoneCovered(s, from, a);
      } else if Together(end, a) {
        ExpiryIsRightWhen(t, end, to, a);
        CoveredTail(s, from, to, a);
      } else {
        SameTurnFirst(s, from, a);
      }
    }
  }

  lemma NothingToDrop(s: Queue, from: nat, a: nat)
    requires s == []
    ensures DropAcked(s, Low32(a)) == s[Covered(s, from, a)..] && SameTurn(s, from, a)
  {
  }

  lemma NumberedHead(s: Queue, from: nat, to: nat)
    requires Numbered(s, from, to) && s != []
    ensures s[0] == Sent(Low32(from), s[0].tSent, s[0].data) && Numbered(s[1..], from + |s[0].data|, to)
  {
  }

  /** The same of the whole socket queue. */
  lemma QueueExpiryIsRightWhen(q: Queue, from: nat, to: nat, a: nat)
    requires Numbered(Of(q, SentPacket), from, to) && a <= to < from + WORD && to < a + WORD
    ensures forall i :: 0 <= i < |Of(q, SentPacket)| ==> Of(q, SentPacket)[i].Sent?
    ensures var s := Of(q, SentPacket);
            Of(Expired(q, Low32(a)), SentPacket) == s[Covered(s, from, a)..] <==> SameTurn(s, from, a)
  {
    hide Expired, Of, DropAcked, Low32, SameTurn, Covered;
    ExpiryDropsAcked(q, Low32(a), SentPacket);
    ExpiryIsRightWhen(Of(q, SentPacket), from, to, a);
  }

  lemma DropStep(s: Queue, ackn: nat)
    requires s != []
    ensures s[0].End() <= ackn ==> DropAcked(s, ackn) == DropAcked(s[1..], ackn) && |DropAcked(s, ackn)| < |s|
    ensures ackn < s[0].End() ==> DropAcked(s, ackn) == s
  {
  }

  lemma NoneCovered(s: Queue, from: nat, a: nat)
    requires s != [] && (forall i :: 0 <= i < |s| ==> s[i].Sent?) && a < from + |s[0].data|
    ensures Covered(s, from, a) == 0 && s[Covered(s, from, a)..] == s
    ensures SameTurn(s, from, a) <==> Together(from + |s[0].data|, a)
  {
  }

  lemma SameTurnFirst(s: Queue, from: nat, a: nat)
    requires s != [] && (forall i :: 0 <= i < |s| ==> s[i].Sent?) && from + |s[0].data| <= a
    ensures 0 < Covered(s, from, a)
    ensures SameTurn(s, from, a) ==> Together(from + |s[0].data|, a)
  {
  }

  /** Once the first entry is covered in the turn of the acknowledgement, the rest decides. */
  lemma CoveredTail(s: Queue, from: nat, to: nat, a: nat)
    requires Numbered(s, from, to) && s != [] && from + |s[0].data| <= a
    requires forall i :: 0 <= i < |s| ==> s[i].Sent?
    ensures var t, end := s[1..], from + |s[0].data|;
            && (forall i :: 0 <= i < |t| ==> t[i].Sent?)
            && Covered(s, from, a) == 1 + Covered(t, end, a) && s[Covered(s, from, a)..] == t[Covered(t, end, a)..]
            && (Together(end, a) ==> (SameTurn(s, from, a) <==> SameTurn(t, end, a)))
  {
    var t, end := s[1..], from + |s[0].data|;
    assert forall i :: 0 <= i < |t| ==> t[i] == s[i + 1];
    if 0 < Covered(t, end, a) && Together(end, a) {
      BetweenTurns(end, AbsoluteEnd(t, end, 0), a);
    }
  }

  lemma BetweenTurns(x: nat, y: nat, z: nat)
    requires x <= y <= z && Together(x, z)
    ensures Together(y, z)
  {
  }

  /** The condition fails, and data that is not acknowledged expires, as soon as the entry under way
      crosses 2^32. */
  lemma WrappedEntryExpiresEarly()
    ensures var e := Sent(0xffff_fffe, 1, [0, 0, 0]);
            && Numbered([e], 0xffff_fffe, 0x1_0000_0001) && Covered([e], 0xffff_fffe, 0xffff_fffe) == 0
            && !SameTurn([e], 0xffff_fffe, 0xffff_fffe) && Expired([e], 0xffff_fffe) == []
  {
    var e := Sent(0xffff_fffe, 1, [0, 0, 0]);
    assert [e][1..] == [];
    assert AbsoluteEnd([e], 0xffff_fffe, 0) == 0x1_0000_0001;
  }
}
