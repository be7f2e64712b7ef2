/** The Internet checksum of ip6.c, as it is evaluated on a little-endian host. */
module Checksums {
  import opened Bytes

  function Word(low: nat, high: nat): nat {
    low + 256 * high
  }

  /** The 16-bit words of a byte string, added up as a little-endian host reads them. */
  function SumLE(b: seq<Byte>): nat
    decreases |b|
  {
    if b == [] then 0
    else if |b| == 1 then b[0]
    else Word(b[0], b[1]) + SumLE(b[2..])
  }

  /** The same words in network order; an odd last byte is padded on the right with zero. */
  function SumBE(b: seq<Byte>): nat
    decreases |b|
  {
    if b == [] then 0
    else if |b| == 1 then Word(0, b[0])
    else Word(b[1], b[0]) + SumBE(b[2..])
  }

  /** The loop that adds the carries back in. */
  function Fold(sum: nat): nat
    decreases sum
  {
    if sum / 0x1_0000 == 0 then sum else Fold(sum % 0x1_0000 + sum / 0x1_0000)
  }

  function Complement(x: nat): nat
    requires x <= 0xffff
  {
    0xffff - x
  }

  /** The pseudo-header: source, destination, length and protocol. */
  function PseudoHeader(saddr: seq<Byte>, daddr: seq<Byte>, length: nat, proto: Byte): (h: seq<Byte>)
    requires length <= 0xffff
    ensures |h| == |saddr| + |daddr| + 4
  {
    saddr + daddr + [length / 256, length % 256] + [0, proto]
  }

  /** Everything that the checksum covers, as one sum. */
  function Total(saddr: seq<Byte>, daddr: seq<Byte>, proto: Byte, payload: seq<Byte>): nat
    requires |payload| <= 0xffff
  {
    SumLE(PseudoHeader(saddr, daddr, |payload|, proto)) + SumLE(payload)
  }

  // ----- folding ------------------------------------------------------------------------------------

  /** Folding ends below 2^16, on a number congruent to the sum modulo 65535 that is 0 only for 0. */
  lemma {:induction false} FoldIsCongruent(sum: nat)
    ensures Fold(sum) <= 0xffff && Fold(sum) % 0xffff == sum % 0xffff && (Fold(sum) == 0 <==> sum == 0)
    decreases sum
  {
    if sum / 0x1_0000 != 0 {
      FoldIsCongruent(sum % 0x1_0000 + sum / 0x1_0000);
    }
  }

  /** Among the results of folding, numbers that are congruent and vanish together are equal. */
  lemma FoldIsUnique(a: nat, b: nat)
    requires a <= 0xffff && b <= 0xffff && a % 0xffff == b % 0xffff && (a == 0 <==> b == 0)
    ensures a == b
  {
  }

  /** A receiver computes 0 exactly when the words it adds up come to a positive multiple of
      65535. */
  lemma ZeroExactlyWhen(total: nat)
    ensures Fold(total) <= 0xffff
    ensures Complement(Fold(total)) == 0 <==> 0 < total && total % 0xffff == 0
  {
    FoldIsCongruent(total);
  }

  // ----- sums ---------------------------------------------------------------------------------------

  lemma {:induction false} SumBounded(b: seq<Byte>)
    ensures SumLE(b) <= (|b| + 1) / 2 * 0xffff
    decreases |b|
  {
    if |b| > 1 {
      SumBounded(b[2..]);
    }
  }

  /** The sum of everything, for any payload that the 16-bit length can describe, fits in 32 bits. */
  lemma TotalFits(saddr: seq<Byte>, daddr: seq<Byte>, proto: Byte, payload: seq<Byte>)
    requires |saddr| == 16 && |daddr| == 16 && |payload| <= 0xffff
    ensures Total(saddr, daddr, proto, payload) < WORD
  {
    SumBounded(PseudoHeader(saddr, daddr, |payload|, proto));
    SumBounded(payload);
  }

  lemma {:induction false} SumAppend(a: seq<Byte>, b: seq<Byte>)
    requires |a| % 2 == 0
    ensures SumLE(a + b) == SumLE(a) + SumLE(b)
    decreases |a|
  {
    if a == [] {
      assert a + b == b;
    } else {
      SumAppend(a[2..], b);
      assert (a + b)[2..] == a[2..] + b;
    }
  }

  /** Writing a 16-bit number at an even place that held 0 adds that number to the sum. */
  lemma FieldAdds(b: seq<Byte>, k: nat, c: nat)
    requires k % 2 == 0 && k + 1 < |b| && b[k] == 0 && b[k + 1] == 0 && c <= 0xffff
    ensures SumLE(Written(b, k, c)) == SumLE(b) + c
  {
    hide SumLE;
    FieldAtHeadAdds(b[k..], c);
    SumAppend(b[..k], b[k..]);
    SumAppend(b[..k], Written(b[k..], 0, c));
    assert b == b[..k] + b[k..] && Written(b, k, c) == b[..k] + Written(b[k..], 0, c);
  }

  lemma FieldAtHeadAdds(b: seq<Byte>, c: nat)
    requires 1 < |b| && b[0] == 0 && b[1] == 0 && c <= 0xffff
    ensures SumLE(Written(b, 0, c)) == SumLE(b) + c
  {
    assert Written(b, 0, c)[2..] == b[2..];
  }

  /** The little-endian store of a 16-bit field. */
  function Written(b: seq<Byte>, k: nat, c: nat): seq<Byte>
    requires k + 1 < |b| && c <= 0xffff
  {
    b[k := c % 256][k + 1 := c / 256]
  }

  /** A sender that writes the checksum into a zeroed field at an even place makes the receiver's
      own computation come to 0. */
  lemma ReceiverGetsZero(saddr: seq<Byte>, daddr: seq<Byte>, proto: Byte, payload: seq<Byte>, k: nat, c: nat)
    requires |payload| <= 0xffff && k % 2 == 0 && k + 1 < |payload| && payload[k] == 0 && payload[k + 1] == 0
    requires c <= 0xffff && c == 0xffff - Fold(Total(saddr, daddr, proto, payload))
    ensures Fold(Total(saddr, daddr, proto, Written(payload, k, c))) == 0xffff
  {
    var t := Total(saddr, daddr, proto, payload);
    FieldAdds(payload, k, c);
    FoldIsCongruent(t);
    ComplementCancels(t, Fold(t));
    ZeroExactlyWhen(t + c);
  }

  lemma ComplementCancels(t: nat, f: nat)
    requires f <= 0xffff && f % 0xffff == t % 0xffff && (f == 0 <==> t == 0)
    ensures 0 < t + (0xffff - f) && (t + (0xffff - f)) % 0xffff == 0
  {
  }

  // ----- byte order -----------------------------------------------------------------------------------

  function Swapped(x: nat): nat {
    x % 256 * 256 + x / 256
  }

  lemma WordsAreCongruent(x: nat, y: nat, le: nat, be: nat)
    requires be % 0xffff == 256 * le % 0xffff
    ensures (Word(y, x) + be) % 0xffff == 256 * (Word(x, y) + le) % 0xffff
  {
    var w, t := Word(y, x), 256 * le;
    WordTimes(x, y, le);
    AddCongruent(w, be, t);
    MultipleAside(w + be, w + t, y);
  }

  lemma AddCongruent(w: nat, a: nat, b: nat)
    requires a % 0xffff == b % 0xffff
    ensures (w + a) % 0xffff == (w + b) % 0xffff
  {
    var r := a % 0xffff;
    MultipleAside(w + r, w + r, a / 0xffff);
    MultipleAside(w + r, w + r, b / 0xffff);
  }

  lemma WordTimes(x: nat, y: nat, le: nat)
    ensures 256 * (Word(x, y) + le) == Word(y, x) + 256 * le + 0xffff * y
  {
  }

  lemma MultipleAside(a: nat, b: nat, n: nat)
    requires a % 0xffff == b % 0xffff
    ensures a % 0xffff == (b + 0xffff * n) % 0xffff
  {
  }

  lemma {:induction false} OrdersAreCongruent(b: seq<Byte>)
    ensures SumBE(b) % 0xffff == 256 * SumLE(b) % 0xffff && (SumBE(b) == 0 <==> SumLE(b) == 0)
    decreases |b|
  {
    if |b| > 1 {
      OrdersAreCongruent(b[2..]);
      WordsAreCongruent(b[0], b[1], SumLE(b[2..]), SumBE(b[2..]));
    }
  }

  lemma SwapIsCongruent(x: nat)
    requires x <= 0xffff
    ensures Swapped(x) <= 0xffff && Swapped(x) % 0xffff == 256 * x % 0xffff && (Swapped(x) == 0 <==> x == 0)
  {
    hide Swapped;
    SwapTimes(x);
    MultipleAside(Swapped(x), Swapped(x), x / 256);
  }

  lemma SwapTimes(x: nat)
    requires x <= 0xffff
    ensures Swapped(x) <= 0xffff && (Swapped(x) == 0 <==> x == 0) && 256 * x == Swapped(x) + 0xffff * (x / 256)
  {
    assert x == 256 * (x / 256) + x % 256;
  }

  /** Little-endian evaluation is big-endian evaluation with the bytes swapped, so that both store
      the same two bytes. */
  lemma ByteOrderDoesNotMatter(b: seq<Byte>)
    ensures Fold(SumBE(b)) == Swapped(Fold(SumLE(b))) && Fold(SumLE(b)) <= 0xffff && Fold(SumBE(b)) <= 0xffff
    ensures var le, be := Complement(Fold(SumLE(b))), Complement(Fold(SumBE(b)));
            be == Swapped(le) && [le % 256, le / 256] == [be / 256, be % 256]
  {
    hide SumLE, SumBE, Fold, Swapped;
    var s := SumLE(b);
    OrdersAreCongruent(b);
    FoldIsCongruent(s);
    FoldIsCongruent(SumBE(b));
    SwapIsCongruent(Fold(s));
    TimesCongruent(s, Fold(s));
    FoldIsUnique(Fold(SumBE(b)), Swapped(Fold(s)));
    ComplementSwaps(Fold(s));
  }

  lemma ComplementSwaps(x: nat)
    requires x <= 0xffff
    ensures var le, be := Complement(x), 0xffff - Swapped(x);
            be == Swapped(le) && [le % 256, le / 256] == [be / 256, be % 256]
  {
    var h, l := x / 256, x % 256;
    Halves(255 - h, 255 - l);
    Halves(255 - l, 255 - h);
  }

  lemma Halves(h: nat, l: nat)
    requires l < 256
    ensures (256 * h + l) / 256 == h && (256 * h + l) % 256 == l
  {
  }

  lemma TimesCongruent(a: nat, b: nat)
    requires a % 0xffff == b % 0xffff
    ensures 256 * a % 0xffff == 256 * b % 0xffff
  {
    var r := a % 0xffff;
    MultipleAside(256 * r, 256 * r, 256 * (a / 0xffff));
    MultipleAside(256 * r, 256 * r, 256 * (b / 0xffff));
  }

  /** What the same code adds up on a big-endian host: it takes an odd last byte as it is. */
  function SumOnBigEndianHost(b: seq<Byte>): nat
    decreases |b|
  {
    if b == [] then 0
    else if |b| == 1 then b[0]
    else Word(b[1], b[0]) + SumOnBigEndianHost(b[2..])
  }

  /** The code is right on a big-endian host exactly when there is no odd last byte, or it is 0. */
  lemma {:induction false} BigEndianHostAgreesExactlyWhen(b: seq<Byte>)
    ensures SumOnBigEndianHost(b) == SumBE(b) <==> |b| % 2 == 0 || b[|b| - 1] == 0
    decreases |b|
  {
    if |b| > 1 {
      BigEndianHostAgreesExactlyWhen(b[2..]);
      assert |b[2..]| > 0 ==> b[2..][|b| - 3] == b[|b| - 1];
    }
  }

  /** The pseudo-header and the payload are added up as if they were one string. */
  lemma TotalIsOneSum(saddr: seq<Byte>, daddr: seq<Byte>, proto: Byte, payload: seq<Byte>)
    requires |saddr| == 16 && |daddr| == 16 && |payload| <= 0xffff
    ensures Total(saddr, daddr, proto, payload) == SumLE(PseudoHeader(saddr, daddr, |payload|, proto) + payload)
  {
    hide SumLE, PseudoHeader;
    SumAppend(PseudoHeader(saddr, daddr, |payload|, proto), payload);
  }

  // ----- the code -------------------------------------------------------------------------------------

  /** hton16 on a little-endian host. */
  function Hton16(v: nat): nat
    requires v <= 0xffff
  {
    Swapped(v)
  }

  /** The loop over an address. */
  method AddWords(sum: nat, b: seq<Byte>) returns (r: nat)
    requires |b| % 2 == 0 && sum + |b| / 2 * 0xffff < WORD
    ensures r == sum + SumLE(b) <= sum + |b| / 2 * 0xffff
  {
    r := sum;
    var i := 0;
    while i < |b|
      invariant 0 <= i <= |b| && i % 2 == 0
      invariant r + SumLE(b[i..]) == sum + SumLE(b) && r <= sum + i / 2 * 0xffff
    {
      assert b[i..][2..] == b[i + 2..];
      r := r + Word(b[i], b[i + 1]);
      i := i + 2;
    }
  }

  /** esix_ip_upper_checksum. */
  method UpperChecksum(saddr: seq<Byte>, daddr: seq<Byte>, proto: Byte, payload: seq<Byte>) returns (c: nat)
    requires |saddr| == 16 && |daddr| == 16 && |payload| <= 0xffff
    ensures c <= 0xffff && c == 0xffff - Fold(Total(saddr, daddr, proto, payload))
  {
    hide SumLE, Fold;
    var sum := AddWords(0, saddr);
    sum := AddWords(sum, daddr);
    HeaderSum(saddr, daddr, |payload|, proto);
    TotalFits(saddr, daddr, proto, payload);
    sum := sum + Hton16(|payload|);
    sum := sum + Hton16(proto);
    sum := AddPayload(sum, payload);
    assert sum == Total(saddr, daddr, proto, payload);
    FoldIsCongruent(sum);
    sum := FoldCarries(sum);
    c := 0xffff - sum;
  }

  /** The loop over the payload, with an odd last byte. */
  method AddPayload(before: nat, payload: seq<Byte>) returns (sum: nat)
    ensures sum == before + SumLE(payload)
  {
    sum := before;
    var i, len := 0, |payload|;
    while 1 < len
      invariant 0 <= i && len == |payload| - i && i <= |payload|
      invariant sum + SumLE(payload[i..]) == before + SumLE(payload)
    {
      assert payload[i..][2..] == payload[i + 2..];
      sum := sum + Word(payload[i], payload[i + 1]);
      i, len := i + 2, len - 2;
    }
    if len != 0 {
      sum := sum + payload[i];
    }
  }

  method FoldCarries(total: nat) returns (sum: nat)
    ensures sum == Fold(total)
  {
    sum := total;
    while sum / 0x1_0000 != 0
      invariant Fold(sum) == Fold(total)
      decreases sum
    {
      sum := sum % 0x1_0000 + sum / 0x1_0000;
    }
  }

  lemma HeaderSum(saddr: seq<Byte>, daddr: seq<Byte>, length: nat, proto: Byte)
    requires |saddr| == 16 && |daddr| == 16 && length <= 0xffff
    ensures SumLE(PseudoHeader(saddr, daddr, length, proto))
            == SumLE(saddr) + SumLE(daddr) + Hton16(length) + Hton16(proto)
  {
    hide SumLE;
    OneWord(length / 256, length % 256);
    OneWord(0, proto);
    FourParts(saddr, daddr, [length / 256, length % 256], [0, proto]);
  }

  lemma FourParts(a: seq<Byte>, b: seq<Byte>, c: seq<Byte>, d: seq<Byte>)
    requires |a| % 2 == 0 && |b| % 2 == 0 && |c| % 2 == 0
    ensures SumLE(a + b + c + d) == SumLE(a) + SumLE(b) + SumLE(c) + SumLE(d)
  {
    hide SumLE;
    SumAppend(a + b + c, d);
    SumAppend(a + b, c);
    SumAppend(a, b);
  }

  lemma OneWord(x: Byte, y: Byte)
    ensures SumLE([x, y]) == Word(x, y)
  {
    assert [x, y][2..] == [];
  }

  // ----- errors ---------------------------------------------------------------------------------------

  /** b is a but for one byte. */
  ghost predicate OneOff(a: seq<Byte>, b: seq<Byte>) {
    |b| == |a| && exists k :: 0 <= k < |a| && b[k] != a[k] && forall i :: 0 <= i < |a| && i != k ==> b[i] == a[i]
  }

  /** What a changed byte does to a sum: too little to come to a multiple of 65535. */
  predicate Slight(was: nat, now: nat) {
    now != was && -0xffff < now - was < 0xffff
  }

  lemma {:induction false} ChangedByte(a: seq<Byte>, b: seq<Byte>, k: nat)
    requires |b| == |a| && k < |a| && b[k] != a[k] && forall i :: 0 <= i < |a| && i != k ==> b[i] == a[i]
    ensures Slight(SumLE(a), SumLE(b))
    decreases k
  {
    if 1 < k {
      ChangedByte(a[2..], b[2..], k - 2);
    } else if 1 < |a| {
      assert a[2..] == b[2..];
    }
  }

  lemma OneOffSums(a: seq<Byte>, b: seq<Byte>)
    requires OneOff(a, b)
    ensures Slight(SumLE(a), SumLE(b))
  {
    hide SumLE;
    var k :| 0 <= k < |a| && b[k] != a[k] && forall i :: 0 <= i < |a| && i != k ==> b[i] == a[i];
    ChangedByte(a, b, k);
  }

  lemma SlightIsSeen(was: nat, now: nat)
    requires Slight(was, now) && Fold(was) == 0xffff
    ensures Fold(now) != 0xffff
  {
    hide Fold;
    ZeroExactlyWhen(was);
    ZeroExactlyWhen(now);
    NotBothMultiples(was / 0xffff, was, now);
  }

  lemma NotBothMultiples(q: nat, was: nat, now: nat)
    requires was == q * 0xffff && Slight(was, now)
    ensures now % 0xffff != 0
  {
    Multiples(q, now / 0xffff);
  }

  lemma Multiples(q: nat, r: nat)
    ensures r == q || r * 0xffff <= q * 0xffff - 0xffff || q * 0xffff + 0xffff <= r * 0xffff
  {
  }

  lemma TotalParts(saddr: seq<Byte>, daddr: seq<Byte>, proto: Byte, payload: seq<Byte>)
    requires |saddr| == 16 && |daddr| == 16 && |payload| <= 0xffff
    ensures Total(saddr, daddr, proto, payload)
            == SumLE(saddr) + SumLE(daddr) + Hton16(|payload|) + Hton16(proto) + SumLE(payload)
  {
    hide SumLE, PseudoHeader, Hton16;
    HeaderSum(saddr, daddr, |payload|, proto);
  }

  lemma OtherNumber(v: nat, u: nat)
    requires v <= 0xffff && u <= 0xffff && v != u && 0 < v && 0 < u
    ensures Slight(Hton16(v), Hton16(u))
  {
    Halves(v / 256, v % 256);
    Halves(u / 256, u % 256);
    assert v == v / 256 * 256 + v % 256 && u == u / 256 * 256 + u % 256;
  }

  lemma OtherProtocol(p: Byte, q: Byte)
    requires p != q
    ensures Slight(Hton16(p), Hton16(q))
  {
  }

  /** A receiver refuses whatever differs in one byte, of either address, the protocol or the payload,
      from something that it would accept. */
  lemma OneByteErrorIsSeen(saddr: seq<Byte>, daddr: seq<Byte>, proto: Byte, payload: seq<Byte>,
                           saddr': seq<Byte>, daddr': seq<Byte>, proto': Byte, payload': seq<Byte>)
    requires |saddr| == |daddr| == |saddr'| == |daddr'| == 16 && |payload| <= 0xffff && |payload'| <= 0xffff
    requires Fold(Total(saddr, daddr, proto, payload)) == 0xffff
    requires || (OneOff(saddr, saddr') && daddr' == daddr && proto' == proto && payload' == payload)
             || (saddr' == saddr && OneOff(daddr, daddr') && proto' == proto && payload' == payload)
             || (saddr' == saddr && daddr' == daddr && proto' != proto && payload' == payload)
             || (saddr' == saddr && daddr' == daddr && proto' == proto && OneOff(payload, payload'))
    ensures Fold(Total(saddr', daddr', proto', payload')) != 0xffff
  {
    hide SumLE, Total, Fold, OneOff, Hton16;
    TotalParts(saddr, daddr, proto, payload);
    TotalParts(saddr', daddr', proto', payload');
    if proto' != proto {
      OtherProtocol(proto, proto');
    } else if OneOff(payload, payload') && saddr' == saddr && daddr' == daddr {
      OneOffSums(payload, payload');
      SameLength(payload, payload');
    } else if OneOff(saddr, saddr') && daddr' == daddr {
      OneOffSums(saddr, saddr');
    } else {
      OneOffSums(daddr, daddr');
    }
    SlightIsSeen(Total(saddr, daddr, proto, payload), Total(saddr', daddr', proto', payload'));
  }

  lemma SameLength(a: seq<Byte>, b: seq<Byte>)
    requires OneOff(a, b)
    ensures |b| == |a|
  {
  }

  lemma {:induction false} PaddingAddsNothing(b: seq<Byte>, n: nat)
    ensures SumLE(b + Zeros(n)) == SumLE(b)
    decreases |b| + n
  {
    var r := b + Zeros(n);
    if |b| > 1 {
      PaddingAddsNothing(b[2..], n);
      assert r[2..] == b[2..] + Zeros(n);
    } else if |r| > 1 {
      PaddingAddsNothing([], |r| - 2);
      assert r[2..] == [] + Zeros(|r| - 2);
    }
  }

  function Zeros(n: nat): seq<Byte> {
    seq(n, i => 0)
  }

  /** Nor does it accept zeros behind the payload, since the length is covered. */
  lemma PaddingIsSeen(saddr: seq<Byte>, daddr: seq<Byte>, proto: Byte, payload: seq<Byte>, n: nat)
    requires |saddr| == |daddr| == 16 && 0 < |payload| && 0 < n && |payload| + n <= 0xffff
    requires Fold(Total(saddr, daddr, proto, payload)) == 0xffff
    ensures Fold(Total(saddr, daddr, proto, payload + Zeros(n))) != 0xffff
  {
    hide SumLE, Total, Fold, Hton16;
    TotalParts(saddr, daddr, proto, payload);
    TotalParts(saddr, daddr, proto, payload + Zeros(n));
    PaddingAddsNothing(payload, n);
    OtherNumber(|payload|, |payload| + n);
    SlightIsSeen(Total(saddr, daddr, proto, payload), Total(saddr, daddr, proto, payload + Zeros(n)));
  }
}
