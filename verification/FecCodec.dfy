/** Big-endian conversions between integers, machine words and bytes. */
module Words {

  function Nibble(n: int): bv4
    requires 0 <= n < 16
  {
    n as bv4
  }

  function NibbleValue(h: bv4): (n: int)
    ensures 0 <= n < 16
  {
    h as int
  }

  lemma NibbleRoundTrip(n: int)
    requires 0 <= n < 16
    ensures NibbleValue(Nibble(n)) == n
  {}

  lemma NibbleBack(h: bv4)
    ensures Nibble(NibbleValue(h)) == h
  {}

  function Pair(hi: bv4, lo: bv4): bv8 {
    (hi as bv8 << 4) | (lo as bv8)
  }

  function Upper(b: bv8): bv4 {
    (b >> 4) as bv4
  }

  function Lower(b: bv8): bv4 {
    (b & 0xF) as bv4
  }

  lemma PairRoundTrip(hi: bv4, lo: bv4, b: bv8)
    ensures Upper(Pair(hi, lo)) == hi && Lower(Pair(hi, lo)) == lo
    ensures Pair(Upper(b), Lower(b)) == b
  {}

  function ByteOf(n: int): bv8
    requires 0 <= n < 256
  {
    Pair(Nibble(n / 16), Nibble(n % 16))
  }

  function IntOf(b: bv8): (n: int)
    ensures 0 <= n < 256
  {
    NibbleValue(Upper(b)) * 16 + NibbleValue(Lower(b))
  }

  lemma ByteRoundTrip(n: int)
    requires 0 <= n < 256
    ensures IntOf(ByteOf(n)) == n
  {
    hide Nibble, NibbleValue, Pair, Upper, Lower;
    PairRoundTrip(Nibble(n / 16), Nibble(n % 16), 0);
    NibbleRoundTrip(n / 16);
    NibbleRoundTrip(n % 16);
  }

  lemma IntRoundTrip(b: bv8)
    ensures ByteOf(IntOf(b)) == b
  {
    hide Nibble, NibbleValue, Pair, Upper, Lower;
    PairRoundTrip(Upper(b), Lower(b), b);
    NibbleBack(Upper(b));
    NibbleBack(Lower(b));
  }

  function Join16(hi: bv8, lo: bv8): bv16 {
    (hi as bv16 << 8) | (lo as bv16)
  }

  function High(x: bv16): bv8 {
    (x >> 8) as bv8
  }

  function Low(x: bv16): bv8 {
    (x & 0xFF) as bv8
  }

  lemma Join16RoundTrip(hi: bv8, lo: bv8, x: bv16)
    ensures High(Join16(hi, lo)) == hi && Low(Join16(hi, lo)) == lo
    ensures Join16(High(x), Low(x)) == x
  {}

  /** `uint16(n)` of a length. */
  function Word(n: nat): bv16 {
    Join16(ByteOf(n / 256 % 256), ByteOf(n % 256))
  }

  function WordValue(x: bv16): (n: int)
    ensures 0 <= n < 65536
  {
    IntOf(High(x)) * 256 + IntOf(Low(x))
  }

  lemma WordRoundTrip(n: nat)
    requires n < 65536
    ensures WordValue(Word(n)) == n
  {
    hide ByteOf, IntOf, Join16, High, Low;
    Join16RoundTrip(ByteOf(n / 256 % 256), ByteOf(n % 256), 0);
    ByteRoundTrip(n / 256 % 256);
    ByteRoundTrip(n % 256);
  }
}

/** XOR forward error correction: what one FEC packet protects, and how one lost packet is rebuilt. */
module FecCodec {
  import opened Basics
  import opened SequenceNumbers
  import opened Words

  datatype RtpPacket = RtpPacket(seqNum: Seq16, timestamp: bv32, payloadType: bv8, marker: bool, payload: seq<bv8>)

  /** The running XOR of payloads, lengths, timestamps and payload-type/marker bytes. */
  datatype Sums = Sums(payload: seq<bv8>, length: bv16, timestamp: bv32, ptMarker: bv8)

  datatype FecPacket = FecPacket(sequenceBase: Seq16, protectedSeq: seq<Seq16>, sums: Sums)

  function PtMarker(p: RtpPacket): bv8 {
    if p.marker then p.payloadType | 0x80 else p.payloadType
  }

  /** XORs b into the front of acc; bytes of b beyond acc are ignored. */
  function XorPrefix(acc: seq<bv8>, b: seq<bv8>): (r: seq<bv8>)
    ensures |r| == |acc|
  {
    seq(|acc|, j requires 0 <= j < |acc| => if j < |b| then acc[j] ^ b[j] else acc[j])
  }

  /** XORs one packet into the sums. */
  function Absorb(s: Sums, p: RtpPacket): Sums {
    Sums(XorPrefix(s.payload, p.payload), s.length ^ Word(|p.payload|), s.timestamp ^ p.timestamp,
         s.ptMarker ^ PtMarker(p))
  }

  function AbsorbAll(s: Sums, ps: seq<RtpPacket>): Sums {
    if ps == [] then s else Absorb(AbsorbAll(s, ps[..|ps| - 1]), ps[|ps| - 1])
  }

  function MaxLength(ps: seq<RtpPacket>): (m: nat)
    ensures forall i :: 0 <= i < |ps| ==> |ps[i].payload| <= m
  {
    if ps == [] then 0
    else
      var m := MaxLength(ps[..|ps| - 1]);
      if |ps[|ps| - 1].payload| > m then |ps[|ps| - 1].payload| else m
  }

  function Zero(n: nat): Sums {
    Sums(seq(n, _ => 0), 0, 0, 0)
  }

  function Numbers(ps: seq<RtpPacket>): (ns: seq<Seq16>)
    ensures |ns| == |ps|
  {
    seq(|ps|, i requires 0 <= i < |ps| => ps[i].seqNum)
  }

  /** The FEC packet of a block. */
  function Encode(block: seq<RtpPacket>): FecPacket
    requires block != []
  {
    FecPacket(block[0].seqNum, Numbers(block), AbsorbAll(Zero(MaxLength(block)), block))
  }

  /** Reads a packet off the sums; None is the out-of-range slice that panics in the source. */
  function FromSums(seqNum: Seq16, s: Sums): Option<RtpPacket> {
    var n := WordValue(s.length);
    if n <= |s.payload| then
      Some(RtpPacket(seqNum, s.timestamp, s.ptMarker & 0x7F, s.ptMarker & 0x80 != 0, s.payload[..n]))
    else None
  }

  // ---- The algebra of Absorb

  lemma XorPrefixCommutes(a: seq<bv8>, b: seq<bv8>, c: seq<bv8>)
    ensures XorPrefix(XorPrefix(a, b), c) == XorPrefix(XorPrefix(a, c), b)
  {}

  lemma AbsorbCommutes(s: Sums, p: RtpPacket, q: RtpPacket)
    ensures Absorb(Absorb(s, p), q) == Absorb(Absorb(s, q), p)
  {
    hide Word, PtMarker, XorPrefix;
    XorPrefixCommutes(s.payload, p.payload, q.payload);
  }

  lemma AbsorbTwice(s: Sums, p: RtpPacket)
    ensures Absorb(Absorb(s, p), p) == s
  {
    hide Word, PtMarker;
    assert XorPrefix(XorPrefix(s.payload, p.payload), p.payload) == s.payload;
  }

  lemma {:induction false} AbsorbAllConcat(s: Sums, ps: seq<RtpPacket>, qs: seq<RtpPacket>)
    ensures AbsorbAll(s, ps + qs) == AbsorbAll(AbsorbAll(s, ps), qs)
    decreases |qs|
  {
    hide Absorb;
    if qs == [] {
      assert ps + qs == ps;
    } else {
      var n := |qs| - 1;
      AbsorbAllConcat(s, ps, qs[..n]);
      assert (ps + qs)[..|ps + qs| - 1] == ps + qs[..n];
    }
  }

  /** A packet can be absorbed before or after the others. */
  lemma {:induction false} AbsorbEarlier(s: Sums, p: RtpPacket, ps: seq<RtpPacket>)
    ensures AbsorbAll(Absorb(s, p), ps) == Absorb(AbsorbAll(s, ps), p)
    decreases |ps|
  {
    hide Absorb;
    if ps != [] {
      var n := |ps| - 1;
      AbsorbEarlier(s, p, ps[..n]);
      AbsorbCommutes(AbsorbAll(s, ps[..n]), p, ps[n]);
    }
  }

  /** Removing one occurrence of p and absorbing it last gives the same sums. */
  lemma AbsorbLast(s: Sums, ps: seq<RtpPacket>, i: nat)
    requires i < |ps|
    ensures AbsorbAll(s, ps) == Absorb(AbsorbAll(s, ps[..i] + ps[i + 1..]), ps[i])
  {
    hide Absorb;
    var (a, b) := (ps[..i], ps[i + 1..]);
    assert ps == a + ([ps[i]] + b);
    AbsorbAllConcat(s, a, [ps[i]] + b);
    AbsorbAllConcat(AbsorbAll(s, a), [ps[i]], b);
    assert AbsorbAll(AbsorbAll(s, a), [ps[i]]) == Absorb(AbsorbAll(s, a), ps[i]) by {
      assert [ps[i]][..0] == [];
    }
    AbsorbEarlier(AbsorbAll(s, a), ps[i], b);
    AbsorbAllConcat(s, a, b);
  }

  lemma WithoutOne<T>(s: seq<T>, i: nat)
    requires i < |s|
    ensures multiset(s[..i] + s[i + 1..]) == multiset(s) - multiset{s[i]}
  {
    assert s == s[..i] + [s[i]] + s[i + 1..];
  }

  /** The order of absorption does not matter. */
  lemma {:induction false} AbsorbAnyOrder(s: Sums, ps: seq<RtpPacket>, qs: seq<RtpPacket>)
    requires multiset(ps) == multiset(qs)
    ensures AbsorbAll(s, ps) == AbsorbAll(s, qs)
    decreases |qs|
  {
    hide Absorb, AbsorbAll;
    assert |ps| == |multiset(ps)| == |multiset(qs)| == |qs|;
    if qs != [] {
      var n := |qs| - 1;
      var p := qs[n];
      assert p in multiset(qs);
      var i :| 0 <= i < |ps| && ps[i] == p;
      WithoutOne(ps, i);
      WithoutOne(qs, n);
      AbsorbLast(s, ps, i);
      AbsorbLast(s, qs, n);
      assert qs[..n] + qs[n + 1..] == qs[..n];
      AbsorbAnyOrder(s, ps[..i] + ps[i + 1..], qs[..n]);
    }
  }

  /** Absorbing the same packets again cancels them. */
  lemma {:induction false} AbsorbAllTwice(s: Sums, ps: seq<RtpPacket>)
    ensures AbsorbAll(AbsorbAll(s, ps), ps) == s
    decreases |ps|
  {
    hide Absorb;
    if ps != [] {
      var n := |ps| - 1;
      AbsorbEarlier(AbsorbAll(s, ps[..n]), ps[n], ps[..n]);
      AbsorbAllTwice(s, ps[..n]);
      AbsorbTwice(s, ps[n]);
    }
  }

  /** What the sender must keep to for FEC to be exact. */
  predicate Sendable(p: RtpPacket) {
    p.payloadType < 0x80 && |p.payload| < 65536
  }

  /** A packet alone in the sums is read back bit for bit, if and only if it is one FEC can carry: seven bits of
      payload type and sixteen of length. */
  lemma ReadBack(p: RtpPacket, n: nat)
    requires |p.payload| <= n
    ensures FromSums(p.seqNum, Absorb(Zero(n), p)) == Some(p) <==> Sendable(p)
  {
    hide Word, WordValue;
    var s := Absorb(Zero(n), p);
    assert s.length == Word(|p.payload|);
    if |p.payload| < 65536 {
      WordRoundTrip(|p.payload|);
      assert s.payload[..|p.payload|] == p.payload;
    }
    PtMarkerReadBack(p.payloadType, p.marker);
  }

  lemma PtMarkerReadBack(pt: bv8, marker: bool)
    ensures var b: bv8 := if marker then pt | 0x80 else pt;
            (b & 0x7F == pt <==> pt < 0x80) && (pt < 0x80 ==> ((b & 0x80 != 0) <==> marker))
  {}

  /** Recovery is exact, if and only if the missing packet is one FEC can carry: cancelling all other packets of a
      block, in any order, from its FEC sums yields the one missing packet. */
  lemma RecoverMissing(block: seq<RtpPacket>, k: nat, others: seq<RtpPacket>)
    requires k < |block|
    requires multiset(others) + multiset{block[k]} == multiset(block)
    ensures FromSums(block[k].seqNum, AbsorbAll(Encode(block).sums, others)) == Some(block[k]) <==> Sendable(block[k])
  {
    hide Absorb, FromSums;
    var z := Zero(MaxLength(block));
    AbsorbAnyOrder(z, block, others + [block[k]]);
    assert (others + [block[k]])[..|others|] == others;
    AbsorbEarlier(AbsorbAll(z, others), block[k], others);
    AbsorbAllTwice(z, others);
    ReadBack(block[k], MaxLength(block));
  }
}
