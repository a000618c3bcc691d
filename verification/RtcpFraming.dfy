/** Compound RTCP packets: the bytes of each packet, and reading them back. Bytes and words are numbers. */
module RtcpFraming {
  import opened Basics

  type Byte = x: int | 0 <= x < 256
  type U32 = x: int | 0 <= x < 0x1_0000_0000
  type U64 = x: int | 0 <= x < 0x1_0000_0000_0000_0000

  datatype Report = Report(ssrc: U32, fractionLost: Byte, totalLost: U32, highestSeq: U32, jitter: U32, lastSR: U32,
                           delay: U32)

  /** What the builder was asked to add. */
  datatype Item =
    | SR(ntp: U64, rtp: U32, packets: U32, octets: U32, reports: seq<Report>)
    | RR
    | SDES(cname: seq<Byte>)
    | BYE(reason: seq<Byte>)

  function B2(n: nat): (b: seq<Byte>)
    ensures |b| == 2
  {
    [n / 256 % 256, n % 256]
  }

  function B4(x: U32): (b: seq<Byte>)
    ensures |b| == 4
  {
    [x / 0x100_0000, x / 0x1_0000 % 256, x / 256 % 256, x % 256]
  }

  function R2(b: seq<Byte>): nat
    requires |b| >= 2
  {
    b[0] as int * 256 + b[1]
  }

  function R4(b: seq<Byte>): U32
    requires |b| >= 4
  {
    b[0] as int * 0x100_0000 + b[1] as int * 0x1_0000 + b[2] as int * 256 + b[3]
  }

  lemma R2B2(n: nat, rest: seq<Byte>)
    ensures R2(B2(n) + rest) == n % 65536
  {
    Low16(n);
    assert (B2(n) + rest)[0] == n / 256 % 256 && (B2(n) + rest)[1] == n % 256;
  }

  lemma Low16(n: nat)
    ensures n / 256 % 256 * 256 + n % 256 == n % 65536
  {
    var q, r := n / 65536, n % 65536;
    assert n == q * 65536 + r;
    assert n / 256 == q * 256 + r / 256;
    assert n / 256 % 256 == r / 256;
  }

  lemma R4B4(x: U32, rest: seq<Byte>)
    ensures R4(B4(x) + rest) == x
  {
    assert x == x / 256 * 256 + x % 256;
    assert x / 256 == x / 0x1_0000 * 256 + x / 256 % 256;
    assert x / 0x1_0000 == x / 0x100_0000 * 256 + x / 0x1_0000 % 256;
    var b := B4(x) + rest;
    assert b[0] == B4(x)[0] && b[1] == B4(x)[1] && b[2] == B4(x)[2] && b[3] == B4(x)[3];
  }

  function Zeros(n: nat): (z: seq<Byte>)
    ensures |z| == n && forall i :: 0 <= i < n ==> z[i] == 0
  {
    seq(n, i => 0)
  }

  /** The 4-byte header; the length field is cut to 16 bits. */
  function Header(count: nat, kind: Byte, length: nat): (b: seq<Byte>)
    requires count < 32
    ensures |b| == 4
  {
    [128 + count, kind] + B2(length)
  }

  function EncodeReport(r: Report): (b: seq<Byte>)
    ensures |b| == 24
  {
    B4(r.ssrc) + [r.fractionLost, r.totalLost / 0x1_0000 % 256, r.totalLost / 256 % 256, r.totalLost % 256] +
    B4(r.highestSeq) + B4(r.jitter) + B4(r.lastSR) + B4(r.delay)
  }

  function EncodeReports(rs: seq<Report>): (b: seq<Byte>)
    ensures |b| == 24 * |rs|
  {
    if rs == [] then [] else EncodeReports(rs[..|rs| - 1]) + EncodeReport(rs[|rs| - 1])
  }

  function Kept(rs: seq<Report>): seq<Report> {
    if |rs| > 31 then rs[..31] else rs
  }

  function Padding(n: nat): nat {
    (4 - n % 4) % 4
  }

  function Kind(item: Item): Byte {
    match item case SR(_, _, _, _, _) => 200 case RR => 201 case SDES(_) => 202 case BYE(_) => 203
  }

  function Count(item: Item): (n: nat)
    ensures n < 32
  {
    match item case SR(_, _, _, _, rs) => |Kept(rs)| case RR => 0 case SDES(_) => 1 case BYE(_) => 1
  }

  /** What follows the header and the sender's identifier. */
  function Body(item: Item): seq<Byte> {
    match item
    case SR(ntp, rtp, packets, octets, rs) =>
      B4(ntp / 0x1_0000_0000) + B4(ntp % 0x1_0000_0000) + B4(rtp) + B4(packets) + B4(octets) + EncodeReports(Kept(rs))
    case RR => []
    case SDES(cname) => [1, |cname| % 256] + cname + Zeros(1 + Padding(7 + |cname|))
    case BYE(reason) => if reason == [] then [] else [|reason| % 256] + reason + Zeros(Padding(1 + |reason|))
  }

  /** One packet: header, sender, body; the length field counts words less one. */
  function Encode(ssrc: U32, item: Item): (b: seq<Byte>)
    ensures |b| == 8 + |Body(item)|
  {
    Header(Count(item), Kind(item), 1 + |Body(item)| / 4) + B4(ssrc) + Body(item)
  }

  function Build(ssrc: U32, items: seq<Item>): seq<Byte> {
    if items == [] then [] else Encode(ssrc, items[0]) + Build(ssrc, items[1..])
  }

  // ---- Reading one packet off the front

  datatype Parsed = Parsed(version: nat, padding: bool, count: nat, kind: Byte, length: nat, ssrc: U32, data: seq<Byte>)

  /** None is ErrInvalidRTCP. The expected length is computed in 16 bits. */
  function Parse(data: seq<Byte>): Option<Parsed> {
    if |data| < 4 then None
    else if data[0] / 64 != 2 then None
    else
      var length := R2(data[2..]);
      var expected := (length + 1) % 65536 * 4 % 65536;
      if |data| < expected then None
      else Some(Parsed(data[0] / 64, data[0] / 32 % 2 == 1, data[0] % 32, data[1], length,
                       if |data| >= 8 then R4(data[4..]) else 0, data[..expected]))
  }

  /** The packet as it should be read. */
  function Frame(ssrc: U32, item: Item): Parsed {
    Parsed(2, false, Count(item), Kind(item), 1 + |Body(item)| / 4, ssrc, Encode(ssrc, item))
  }

  lemma Padded(n: nat)
    ensures (n + Padding(n)) % 4 == 0
  {}

  /** Every packet is a whole number of words. */
  lemma Aligned(ssrc: U32, item: Item)
    ensures |Body(item)| % 4 == 0 && |Encode(ssrc, item)| == 4 * (2 + |Body(item)| / 4)
  {
    hide EncodeReports, Padding, Encode;
    match item
    case SR(_, _, _, _, rs) => assert |Body(item)| == 4 * (5 + 6 * |Kept(rs)|);
    case RR =>
    case SDES(cname) => Padded(7 + |cname|);
    case BYE(reason) => Padded(1 + |reason|);
  }

  lemma HeaderReads(ssrc: U32, item: Item, rest: seq<Byte>)
    ensures var data := Encode(ssrc, item) + rest;
            data[0] == 128 + Count(item) && data[1] == Kind(item) && R2(data[2..]) == (1 + |Body(item)| / 4) % 65536 &&
            R4(data[4..]) == ssrc
  {
    hide Body, R2, R4, B2, B4, Count, Kind;
    var len, tail := 1 + |Body(item)| / 4, Body(item) + rest;
    var data := Encode(ssrc, item) + rest;
    assert data == [128 + Count(item), Kind(item)] + B2(len) + B4(ssrc) + tail;
    assert data[2..] == B2(len) + (B4(ssrc) + tail);
    assert data[4..] == B4(ssrc) + tail;
    R2B2(len, B4(ssrc) + tail);
    R4B4(ssrc, tail);
  }

  /** The packet at the front is read whole, exactly when it is shorter than 65536 bytes. */
  lemma ParseFirstIff(ssrc: U32, item: Item, rest: seq<Byte>)
    ensures |Encode(ssrc, item)| < 65536 ==> Parse(Encode(ssrc, item) + rest) == Some(Frame(ssrc, item))
    ensures Parse(Encode(ssrc, item) + rest) == Some(Frame(ssrc, item)) ==> |Encode(ssrc, item)| < 65536
  {
    hide Body, R2, R4, Header, Count, Kind;
    Aligned(ssrc, item);
    HeaderReads(ssrc, item, rest);
    var p := Encode(ssrc, item);
    if |p| < 65536 {
      assert (p + rest)[..|p|] == p;
    }
  }

  // ---- Reading the whole compound

  /** Reads packets until nothing is left; a packet of expected length zero would never end. */
  function ParseAll(data: seq<Byte>): Option<seq<Parsed>>
    decreases |data|
  {
    if data == [] then Some([])
    else
      match Parse(data)
      case None => None
      case Some(f) =>
        if f.data == [] then None
        else
          match ParseAll(data[|f.data|..])
          case None => None
          case Some(fs) => Some([f] + fs)
  }

  function Frames(ssrc: U32, items: seq<Item>): seq<Parsed> {
    if items == [] then [] else [Frame(ssrc, items[0])] + Frames(ssrc, items[1..])
  }

  /** Reading the compound packet by packet gives exactly the added packets in order, if and only if each
      is shorter than 65536 bytes. */
  lemma {:induction false} FramesReadBackIff(ssrc: U32, items: seq<Item>)
    ensures ParseAll(Build(ssrc, items)) == Some(Frames(ssrc, items)) <==>
            forall i :: 0 <= i < |items| ==> |Encode(ssrc, items[i])| < 65536
  {
    hide Encode, Parse;
    if items == [] {
    } else {
      var p, rest := Encode(ssrc, items[0]), Build(ssrc, items[1..]);
      assert |p| >= 8;
      ParseFirstIff(ssrc, items[0], rest);
      if |p| < 65536 {
        assert (p + rest)[|p|..] == rest;
        FramesReadBackIff(ssrc, items[1..]);
        assert forall i :: 0 < i < |items| ==> items[i] == items[1..][i - 1];
        if ParseAll(rest).Some? {
          SameAfterFirst(Frame(ssrc, items[0]), ParseAll(rest).value, Frames(ssrc, items[1..]));
        }
      } else {
        assert Frames(ssrc, items)[0] == Frame(ssrc, items[0]);
      }
    }
  }

  lemma SameAfterFirst(f: Parsed, a: seq<Parsed>, b: seq<Parsed>)
    ensures [f] + a == [f] + b <==> a == b
  {
    assert ([f] + a)[1..] == a && ([f] + b)[1..] == b;
  }

  // ---- What the packets say, read independently of the builder (RFC 3550 sections 6.4.1, 6.5 and 6.6)

  function ReadReport(b: seq<Byte>): Report
    requires |b| == 24
  {
    Report(R4(b[0..]), b[4], b[5] as int * 0x1_0000 + b[6] as int * 256 + b[7], R4(b[8..]), R4(b[12..]), R4(b[16..]),
           R4(b[20..]))
  }

  function ReadReports(b: seq<Byte>): seq<Report>
    requires |b| % 24 == 0
    decreases |b|
  {
    if b == [] then [] else ReadReports(b[..|b| - 24]) + [ReadReport(b[|b| - 24..])]
  }

  function ReadBody(kind: Byte, count: nat, b: seq<Byte>): Option<Item> {
    match kind
    case 200 =>
      if |b| != 20 + 24 * count then None
      else Some(SR(R4(b[0..]) as int * 0x1_0000_0000 + R4(b[4..]), R4(b[8..]), R4(b[12..]), R4(b[16..]),
                   ReadReports(b[20..])))
    case 201 => if b != [] then None else Some(RR)
    case 202 => if |b| < 2 || b[0] != 1 || |b| < 2 + b[1] as int then None else Some(SDES(b[2..2 + b[1] as int]))
    case 203 => if b == [] then Some(BYE([])) else if |b| < 1 + b[0] as int then None
      else Some(BYE(b[1..1 + b[0] as int]))
    case _ => None
  }

  function Read(f: Parsed): Option<Item> {
    if |f.data| < 8 then None else ReadBody(f.kind, f.count, f.data[8..])
  }

  /** The item can be written without loss: texts of at most 255 bytes, at most 31 reports, and at most 24
      bits of lost packets. */
  predicate Fits(item: Item) {
    match item
    case SR(_, _, _, _, rs) => |rs| <= 31 && forall r <- rs :: r.totalLost < 0x100_0000
    case RR => true
    case SDES(cname) => |cname| <= 255
    case BYE(reason) => |reason| <= 255
  }

  lemma ReportReadsBack(r: Report)
    ensures ReadReport(EncodeReport(r)) == Cut(r)
  {
    hide B4, R4;
    var b := EncodeReport(r);
    var lost := r.totalLost;
    var l4 := [r.fractionLost, lost / 0x1_0000 % 256, lost / 256 % 256, lost % 256];
    var t3, t2 := B4(r.lastSR) + B4(r.delay), B4(r.jitter) + (B4(r.lastSR) + B4(r.delay));
    assert b == B4(r.ssrc) + l4 + B4(r.highestSeq) + t2;
    assert b[0..] == B4(r.ssrc) + (l4 + (B4(r.highestSeq) + t2));
    assert b[8..] == B4(r.highestSeq) + t2 && b[12..] == B4(r.jitter) + t3;
    assert b[16..] == B4(r.lastSR) + B4(r.delay) && b[20..] == B4(r.delay) + [];
    R4B4(r.ssrc, l4 + (B4(r.highestSeq) + t2));
    R4B4(r.highestSeq, t2);
    R4B4(r.jitter, t3);
    R4B4(r.lastSR, B4(r.delay));
    R4B4(r.delay, []);
    Low24(lost);
  }

  lemma Low24(x: U32)
    ensures (x / 0x1_0000 % 256) * 0x1_0000 + x / 256 % 256 * 256 + x % 256 == x % 0x100_0000
  {
    Low16(x);
    var q, r := x / 0x100_0000, x % 0x100_0000;
    assert x == q * 0x100_0000 + r;
    assert x / 0x1_0000 == q * 256 + r / 0x1_0000;
    assert x / 0x1_0000 % 256 == r / 0x1_0000;
    assert x % 0x1_0000 == r % 0x1_0000;
  }

  function Cut(r: Report): Report {
    r.(totalLost := r.totalLost % 0x100_0000)
  }

  function CutAll(rs: seq<Report>): (c: seq<Report>)
    ensures |c| == |rs| && forall i :: 0 <= i < |rs| ==> c[i] == Cut(rs[i])
  {
    seq(|rs|, i requires 0 <= i < |rs| => Cut(rs[i]))
  }

  lemma CutSnoc(rs: seq<Report>)
    requires rs != []
    ensures CutAll(rs) == CutAll(rs[..|rs| - 1]) + [Cut(rs[|rs| - 1])]
  {
    hide Cut;
  }

  lemma {:induction false} ReportsReadBack(rs: seq<Report>)
    ensures ReadReports(EncodeReports(rs)) == CutAll(rs)
  {
    hide ReadReport, EncodeReport, Cut, CutAll;
    if rs == [] {
    } else {
      var k := |rs| - 1;
      var b := EncodeReports(rs);
      ReportsReadBack(rs[..k]);
      ReportReadsBack(rs[k]);
      CutSnoc(rs);
      assert b[..|b| - 24] == EncodeReports(rs[..k]) && b[|b| - 24..] == EncodeReport(rs[k]);
    }
  }

  /** The item as it comes out again. */
  function Returned(item: Item): Option<Item> {
    match item
    case SR(_, _, _, _, rs) => Some(item.(reports := CutAll(Kept(rs))))
    case RR => Some(RR)
    case SDES(cname) => Some(SDES(cname[..|cname| % 256]))
    case BYE(reason) => if reason == [] then Some(item) else Some(BYE(reason[..|reason| % 256]))
  }

  lemma R4At(b: seq<Byte>, pre: seq<Byte>, x: U32, post: seq<Byte>)
    requires b == pre + B4(x) + post
    ensures |b| >= |pre| + 4 && R4(b[|pre|..]) == x
  {
    hide R4, B4;
    assert b[|pre|..] == B4(x) + post;
    R4B4(x, post);
  }

  lemma SenderWords(item: Item)
    requires item.SR?
    ensures var b := Body(item);
            |b| == 20 + 24 * |Kept(item.reports)| &&
            R4(b[0..]) == item.ntp / 0x1_0000_0000 && R4(b[4..]) == item.ntp % 0x1_0000_0000 &&
              R4(b[8..]) == item.rtp &&
            R4(b[12..]) == item.packets && R4(b[16..]) == item.octets && b[20..] == EncodeReports(Kept(item.reports))
  {
    hide B4, R4, EncodeReports, Kept;
    var b, rs := Body(item), EncodeReports(Kept(item.reports));
    var hi, lo := item.ntp / 0x1_0000_0000, item.ntp % 0x1_0000_0000;
    var p1, p2 := B4(hi), B4(hi) + B4(lo);
    var p3 := p2 + B4(item.rtp);
    var p4 := p3 + B4(item.packets);
    var t4 := B4(item.octets) + rs;
    var t3 := B4(item.packets) + t4;
    var t2 := B4(item.rtp) + t3;
    assert b == p4 + B4(item.octets) + rs;
    assert b == p3 + B4(item.packets) + t4;
    assert b == p2 + B4(item.rtp) + t3;
    assert b == p1 + B4(lo) + t2;
    assert b == [] + B4(hi) + (B4(lo) + t2);
    R4At(b, [], hi, B4(lo) + t2);
    R4At(b, p1, lo, t2);
    R4At(b, p2, item.rtp, t3);
    R4At(b, p3, item.packets, t4);
    R4At(b, p4, item.octets, rs);
    assert b[20..] == rs;
  }

  lemma SenderReadsBack(item: Item)
    requires item.SR?
    ensures ReadBody(200, Count(item), Body(item)) == Returned(item)
  {
    hide Body, R4, ReadReports, EncodeReports, CutAll, Kept;
    SenderWords(item);
    ReportsReadBack(Kept(item.reports));
    assert item.ntp == item.ntp / 0x1_0000_0000 * 0x1_0000_0000 + item.ntp % 0x1_0000_0000;
  }

  lemma TextReadsBack(item: Item)
    requires item.SDES? || item.BYE?
    ensures ReadBody(Kind(item), Count(item), Body(item)) == Returned(item)
  {
    hide Padding;
    var b := Body(item);
    match item
    case SDES(cname) => assert b[2..2 + |cname| % 256] == cname[..|cname| % 256];
    case BYE(reason) =>
      if reason != [] {
        assert b[1..1 + |reason| % 256] == reason[..|reason| % 256];
      }
  }

  lemma BodyReadsBack(ssrc: U32, item: Item)
    ensures Read(Frame(ssrc, item)) == Returned(item)
  {
    hide Body, Header, B4, Returned;
    assert Encode(ssrc, item)[8..] == Body(item);
    match item
    case SR(_, _, _, _, _) => SenderReadsBack(item);
    case RR => NothingInReceiverReport();
    case SDES(_) => TextReadsBack(item);
    case BYE(_) => TextReadsBack(item);
  }

  lemma NothingInReceiverReport()
    ensures Body(RR) == [] && Returned(RR) == Some(RR)
  {}

  lemma ReturnedIff(item: Item)
    ensures Returned(item) == Some(item) <==> Fits(item)
  {
    match item
    case SR(_, _, _, _, rs) =>
      if |rs| <= 31 {
        assert forall i :: 0 <= i < |rs| ==> (CutAll(rs)[i] == rs[i] <==> rs[i].totalLost < 0x100_0000);
        assert (CutAll(rs) == rs) <==> forall i :: 0 <= i < |rs| ==> CutAll(rs)[i] == rs[i];
        assert (forall r <- rs :: r.totalLost < 0x100_0000) <==> forall i :: 0 <= i < |rs| ==>
                 rs[i].totalLost < 0x100_0000;
      } else {
        assert |CutAll(Kept(rs))| == 31;
      }
    case RR =>
    case SDES(cname) =>
      assert if |cname| <= 255 then cname[..|cname|] == cname else |cname[..|cname| % 256]| != |cname|;
    case BYE(reason) =>
      assert if |reason| <= 255 then reason[..|reason|] == reason else |reason[..|reason| % 256]| != |reason|;
  }

  // ---- The whole way

  function ReadFrames(fs: seq<Parsed>): Option<seq<Item>> {
    if fs == [] then Some([])
    else
      match (Read(fs[0]), ReadFrames(fs[1..]))
      case (Some(item), Some(items)) => Some([item] + items)
      case _ => None
  }

  function ReadCompound(data: seq<Byte>): Option<seq<Item>> {
    match ParseAll(data) case None => None case Some(fs) => ReadFrames(fs)
  }

  /** A text read off a packet has at most 255 bytes, a report at most 24 bits of lost packets. */
  lemma {:induction false} ReadReportsFit(b: seq<Byte>)
    requires |b| % 24 == 0
    ensures |ReadReports(b)| == |b| / 24 && forall r <- ReadReports(b) :: r.totalLost < 0x100_0000
    decreases |b|
  {
    hide R4;
    if b == [] {
    } else {
      ReadReportsFit(b[..|b| - 24]);
    }
  }

  lemma ReadFits(f: Parsed)
    requires f.count < 32 && Read(f).Some?
    ensures Fits(Read(f).value)
  {
    hide R4, ReadReports;
    var b := f.data[8..];
    if f.kind == 200 {
      ReadReportsFit(b[20..]);
    }
  }

  ghost predicate AllFit(items: seq<Item>) {
    forall item <- items :: Fits(item)
  }

  lemma {:induction false} ReadFramesFit(fs: seq<Parsed>)
    requires (forall f <- fs :: f.count < 32) && ReadFrames(fs).Some?
    ensures AllFit(ReadFrames(fs).value)
  {
    hide Fits, Read;
    if fs == [] {
    } else {
      ReadFits(fs[0]);
      ReadFramesFit(fs[1..]);
    }
  }

  lemma {:induction false} ParsedCounts(data: seq<Byte>)
    requires ParseAll(data).Some?
    ensures forall f <- ParseAll(data).value :: f.count < 32
    decreases |data|
  {
    if data == [] {
    } else {
      ParsedCounts(data[|Parse(data).value.data|..]);
    }
  }

  lemma {:induction false} FittingFramesRead(ssrc: U32, items: seq<Item>)
    requires AllFit(items)
    ensures ReadFrames(Frames(ssrc, items)) == Some(items)
  {
    hide Fits, Read, Frame;
    if items == [] {
    } else {
      FittingFramesRead(ssrc, items[1..]);
      BodyReadsBack(ssrc, items[0]);
      ReturnedIff(items[0]);
      assert Frames(ssrc, items)[1..] == Frames(ssrc, items[1..]);
      assert [items[0]] + items[1..] == items;
    }
  }

  lemma FittingIsShort(ssrc: U32, item: Item)
    requires Fits(item)
    ensures |Encode(ssrc, item)| < 65536
  {
    hide EncodeReports;
  }

  /** What was added comes back from the built compound, in order and field by field, if and only if every
      item fits. */
  lemma RoundTripIff(ssrc: U32, items: seq<Item>)
    ensures ReadCompound(Build(ssrc, items)) == Some(items) <==> AllFit(items)
  {
    hide Build, Frames, ReadFrames, ParseAll, Encode, Fits;
    FramesReadBackIff(ssrc, items);
    if AllFit(items) {
      forall i | 0 <= i < |items| ensures |Encode(ssrc, items[i])| < 65536 {
        FittingIsShort(ssrc, items[i]);
      }
      FittingFramesRead(ssrc, items);
    } else if ReadCompound(Build(ssrc, items)).Some? {
      ParsedCounts(Build(ssrc, items));
      ReadFramesFit(ParseAll(Build(ssrc, items)).value);
    }
  }

  /** A 256-byte name does not come back: its length byte is zero. */
  lemma LongNameIsLost(ssrc: U32)
    ensures ReadCompound(Build(ssrc, [SDES(Zeros(256))])) != Some([SDES(Zeros(256))])
  {
    assert SDES(Zeros(256)) in [SDES(Zeros(256))] && !Fits(SDES(Zeros(256)));
    RoundTripIff(ssrc, [SDES(Zeros(256))]);
  }

  /** A packet of more than 65535 bytes is not read whole: its length in words overflows sixteen bits. */
  lemma HugePacketIsLost(ssrc: U32)
    ensures var items := [SDES(Zeros(65536))];
            |Encode(ssrc, items[0])| >= 65536 && ParseAll(Build(ssrc, items)) != Some(Frames(ssrc, items))
  {
    var items := [SDES(Zeros(65536))];
    assert |Encode(ssrc, items[0])| >= 65536;
    hide Encode, Build, ParseAll, Frames;
    FramesReadBackIff(ssrc, items);
  }
}

/** The compound builder, filling byte arrays as the source does. */
module RtcpBuilders {
  import opened RtcpFraming

  /** Writes a 32-bit word after the bytes already written. */
  method Put32(a: array<Byte>, at: nat, x: U32)
    requires at + 4 <= a.Length
    modifies a
    ensures a[..at + 4] == old(a[..at]) + B4(x) && forall i :: at + 4 <= i < a.Length ==> a[i] == old(a[i])
  {
    a[at], a[at + 1], a[at + 2], a[at + 3] := x / 0x100_0000, x / 0x1_0000 % 256, x / 256 % 256, x % 256;
  }

  method Put16(a: array<Byte>, at: nat, n: nat)
    requires at + 2 <= a.Length
    modifies a
    ensures a[..at + 2] == old(a[..at]) + B2(n) && forall i :: at + 2 <= i < a.Length ==> a[i] == old(a[i])
  {
    a[at], a[at + 1] := n / 256 % 256, n % 256;
  }

  method Copy(a: array<Byte>, at: nat, text: seq<Byte>)
    requires at + |text| <= a.Length
    modifies a
    ensures a[..at + |text|] == old(a[..at]) + text
    ensures forall i :: at + |text| <= i < a.Length ==> a[i] == old(a[i])
  {
    var i := 0;
    while i < |text|
      invariant 0 <= i <= |text|
      invariant forall k :: 0 <= k < at ==> a[k] == old(a[k])
      invariant forall k :: 0 <= k < i ==> a[at + k] == text[k]
      invariant forall k :: at + i <= k < a.Length ==> a[k] == old(a[k])
    {
      a[at + i] := text[i];
      i := i + 1;
    }
    assert a[at..at + |text|] == text;
    assert a[..at + |text|] == a[..at] + a[at..at + |text|];
  }

  /** What has been written, then zeros. */
  lemma RestIsZero(bytes: seq<Byte>, k: nat)
    requires k <= |bytes| && forall i :: k <= i < |bytes| ==> bytes[i] == 0
    ensures bytes == bytes[..k] + Zeros(|bytes| - k)
  {}

  class CompoundBuilder {
    const ssrc: U32
    var packets: seq<seq<Byte>>
    ghost var items: seq<Item>

    constructor (ssrc: U32)
      ensures this.ssrc == ssrc && packets == [] && items == [] && Valid()
    {
      this.ssrc := ssrc;
      packets, items := [], [];
    }

    /** The packets are those of the items added so far. */
    ghost predicate Valid()
      reads this
    {
      |packets| == |items| && forall i :: 0 <= i < |items| ==> packets[i] == Encode(ssrc, items[i])
    }

    /** A zeroed packet with its header and sender written. */
    method Start(size: nat, count: nat, kind: Byte, length: nat) returns (a: array<Byte>)
      requires size >= 8 && count < 32
      ensures fresh(a) && a.Length == size
      ensures a[..8] == Header(count, kind, length) + B4(ssrc) && forall i :: 8 <= i < size ==> a[i] == 0
    {
      a := new Byte[size](_ => 0);
      a[0], a[1] := 128 + count, kind;
      assert a[..2] == [128 + count, kind];
      Put16(a, 2, length);
      Put32(a, 4, ssrc);
    }

    method AddSR(ntp: U64, rtp: U32, packetCount: U32, octetCount: U32)
      requires Valid()
      modifies this
      ensures Valid() && items == old(items) + [SR(ntp, rtp, packetCount, octetCount, [])]
    {
      hide Header;
      ghost var item := SR(ntp, rtp, packetCount, octetCount, []);
      assert |Body(item)| == 20;
      var sr := Start(28, 0, 200, 6);
      PutSender(sr, ntp, rtp, packetCount, octetCount);
      assert sr[..] == sr[..28] == Encode(ssrc, item);
      packets, items := packets + [sr[..]], items + [item];
    }

    method PutSender(sr: array<Byte>, ntp: U64, rtp: U32, packetCount: U32, octetCount: U32)
      requires sr.Length >= 28
      modifies sr
      ensures sr[..28] == old(sr[..8]) + B4(ntp / 0x1_0000_0000) + B4(ntp % 0x1_0000_0000) + B4(rtp) +
              B4(packetCount) + B4(octetCount)
    {
      hide B4;
      Put32(sr, 8, ntp / 0x1_0000_0000);
      Put32(sr, 12, ntp % 0x1_0000_0000);
      Put32(sr, 16, rtp);
      Put32(sr, 20, packetCount);
      Put32(sr, 24, octetCount);
    }

    method AddRR()
      requires Valid()
      modifies this
      ensures Valid() && items == old(items) + [RR]
    {
      var rr := Start(8, 0, 201, 1);
      assert rr[..] == rr[..8] == Encode(ssrc, RR);
      packets, items := packets + [rr[..]], items + [RR];
    }

    method SdesPacket(cname: seq<Byte>) returns (sdes: array<Byte>)
      ensures fresh(sdes) && sdes[..] == Encode(ssrc, SDES(cname))
    {
      hide Header, B4, Encode, Zeros;
      var chunkLen := 4 + 2 + |cname| + 1;
      var padding := (4 - chunkLen % 4) % 4;
      var totalLen := chunkLen + padding;
      assert padding == Padding(7 + |cname|);
      hide Padding;
      sdes := Start(4 + totalLen, 1, 202, totalLen / 4);
      ghost var head := sdes[..8];
      sdes[8] := 1;
      sdes[9] := |cname| % 256;
      assert sdes[..10] == head + [1, |cname| % 256];
      Copy(sdes, 10, cname);
      RestIsZero(sdes[..], 10 + |cname|);
      SdesBytes(ssrc, cname, sdes[..]);
    }

    method AddSDES(cname: seq<Byte>)
      requires Valid()
      modifies this
      ensures Valid() && items == old(items) + [SDES(cname)]
    {
      var sdes := SdesPacket(cname);
      packets, items := packets + [sdes[..]], items + [SDES(cname)];
    }

    method ByePacket(reason: seq<Byte>) returns (bye: array<Byte>)
      ensures fresh(bye) && bye[..] == Encode(ssrc, BYE(reason))
    {
      hide Header, B4, Encode, Zeros, Body;
      if |reason| == 0 {
        bye := Start(8, 1, 203, 1);
        assert bye[..] == bye[..8];
        ByeWithoutReason(ssrc, bye[..]);
        return;
      }
      var padding := (4 - (1 + |reason|) % 4) % 4;
      assert padding == Padding(1 + |reason|);
      hide Padding;
      var totalLen := 8 + 1 + |reason| + padding;
      bye := Start(totalLen, 1, 203, (totalLen - 4) / 4);
      ghost var head := bye[..8];
      bye[8] := |reason| % 256;
      assert bye[..9] == head + [|reason| % 256];
      Copy(bye, 9, reason);
      RestIsZero(bye[..], 9 + |reason|);
      ByeWithReason(ssrc, reason, bye[..]);
    }

    method AddBYE(reason: seq<Byte>)
      requires Valid()
      modifies this
      ensures Valid() && items == old(items) + [BYE(reason)]
    {
      var bye := ByePacket(reason);
      packets, items := packets + [bye[..]], items + [BYE(reason)];
    }

    method PutReport(sr: array<Byte>, offset: nat, r: Report)
      requires offset + 24 <= sr.Length
      modifies sr
      ensures sr[..offset + 24] == old(sr[..offset]) + EncodeReport(r)
    {
      hide B4;
      Put32(sr, offset, r.ssrc);
      var lost := [r.fractionLost, r.totalLost / 0x1_0000 % 256, r.totalLost / 256 % 256, r.totalLost % 256];
      Copy(sr, offset + 4, lost);
      Put32(sr, offset + 8, r.highestSeq);
      Put32(sr, offset + 12, r.jitter);
      Put32(sr, offset + 16, r.lastSR);
      Put32(sr, offset + 20, r.delay);
    }

    /** The sender report with at most 31 report blocks. */
    method SenderPacket(ntp: U64, rtp: U32, packetCount: U32, octetCount: U32,
                        reports: seq<Report>) returns (sr: array<Byte>)
      ensures fresh(sr) && sr[..] == Encode(ssrc, SR(ntp, rtp, packetCount, octetCount, reports))
    {
      hide Header, B4, EncodeReport, Encode;
      var n := |reports|;
      if n > 31 {
        n := 31;
      }
      assert Kept(reports) == reports[..n];
      assert EncodeReports(reports[..0]) == [];
      hide Kept, EncodeReports;
      var srLen := 28 + 24 * n;
      assert srLen / 4 - 1 == 6 + 6 * n;
      sr := Start(srLen, n, 200, srLen / 4 - 1);
      PutSender(sr, ntp, rtp, packetCount, octetCount);
      ghost var head := sr[..28];
      var offset, i := 28, 0;
      while i < n
        invariant 0 <= i <= n && offset == 28 + 24 * i
        invariant sr[..offset] == head + EncodeReports(reports[..i])
      {
        PutReport(sr, offset, reports[i]);
        ReportsSnoc(reports, i);
        offset := offset + 24;
        i := i + 1;
      }
      assert sr[..] == sr[..offset];
      SenderBytes(ssrc, SR(ntp, rtp, packetCount, octetCount, reports), sr[..], head);
    }

    method AddSRWithReportBlock(ntp: U64, rtp: U32, packetCount: U32, octetCount: U32, reports: seq<Report>)
      requires Valid()
      modifies this
      ensures Valid() && items == old(items) + [SR(ntp, rtp, packetCount, octetCount, reports)]
    {
      var sr := SenderPacket(ntp, rtp, packetCount, octetCount, reports);
      packets, items := packets + [sr[..]], items + [SR(ntp, rtp, packetCount, octetCount, reports)];
    }

    /** The first loop of Build: the total length. */
    method Size() returns (total: nat)
      requires Valid()
      ensures total == |RtcpFraming.Build(ssrc, items)|
    {
      hide RtcpFraming.Build, Encode;
      BuildNothing(ssrc, items);
      total := 0;
      var i := 0;
      while i < |packets|
        invariant 0 <= i <= |packets|
        invariant total == |RtcpFraming.Build(ssrc, items[..i])|
      {
        BuildSnoc(ssrc, items, i);
        total := total + |packets[i]|;
        i := i + 1;
      }
      assert items[..i] == items;
    }

    method Build() returns (compound: array<Byte>)
      requires Valid()
      ensures fresh(compound) && compound[..] == RtcpFraming.Build(ssrc, items)
    {
      hide RtcpFraming.Build, Encode;
      BuildNothing(ssrc, items);
      var total := Size();
      compound := new Byte[total](_ => 0);
      var offset, j := 0, 0;
      while j < |packets|
        invariant 0 <= j <= |packets| && 0 <= offset <= total
        invariant compound[..offset] == RtcpFraming.Build(ssrc, items[..j])
      {
        BuildSnoc(ssrc, items, j);
        BuildGrows(ssrc, items, j + 1);
        Copy(compound, offset, packets[j]);
        offset := offset + |packets[j]|;
        j := j + 1;
      }
      assert items[..j] == items;
      assert compound[..offset] == compound[..];
    }

    method Clear()
      modifies this
      ensures Valid() && items == [] && packets == []
    {
      packets, items := [], [];
    }
  }

  lemma ReportsSnoc(reports: seq<Report>, i: nat)
    requires i < |reports|
    ensures EncodeReports(reports[..i + 1]) == EncodeReports(reports[..i]) + EncodeReport(reports[i])
  {
    hide EncodeReport;
    assert reports[..i + 1][..i] == reports[..i];
  }

  lemma SdesBytes(ssrc: U32, cname: seq<Byte>, bytes: seq<Byte>)
    requires bytes == Header(1, 202, (7 + |cname| + Padding(7 + |cname|)) / 4) + B4(ssrc) + [1, |cname| % 256] + cname +
                      Zeros(1 + Padding(7 + |cname|))
    ensures bytes == Encode(ssrc, SDES(cname))
  {
    hide Header, B4, Zeros;
    Aligned(ssrc, SDES(cname));
  }

  lemma ByeWithoutReason(ssrc: U32, bytes: seq<Byte>)
    requires bytes == Header(1, 203, 1) + B4(ssrc)
    ensures bytes == Encode(ssrc, BYE([]))
  {}

  lemma ByeWithReason(ssrc: U32, reason: seq<Byte>, bytes: seq<Byte>)
    requires reason != []
    requires bytes == Header(1, 203, (5 + |reason| + Padding(1 + |reason|)) / 4) + B4(ssrc) + [|reason| % 256] +
             reason +
                      Zeros(Padding(1 + |reason|))
    ensures bytes == Encode(ssrc, BYE(reason))
  {
    hide Header, B4, Zeros;
    Aligned(ssrc, BYE(reason));
  }

  lemma SenderBytes(ssrc: U32, item: Item, bytes: seq<Byte>, head: seq<Byte>)
    requires item.SR? && bytes == head + EncodeReports(Kept(item.reports))
    requires head == Header(|Kept(item.reports)|, 200, 6 + 6 * |Kept(item.reports)|) + B4(ssrc) +
             B4(item.ntp / 0x1_0000_0000) +
                     B4(item.ntp % 0x1_0000_0000) + B4(item.rtp) + B4(item.packets) + B4(item.octets)
    ensures bytes == Encode(ssrc, item)
  {
    hide Header, B4, EncodeReports, Kept;
    assert |Body(item)| == 20 + 24 * |Kept(item.reports)|;
  }

  lemma BuildNothing(ssrc: U32, items: seq<Item>)
    ensures RtcpFraming.Build(ssrc, items[..0]) == []
  {}

  lemma {:induction false} BuildConcat(ssrc: U32, a: seq<Item>, b: seq<Item>)
    ensures RtcpFraming.Build(ssrc, a + b) == RtcpFraming.Build(ssrc, a) + RtcpFraming.Build(ssrc, b)
  {
    hide Encode;
    if a == [] {
      assert a + b == b;
    } else {
      assert (a + b)[1..] == a[1..] + b;
      BuildConcat(ssrc, a[1..], b);
    }
  }

  lemma BuildSnoc(ssrc: U32, items: seq<Item>, i: nat)
    requires i < |items|
    ensures RtcpFraming.Build(ssrc, items[..i + 1]) == RtcpFraming.Build(ssrc, items[..i]) + Encode(ssrc, items[i])
  {
    hide Encode;
    assert items[..i + 1] == items[..i] + [items[i]];
    BuildConcat(ssrc, items[..i], [items[i]]);
    assert RtcpFraming.Build(ssrc, [items[i]]) == Encode(ssrc, items[i]) + RtcpFraming.Build(ssrc, [items[i]][1..]);
  }

  lemma BuildGrows(ssrc: U32, items: seq<Item>, i: nat)
    requires i <= |items|
    ensures |RtcpFraming.Build(ssrc, items[..i])| <= |RtcpFraming.Build(ssrc, items)|
  {
    assert items == items[..i] + items[i..];
    BuildConcat(ssrc, items[..i], items[i..]);
  }
}
