/** The wire form of an FEC packet. */
module FecWire {
  import opened Basics
  import opened SequenceNumbers
  import opened Words
  import opened FecCodec

  const FIXED := 13  // bytes besides the protected numbers and the payload

  function Put16(n: Seq16): (b: seq<bv8>)
    ensures |b| == 2
  {
    [ByteOf(n / 256), ByteOf(n % 256)]
  }

  function Get16(data: seq<bv8>, at: nat): Seq16
    requires at + 2 <= |data|
  {
    IntOf(data[at]) * 256 + IntOf(data[at + 1])
  }

  function Put32(x: bv32): (b: seq<bv8>)
    ensures |b| == 4
  {
    [(x >> 24) as bv8, ((x >> 16) & 0xFF) as bv8, ((x >> 8) & 0xFF) as bv8, (x & 0xFF) as bv8]
  }

  function Get32(data: seq<bv8>, at: nat): bv32
    requires at + 4 <= |data|
  {
    (data[at] as bv32 << 24) | (data[at + 1] as bv32 << 16) | (data[at + 2] as bv32 << 8) | (data[at + 3] as bv32)
  }

  function PutAll(ns: seq<Seq16>): (b: seq<bv8>)
    ensures |b| == 2 * |ns|
  {
    if ns == [] then [] else PutAll(ns[..|ns| - 1]) + Put16(ns[|ns| - 1])
  }

  function Head(f: FecPacket): (b: seq<bv8>)
    ensures |b| == 4 + 2 * |f.protectedSeq|
  {
    Put16(f.sequenceBase) + Put16(|f.protectedSeq| % MODULUS) + PutAll(f.protectedSeq)
  }

  function Tail(s: Sums): (b: seq<bv8>)
    ensures |b| == 9
  {
    [High(s.length), Low(s.length)] + Put32(s.timestamp) + [s.ptMarker] + Put16(|s.payload| % MODULUS)
  }

  function Serialize(f: FecPacket): (b: seq<bv8>)
    ensures |b| == FIXED + 2 * |f.protectedSeq| + |f.sums.payload|
  {
    Head(f) + Tail(f.sums) + f.sums.payload
  }

  /** None is ErrInvalidPacket. */
  function Deserialize(data: seq<bv8>): Option<FecPacket> {
    if |data| < 11 then None
    else
      var n := Get16(data, 2);
      var at := 4 + n * 2;
      if |data| < at + 9 then None
      else
        var payloadLen := Get16(data, at + 7);
        if |data| < at + 9 + payloadLen then None
        else
          Some(FecPacket(Get16(data, 0), seq(n, i requires 0 <= i < n => Get16(data, 4 + 2 * i)),
                         Sums(data[at + 9..at + 9 + payloadLen], Join16(data[at], data[at + 1]),
                              Get32(data, at + 2), data[at + 6])))
  }

  // ---- Round trips

  lemma Get16Put16(n: Seq16)
    ensures Get16(Put16(n), 0) == n
  {
    hide ByteOf, IntOf;
    ByteRoundTrip(n / 256);
    ByteRoundTrip(n % 256);
  }

  lemma Put16Get16(data: seq<bv8>, at: nat)
    requires at + 2 <= |data|
    ensures Put16(Get16(data, at)) == data[at..at + 2]
  {
    hide ByteOf, IntOf;
    IntRoundTrip(data[at]);
    IntRoundTrip(data[at + 1]);
  }

  lemma Put32Get32(x: bv32, data: seq<bv8>, at: nat)
    requires at + 4 <= |data|
    ensures Get32(Put32(x), 0) == x
    ensures Put32(Get32(data, at)) == data[at..at + 4]
  {
    assert data[at..at + 4] == [data[at], data[at + 1], data[at + 2], data[at + 3]];
  }

  lemma {:induction false} PutAllAt(ns: seq<Seq16>, i: nat)
    requires i < |ns|
    ensures PutAll(ns)[2 * i..2 * i + 2] == Put16(ns[i])
  {
    hide Put16;
    var n := |ns| - 1;
    if i < n {
      PutAllAt(ns[..n], i);
      assert PutAll(ns)[2 * i..2 * i + 2] == PutAll(ns[..n])[2 * i..2 * i + 2];
    }
  }

  lemma Get16In(data: seq<bv8>, at: nat, n: Seq16)
    requires at + 2 <= |data| && data[at..at + 2] == Put16(n)
    ensures Get16(data, at) == n
  {
    hide ByteOf, IntOf;
    assert data[at] == data[at..at + 2][0] && data[at + 1] == data[at..at + 2][1];
    Get16Put16(n);
  }

  /** Where each field of the serialized packet lies. */
  lemma Layout(f: FecPacket, extra: seq<bv8>)
    ensures var data := Serialize(f) + extra;
            var at := 4 + 2 * |f.protectedSeq|;
            && data[0..2] == Put16(f.sequenceBase)
            && data[2..4] == Put16(|f.protectedSeq| % MODULUS)
            && data[4..at] == PutAll(f.protectedSeq)
            && data[at] == High(f.sums.length) && data[at + 1] == Low(f.sums.length)
            && data[at + 2..at + 6] == Put32(f.sums.timestamp)
            && data[at + 6] == f.sums.ptMarker
            && data[at + 7..at + 9] == Put16(|f.sums.payload| % MODULUS)
            && data[at + 9..at + 9 + |f.sums.payload|] == f.sums.payload
  {
    hide Put16, Put32, PutAll, High, Low;
    var data := Serialize(f) + extra;
    var at := 4 + 2 * |f.protectedSeq|;
    assert data[..at] == Head(f);
    assert Head(f)[0..2] == Put16(f.sequenceBase) && Head(f)[2..4] == Put16(|f.protectedSeq| % MODULUS);
    assert Head(f)[4..] == PutAll(f.protectedSeq);
    assert data[at..at + 9] == Tail(f.sums);
    assert Tail(f.sums)[2..6] == Put32(f.sums.timestamp) && Tail(f.sums)[7..9] == Put16(|f.sums.payload| % MODULUS);
    assert data[at + 2..at + 6] == data[at..at + 9][2..6] && data[at + 7..at + 9] == data[at..at + 9][7..9];
    var tail := data[at..at + 9];
    assert data[at] == tail[0] && data[at + 1] == tail[1] && data[at + 6] == tail[6];
  }

  /** Deserializing what was serialized gives the packet back, whatever follows it, exactly when the
      two counts fit their 16-bit fields. */
  lemma DeserializeSerialize(f: FecPacket, extra: seq<bv8>)
    ensures Deserialize(Serialize(f) + extra) == Some(f) <==> |f.protectedSeq| < 65536 && |f.sums.payload| < 65536
  {
    if |f.protectedSeq| < 65536 && |f.sums.payload| < 65536 {
      ReadsBack(f, extra);
    }
  }

  lemma ReadsBack(f: FecPacket, extra: seq<bv8>)
    requires |f.protectedSeq| < 65536 && |f.sums.payload| < 65536
    ensures Deserialize(Serialize(f) + extra) == Some(f)
  {
    hide Put16, Get16, Put32, Get32, PutAll, Serialize, High, Low, Join16;
    var data := Serialize(f) + extra;
    var n := |f.protectedSeq|;
    var at := 4 + 2 * n;
    Layout(f, extra);
    Get16In(data, 0, f.sequenceBase);
    Get16In(data, 2, n);
    Get16In(data, at + 7, |f.sums.payload|);
    Join16RoundTrip(0, 0, f.sums.length);
    assert Get32(data, at + 2) == f.sums.timestamp by {
      Put32Get32(f.sums.timestamp, data, at + 2);
      Get32In(data, at + 2, f.sums.timestamp);
    }
    forall i | 0 <= i < n ensures Get16(data, 4 + 2 * i) == f.protectedSeq[i] {
      PutAllAt(f.protectedSeq, i);
      SliceOfSlice(data, 4, at, 2 * i, 2 * i + 2);
      Get16In(data, 4 + 2 * i, f.protectedSeq[i]);
    }
    assert seq(n, i requires 0 <= i < n => Get16(data, 4 + 2 * i)) == f.protectedSeq;
  }

  lemma SliceOfSlice(data: seq<bv8>, a: nat, b: nat, i: nat, j: nat)
    requires a <= b <= |data| && i <= j <= b - a
    ensures data[a..b][i..j] == data[a + i..a + j]
  {
    var s, t := data[a..b][i..j], data[a + i..a + j];
    forall k | 0 <= k < j - i ensures s[k] == t[k] {
      assert s[k] == data[a..b][i + k] == data[a + i + k];
    }
  }

  lemma Get32In(data: seq<bv8>, at: nat, x: bv32)
    requires at + 4 <= |data| && data[at..at + 4] == Put32(x)
    ensures Get32(data, at) == x
  {
    var s := data[at..at + 4];
    assert data[at] == s[0] && data[at + 1] == s[1] && data[at + 2] == s[2] && data[at + 3] == s[3];
    Put32Get32(x, s, 0);
  }

  lemma {:induction false} PutAllSlices(data: seq<bv8>, n: nat)
    requires 4 + 2 * n <= |data|
    ensures PutAll(seq(n, i requires 0 <= i < n => Get16(data, 4 + 2 * i))) == data[4..4 + 2 * n]
  {
    hide Put16, Get16;
    if n > 0 {
      PutAllSlices(data, n - 1);
      var ns := seq(n, i requires 0 <= i < n => Get16(data, 4 + 2 * i));
      assert ns[..n - 1] == seq(n - 1, i requires 0 <= i < n - 1 => Get16(data, 4 + 2 * i));
      Put16Get16(data, 4 + 2 * (n - 1));
      assert data[4..4 + 2 * n] == data[4..4 + 2 * (n - 1)] + data[4 + 2 * (n - 1)..4 + 2 * n];
    }
  }

  /** Every accepted input starts with the serialization of the packet read from it, and its header
      lengths delimit exactly that prefix. */
  lemma SerializeDeserialize(data: seq<bv8>)
    requires Deserialize(data).Some?
    ensures var f := Deserialize(data).value;
            && |f.protectedSeq| == Get16(data, 2)
            && |f.sums.payload| == Get16(data, 4 + 2 * |f.protectedSeq| + 7)
            && |Serialize(f)| <= |data| && Serialize(f) == data[..|Serialize(f)|]
  {
    hide Put16, Get16, Put32, Get32, PutAll, High, Low, Join16;
    var f := Deserialize(data).value;
    var at := 4 + 2 * |f.protectedSeq|;
    Put16Get16(data, 0);
    Put16Get16(data, 2);
    Put16Get16(data, at + 7);
    PutAllSlices(data, |f.protectedSeq|);
    Put32Get32(0, data, at + 2);
    Join16RoundTrip(data[at], data[at + 1], 0);
    assert Head(f) == data[..at] by {
      assert data[..at] == data[0..2] + data[2..4] + data[4..at];
    }
    assert Tail(f.sums) == data[at..at + 9] by {
      assert data[at..at + 9] == [data[at], data[at + 1]] + data[at + 2..at + 6] + [data[at + 6]] +
             data[at + 7..at + 9];
    }
    assert data[..|Serialize(f)|] == data[..at] + data[at..at + 9] + data[at + 9..|Serialize(f)|];
  }

  // ---- The buffer code

  /** binary.BigEndian.PutUint16 at an offset. */
  method Write(buf: array<bv8>, offset: nat, bytes: seq<bv8>)
    requires offset + |bytes| <= buf.Length
    modifies buf
    ensures buf[..offset + |bytes|] == old(buf[..offset]) + bytes
  {
    var i := 0;
    while i < |bytes|
      invariant 0 <= i <= |bytes|
      invariant buf[..offset + i] == old(buf[..offset]) + bytes[..i]
    {
      buf[offset + i] := bytes[i];
      assert buf[..offset + i + 1] == buf[..offset + i] + [bytes[i]];
      i := i + 1;
    }
  }

  method SerializeFECPacket(f: FecPacket) returns (buf: array<bv8>)
    ensures fresh(buf) && buf[..] == Serialize(f)
  {
    hide Put16, Put32, High, Low;
    var n := |f.protectedSeq|;
    buf := new bv8[FIXED + 2 * n + |f.sums.payload|];
    Write(buf, 0, Put16(f.sequenceBase));
    Write(buf, 2, Put16(n % MODULUS));
    var offset := 4;
    var i := 0;
    assert buf[..4] == Put16(f.sequenceBase) + Put16(n % MODULUS) + PutAll(f.protectedSeq[..0]);
    while i < n
      invariant 0 <= i <= n && offset == 4 + 2 * i
      invariant buf[..offset] == Put16(f.sequenceBase) + Put16(n % MODULUS) + PutAll(f.protectedSeq[..i])
    {
      Write(buf, offset, Put16(f.protectedSeq[i]));
      assert f.protectedSeq[..i + 1][..i] == f.protectedSeq[..i];
      offset := offset + 2;
      i := i + 1;
    }
    assert f.protectedSeq[..n] == f.protectedSeq;
    WriteTail(buf, offset, f);
  }

  method WriteTail(buf: array<bv8>, offset: nat, f: FecPacket)
    requires offset + 9 + |f.sums.payload| == buf.Length && buf[..offset] == Head(f)
    modifies buf
    ensures buf[..] == Serialize(f)
  {
    hide Put16, Put32, High, Low, Head;
    Write(buf, offset, [High(f.sums.length), Low(f.sums.length)]);
    Write(buf, offset + 2, Put32(f.sums.timestamp));
    Write(buf, offset + 6, [f.sums.ptMarker]);
    Write(buf, offset + 7, Put16(|f.sums.payload| % MODULUS));
    assert buf[..offset + 9] == Head(f) + Tail(f.sums);
    Write(buf, offset + 9, f.sums.payload);
    assert buf[..] == buf[..offset + 9 + |f.sums.payload|];
  }

  method DeserializeFECPacket(data: seq<bv8>) returns (r: Option<FecPacket>)
    ensures r == Deserialize(data)
  {
    hide Get16, Get32, Join16;
    if |data| < 11 {
      return None;
    }
    var base := Get16(data, 0);
    var n: int := Get16(data, 2);
    if |data| < 4 + n * 2 + 9 {
      return None;
    }
    var numbers: seq<Seq16> := [];
    var offset: int := 4;
    while |numbers| < n
      invariant |numbers| <= n && offset == 4 + 2 * |numbers|
      invariant forall i :: 0 <= i < |numbers| ==> numbers[i] == Get16(data, 4 + 2 * i)
    {
      numbers := numbers + [Get16(data, offset)];
      offset := offset + 2;
    }
    var length := Join16(data[offset], data[offset + 1]);
    var timestamp := Get32(data, offset + 2);
    var ptMarker := data[offset + 6];
    var payloadLen: int := Get16(data, offset + 7);
    assert numbers == seq(n, i requires 0 <= i < n => Get16(data, 4 + 2 * i));
    offset := offset + 9;
    if |data| < offset + payloadLen {
      return None;
    }
    return Some(FecPacket(base, numbers, Sums(data[offset..offset + payloadLen], length, timestamp, ptMarker)));
  }
}
