/** The FEC handler object: encoder block, pending decoding blocks and received packets, in place. */
module FecHandlers {
  import opened Basics
  import opened SequenceNumbers
  import opened Words
  import opened FecCodec
  import opened FecDecoder
  import Enc = FecEncoder

  /** XORs a payload into the front of a buffer. */
  method XorInto(buf: array<bv8>, payload: seq<bv8>)
    modifies buf
    ensures buf[..] == XorPrefix(old(buf[..]), payload)
  {
    var j := 0;
    while j < |payload| && j < buf.Length
      invariant 0 <= j <= |payload| && j <= buf.Length
      invariant forall k :: 0 <= k < buf.Length ==>
                  buf[k] == if k < j then old(buf[k]) ^ payload[k] else old(buf[k])
    {
      buf[j] := buf[j] ^ payload[j];
      j := j + 1;
    }
  }

  /** The accumulators of an XOR computation. */
  class Accumulator {
    const payload: array<bv8>
    var length: bv16
    var timestamp: bv32
    var ptMarker: bv8

    constructor (s: Sums)
      ensures fresh(payload) && Value() == s
    {
      payload := new bv8[|s.payload|](i requires 0 <= i < |s.payload| => s.payload[i]);
      length, timestamp, ptMarker := s.length, s.timestamp, s.ptMarker;
    }

    ghost function Value(): Sums
      reads this, payload
    {
      Sums(payload[..], length, timestamp, ptMarker)
    }

    method Add(p: RtpPacket)
      modifies this, payload
      ensures Value() == Absorb(old(Value()), p)
    {
      hide Word, XorPrefix, PtMarker;
      length := length ^ Word(|p.payload|);
      timestamp := timestamp ^ p.timestamp;
      ptMarker := ptMarker ^ PtMarker(p);
      XorInto(payload, p.payload);
    }
  }

  class FecHandler {
    var enabled: bool
    var blockSize: int
    var encodingBlock: seq<RtpPacket>
    var encodingBlockSeq: Seq16
    var fecSeqNum: Seq16
    var decodingBlocks: map<Seq16, Block>
    var receivedPackets: map<Seq16, RtpPacket>

    constructor (enabled: bool, blockSize: int)
      ensures Encoding() == Enc.Encoder(enabled, blockSize, [], 0) && Decoding() == Decoder(map[], map[])
    {
      this.enabled, this.blockSize := enabled, blockSize;
      encodingBlock, encodingBlockSeq, fecSeqNum := [], 0, 0;
      decodingBlocks, receivedPackets := map[], map[];
    }

    ghost function Encoding(): Enc.Encoder
      reads this
    {
      Enc.Encoder(enabled, blockSize, encodingBlock, encodingBlockSeq)
    }

    ghost function Decoding(): Decoder
      reads this
    {
      Decoder(decodingBlocks, receivedPackets)
    }

    method AddMediaPacket(p: RtpPacket) returns (fec: Option<FecPacket>)
      modifies this`encodingBlock, this`encodingBlockSeq, this`fecSeqNum
      ensures (Encoding(), fec) == Enc.Add(old(Encoding()), p)
    {
      if !enabled {
        return None;
      }
      if |encodingBlock| == 0 {
        encodingBlockSeq := p.seqNum;
      }
      encodingBlock := encodingBlock + [p];
      if |encodingBlock| >= blockSize {
        fec := GenerateFECPacket();
        encodingBlock := [];
        return;
      }
      return None;
    }

    method GenerateFECPacket() returns (fec: Option<FecPacket>)
      modifies this`fecSeqNum
      ensures fec == if encodingBlock == [] then None else Some(Enc.Generate(Encoding()))
    {
      hide Absorb;
      if |encodingBlock| == 0 {
        return None;
      }
      var maxLen := 0;
      var i := 0;
      while i < |encodingBlock|
        invariant 0 <= i <= |encodingBlock|
        invariant maxLen == MaxLength(encodingBlock[..i])
      {
        assert encodingBlock[..i + 1][..i] == encodingBlock[..i];
        if |encodingBlock[i].payload| > maxLen {
          maxLen := |encodingBlock[i].payload|;
        }
        i := i + 1;
      }
      assert encodingBlock[..|encodingBlock|] == encodingBlock;
      var acc := new Accumulator(Zero(maxLen));
      var numbers: seq<Seq16> := [];
      i := 0;
      while i < |encodingBlock|
        invariant 0 <= i <= |encodingBlock| && encodingBlock == old(encodingBlock)
        invariant numbers == Numbers(encodingBlock[..i]) && fresh(acc) && fresh(acc.payload)
        invariant acc.Value() == AbsorbAll(Zero(maxLen), encodingBlock[..i])
      {
        assert encodingBlock[..i + 1][..i] == encodingBlock[..i];
        acc.Add(encodingBlock[i]);
        numbers := numbers + [encodingBlock[i].seqNum];
        i := i + 1;
      }
      assert encodingBlock[..|encodingBlock|] == encodingBlock;
      fecSeqNum := Next(fecSeqNum);
      fec := Some(FecPacket(encodingBlockSeq, numbers,
                            Sums(acc.payload[..], acc.length, acc.timestamp, acc.ptMarker)));
    }

    method SetBlockSize(n: int)
      modifies this`blockSize
      ensures blockSize == Enc.Clamp(n)
    {
      blockSize := n;
      if n < 2 {
        blockSize := 2;
      }
      if n > 100 {
        blockSize := 100;
      }
    }

    /** XORs every received packet of the block but m out of its FEC sums, in map iteration order. */
    method Cancel(block: Block, m: Seq16) returns (acc: Accumulator)
      requires |block.missing| == 1 && block.missing[0] == m
      ensures fresh(acc) && fresh(acc.payload) && FromSums(m, acc.Value()) == Rebuild(block)
    {
      hide Absorb, AbsorbAll, Picked, Visits, Rebuild, FromSums;
      NothingVisited(block);
      acc := new Accumulator(block.fec.sums);
      var rest := block.received.Keys;
      ghost var visited: seq<Seq16> := [];
      assert block.received.Keys - rest - {m} == {};
      while rest != {}
        invariant rest <= block.received.Keys && fresh(acc) && fresh(acc.payload)
        invariant Visits(visited, block.received.Keys - rest - {m})
        invariant forall s <- visited :: s in block.received
        invariant acc.Value() == AbsorbAll(block.fec.sums, Picked(block.received, visited))
        decreases |rest|
      {
        var s :| s in rest;
        if s != m {
          AbsorbOneMore(block, visited, block.received.Keys - rest, m, s);
          visited := visited + [s];
          acc.Add(block.received[s]);
        }
        SeenMore(block.received.Keys, rest, s, m);
        rest := rest - {s};
      }
      assert block.received.Keys - {} == block.received.Keys;
      RebuildAnyOrder(block, visited);
    }

    /** Recovery of the one missing packet; `panicked` is the out-of-range slice. */
    method TryRecoverPackets(block: Block) returns (block': Block, out: seq<RtpPacket>, panicked: bool)
      modifies this`receivedPackets
      ensures panicked <==> TryRecover(old(receivedPackets), block) == None
      ensures !panicked ==> TryRecover(old(receivedPackets), block) == Some((receivedPackets, block', out))
    {
      hide Rebuild, FromSums;
      block', out, panicked := block, [], false;
      if |block.missing| != 1 {
        return;
      }
      var m := block.missing[0];
      var acc := Cancel(block, m);
      var recovered := Finish(m, acc);
      if recovered.None? {
        return block, [], true;
      }
      receivedPackets := receivedPackets[m := recovered.value];
      block' := Block(block.fec, block.received[m := recovered.value], [], true);
      out := [recovered.value];
    }

    /** Reads the recovered packet out of the accumulators. */
    method Finish(m: Seq16, acc: Accumulator) returns (p: Option<RtpPacket>)
      ensures p == FromSums(m, acc.Value())
    {
      hide WordValue;
      var n := WordValue(acc.length);
      if n > acc.payload.Length {
        return None;
      }
      p := Some(RtpPacket(m, acc.timestamp, acc.ptMarker & 0x7F, acc.ptMarker & 0x80 != 0, acc.payload[..n]));
    }

    method ReceiveFECPacket(fec: FecPacket) returns (out: seq<RtpPacket>, panicked: bool)
      modifies this`receivedPackets, this`decodingBlocks
      ensures !enabled ==> Decoding() == old(Decoding()) && out == [] && !panicked
      ensures enabled && panicked ==> ReceiveFec(old(Decoding()), fec) == None
      ensures enabled && !panicked ==> ReceiveFec(old(Decoding()), fec) == Some((Decoding(), out))
    {
      hide Rebuild;
      if !enabled {
        return [], false;
      }
      var have, missing := Split(fec.protectedSeq);
      var block, recovered, failed := TryRecoverPackets(Block(fec, have, missing, false));
      decodingBlocks := decodingBlocks[fec.sequenceBase := block];
      return recovered, failed;
    }

    /** Sorts listed numbers into those received and those missing. */
    method Split(list: seq<Seq16>) returns (have: map<Seq16, RtpPacket>, missing: seq<Seq16>)
      ensures have == Have(list, receivedPackets) && missing == Missing(list, receivedPackets)
    {
      hide Have, Missing;
      have, missing := map[], [];
      var i := 0;
      SplitNothing(list, receivedPackets);
      while i < |list|
        invariant 0 <= i <= |list|
        invariant have == Have(list[..i], receivedPackets) && missing == Missing(list[..i], receivedPackets)
      {
        SplitMore(list, i, receivedPackets);
        if list[i] in receivedPackets {
          have := have[list[i] := receivedPackets[list[i]]];
        } else {
          missing := missing + [list[i]];
        }
        i := i + 1;
      }
      assert list[..|list|] == list;
    }

    method CleanupOldPackets(current: Seq16)
      modifies this`receivedPackets
      ensures receivedPackets == Cleanup(old(receivedPackets), current)
    {
      var rest := receivedPackets.Keys;
      while rest != {}
        invariant rest <= old(receivedPackets).Keys
        invariant receivedPackets ==
                  map s | s in old(receivedPackets) && (s in rest || Ahead(s, current) <= WINDOW) ::
                    old(receivedPackets)[s]
        decreases |rest|
      {
        var s :| s in rest;
        if Ahead(s, current) > WINDOW {
          receivedPackets := receivedPackets - {s};
        }
        rest := rest - {s};
      }
    }

    /** One iteration of the completion loop. */
    method VisitBlock(base: Seq16, newSeq: Seq16) returns (panicked: bool)
      requires base in decodingBlocks
      modifies this`receivedPackets, this`decodingBlocks
      ensures panicked ==> Visit(old(Decoding()), base, newSeq) == None
      ensures !panicked ==> Visit(old(Decoding()), base, newSeq) == Some(Decoding())
    {
      hide Rebuild, Have, Missing;
      var block := decodingBlocks[base];
      if block.complete {
        return false;
      }
      var have, missing := Split(block.missing);
      block := Block(block.fec, block.received + have, missing, false);
      if |missing| == 1 {
        var out;
        block, out, panicked := TryRecoverPackets(block);
        if panicked {
          return;
        }
      } else if |missing| == 0 {
        block := block.(complete := true);
      }
      decodingBlocks := decodingBlocks[base := block];
      if Ahead(base, newSeq) > WINDOW {
        decodingBlocks := decodingBlocks - {base};
        assert decodingBlocks == old(decodingBlocks) - {base};
      }
      return false;
    }

    /** The completion loop; `order` records how the map iteration went. */
    method TryCompleteBlocks(newSeq: Seq16) returns (ghost order: seq<Seq16>, panicked: bool)
      modifies this`receivedPackets, this`decodingBlocks
      ensures panicked ==> Pass(old(Decoding()), order, newSeq) == None
      ensures !panicked ==> Visits(order, old(decodingBlocks).Keys)
      ensures !panicked ==> Pass(old(Decoding()), order, newSeq) == Some(Decoding())
    {
      hide Visit, Visits;
      order, panicked := [], false;
      var rest := decodingBlocks.Keys;
      VisitNone();
      assert old(decodingBlocks).Keys - rest == {};
      while rest != {}
        invariant rest <= decodingBlocks.Keys && rest <= old(decodingBlocks).Keys
        invariant Visits(order, old(decodingBlocks).Keys - rest)
        invariant Pass(old(Decoding()), order, newSeq) == Some(Decoding())
        decreases |rest|
      {
        var base :| base in rest;
        ghost var before := Decoding();
        panicked := VisitBlock(base, newSeq);
        VisitOneMore(order, old(decodingBlocks).Keys - rest, base);
        assert (order + [base])[..|order|] == order;
        order := order + [base];
        if panicked {
          return;
        }
        VisitLeavesOthers(before, base, newSeq);
        assert old(decodingBlocks).Keys - rest + {base} == old(decodingBlocks).Keys - (rest - {base});
        rest := rest - {base};
      }
      assert old(decodingBlocks).Keys - {} == old(decodingBlocks).Keys;
    }

    method ReceiveMediaPacket(p: RtpPacket) returns (ghost order: seq<Seq16>, panicked: bool)
      modifies this`receivedPackets, this`decodingBlocks
      ensures panicked ==> ReceiveMedia(old(Decoding()), p, order) == None
      ensures !panicked ==> Visits(order, old(decodingBlocks).Keys)
      ensures !panicked ==> ReceiveMedia(old(Decoding()), p, order) == Some(Decoding())
    {
      hide Pass, Cleanup, Visits;
      receivedPackets := receivedPackets[p.seqNum := p];
      CleanupOldPackets(p.seqNum);
      order, panicked := TryCompleteBlocks(p.seqNum);
    }

    method Reset()
      modifies this
      ensures encodingBlock == [] && Decoding() == Decoder(map[], map[])
      ensures enabled == old(enabled) && blockSize == old(blockSize)
    {
      encodingBlock := [];
      decodingBlocks, receivedPackets := map[], map[];
    }
  }

  lemma VisitNone()
    ensures Visits([], {})
  {}

  lemma VisitOneMore(order: seq<Seq16>, keys: set<Seq16>, k: Seq16)
    requires Visits(order, keys) && k !in keys
    ensures Visits(order + [k], keys + {k})
  {
    assert multiset(keys + {k}) == multiset(keys) + multiset{k};
  }

  lemma VisitLeavesOthers(d: Decoder, base: Seq16, newSeq: Seq16)
    requires Visit(d, base, newSeq).Some?
    ensures forall other <- d.blocks :: other != base ==> other in Visit(d, base, newSeq).value.blocks
  {}

  lemma AbsorbOneMore(block: Block, visited: seq<Seq16>, seen: set<Seq16>, m: Seq16, s: Seq16)
    requires Visits(visited, seen - {m}) && (forall k <- visited :: k in block.received)
    requires s in block.received && s !in seen && s != m
    ensures Visits(visited + [s], (seen + {s}) - {m})
    ensures AbsorbAll(block.fec.sums, Picked(block.received, visited + [s])) ==
            Absorb(AbsorbAll(block.fec.sums, Picked(block.received, visited)), block.received[s])
  {
    hide Absorb;
    assert (seen + {s}) - {m} == (seen - {m}) + {s};
    assert multiset((seen - {m}) + {s}) == multiset(seen - {m}) + multiset{s};
    assert Picked(block.received, visited + [s])[..|visited|] == Picked(block.received, visited);
  }

  lemma SplitNothing(list: seq<Seq16>, received: map<Seq16, RtpPacket>)
    ensures Have(list[..0], received) == map[] && Missing(list[..0], received) == []
  {}

  lemma SplitMore(list: seq<Seq16>, i: nat, received: map<Seq16, RtpPacket>)
    requires i < |list|
    ensures var (s, h, m) := (list[i], Have(list[..i], received), Missing(list[..i], received));
            if s in received then Have(list[..i + 1], received) == h[s := received[s]] &&
               Missing(list[..i + 1], received) == m
            else Have(list[..i + 1], received) == h && Missing(list[..i + 1], received) == m + [s]
  {
    assert list[..i + 1][..i] == list[..i] && list[..i + 1] == list[..i] + [list[i]];
  }

  lemma SeenMore(keys: set<Seq16>, rest: set<Seq16>, s: Seq16, m: Seq16)
    requires rest <= keys && s in rest
    ensures keys - (rest - {s}) == keys - rest + {s}
    ensures s == m ==> keys - (rest - {s}) - {m} == keys - rest - {m}
  {}

  lemma NothingVisited(block: Block)
    ensures Visits([], {}) && AbsorbAll(block.fec.sums, Picked(block.received, [])) == block.fec.sums
  {}
}
