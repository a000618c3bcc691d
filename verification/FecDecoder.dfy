/** The receiving side of FEC: pending blocks, recovery, and completion passes over the blocks. */
module FecDecoder {
  import opened Basics
  import opened SequenceNumbers
  import opened Words
  import opened FecCodec

  const WINDOW := 256

  datatype Block = Block(fec: FecPacket, received: map<Seq16, RtpPacket>, missing: seq<Seq16>, complete: bool)

  datatype Decoder = Decoder(blocks: map<Seq16, Block>, received: map<Seq16, RtpPacket>)

  /** Those of the listed packets that have been received. */
  function Have(list: seq<Seq16>, received: map<Seq16, RtpPacket>): map<Seq16, RtpPacket> {
    map s | s in received && s in list :: received[s]
  }

  /** Those of the listed numbers that have not been received, in list order. */
  function Missing(list: seq<Seq16>, received: map<Seq16, RtpPacket>): (ms: seq<Seq16>)
    ensures forall s :: s in ms <==> s in list && s !in received
  {
    if list == [] then []
    else
      var ms := Missing(list[..|list| - 1], received);
      var last := list[|list| - 1];
      assert list == list[..|list| - 1] + [last];
      if last in received then ms else ms + [last]
  }

  /** The packets of a map in a given order of its keys. */
  function Picked(received: map<Seq16, RtpPacket>, order: seq<Seq16>): (ps: seq<RtpPacket>)
    requires forall s <- order :: s in received
    ensures |ps| == |order|
  {
    seq(|order|, i requires 0 <= i < |order| => received[order[i]])
  }

  /** `order` visits each key of a map once: what Go's unordered map iteration guarantees. */
  ghost predicate Visits(order: seq<Seq16>, keys: set<Seq16>) {
    multiset(order) == multiset(keys)
  }

  lemma {:induction false} SomeVisit(keys: set<Seq16>)
    ensures exists order :: Visits(order, keys)
  {
    if keys == {} {
      assert Visits([], keys);
    } else {
      var k :| k in keys;
      SomeVisit(keys - {k});
      var order :| Visits(order, keys - {k});
      assert multiset(keys) == multiset(keys - {k}) + multiset{k};
      assert Visits(order + [k], keys);
    }
  }

  ghost function AnyVisit(keys: set<Seq16>): (order: seq<Seq16>)
    ensures Visits(order, keys)
  {
    SomeVisit(keys);
    var order :| Visits(order, keys);
    order
  }

  lemma VisitsMembers(order: seq<Seq16>, keys: set<Seq16>)
    requires Visits(order, keys)
    ensures forall s :: s in order <==> s in keys
  {
    forall s ensures s in order <==> s in keys {
      assert s in order <==> s in multiset(order);
    }
  }

  /** XORs the block's received packets out of its FEC sums, visiting them in some order. */
  ghost function Rebuild(b: Block): Option<RtpPacket>
    requires |b.missing| == 1
  {
    var m := b.missing[0];
    var order := AnyVisit(b.received.Keys - {m});
    VisitsMembers(order, b.received.Keys - {m});
    FromSums(m, AbsorbAll(b.fec.sums, Picked(b.received, order)))
  }

  lemma {:induction false} PickedMultiset(received: map<Seq16, RtpPacket>, a: seq<Seq16>, b: seq<Seq16>)
    requires (forall s <- a :: s in received) && (forall s <- b :: s in received)
    requires multiset(a) == multiset(b)
    ensures multiset(Picked(received, a)) == multiset(Picked(received, b))
    decreases |b|
  {
    assert |a| == |multiset(a)| == |multiset(b)| == |b|;
    if b != [] {
      var n := |b| - 1;
      assert b[n] in multiset(b);
      var i :| 0 <= i < |a| && a[i] == b[n];
      WithoutOne(a, i);
      WithoutOne(b, n);
      assert b[..n] + b[n + 1..] == b[..n];
      PickedMultiset(received, a[..i] + a[i + 1..], b[..n]);
      PickedWithout(received, a, i);
      PickedWithout(received, b, n);
    }
  }

  lemma PickedWithout(received: map<Seq16, RtpPacket>, a: seq<Seq16>, i: nat)
    requires (forall s <- a :: s in received) && i < |a|
    ensures (forall s <- a[..i] + a[i + 1..] :: s in received)
    ensures multiset(Picked(received, a)) ==
            multiset(Picked(received, a[..i] + a[i + 1..])) + multiset{received[a[i]]}
  {
    assert a == a[..i] + [a[i]] + a[i + 1..];
    var ps := Picked(received, a);
    WithoutOne(ps, i);
    assert Picked(received, a[..i] + a[i + 1..]) == ps[..i] + ps[i + 1..];
    assert ps[i] in multiset(ps);
  }

  /** Whatever order the map iteration takes, the same packet is rebuilt. */
  lemma RebuildAnyOrder(b: Block, order: seq<Seq16>)
    requires |b.missing| == 1 && Visits(order, b.received.Keys - {b.missing[0]})
    ensures forall s <- order :: s in b.received
    ensures Rebuild(b) == FromSums(b.missing[0], AbsorbAll(b.fec.sums, Picked(b.received, order)))
  {
    hide FromSums, Absorb, AbsorbAll;
    var keys := b.received.Keys - {b.missing[0]};
    VisitsMembers(order, keys);
    VisitsMembers(AnyVisit(keys), keys);
    PickedMultiset(b.received, order, AnyVisit(keys));
    AbsorbAnyOrder(b.fec.sums, Picked(b.received, order), Picked(b.received, AnyVisit(keys)));
  }

  /** A recovery attempt: the new received map, the new block and the packets rebuilt. None: panic. */
  ghost function TryRecover(received: map<Seq16, RtpPacket>, b: Block)
    : Option<(map<Seq16, RtpPacket>, Block, seq<RtpPacket>)>
  {
    if |b.missing| != 1 then Some((received, b, []))
    else
      var m := b.missing[0];
      match Rebuild(b)
      case None => None
      case Some(p) => Some((received[m := p], Block(b.fec, b.received[m := p], [], true), [p]))
  }

  ghost function ReceiveFec(d: Decoder, fec: FecPacket): Option<(Decoder, seq<RtpPacket>)> {
    var b := Block(fec, Have(fec.protectedSeq, d.received), Missing(fec.protectedSeq, d.received), false);
    match TryRecover(d.received, b)
    case None => None
    case Some((received, b', out)) => Some((Decoder(d.blocks[fec.sequenceBase := b'], received), out))
  }

  /** Moves newly received packets from the missing list into the block. */
  function Refresh(b: Block, received: map<Seq16, RtpPacket>): Block {
    b.(received := b.received + Have(b.missing, received), missing := Missing(b.missing, received))
  }

  /** One iteration of the completion loop, at the block stored under `base`. */
  ghost function Visit(d: Decoder, base: Seq16, newSeq: Seq16): Option<Decoder> {
    if base !in d.blocks || d.blocks[base].complete then Some(d)
    else
      var b := Refresh(d.blocks[base], d.received);
      match TryRecover(d.received, b.(complete := b.missing == []))
      case None => None
      case Some((received, b', _)) =>
        Some(Decoder(if Ahead(base, newSeq) > WINDOW then d.blocks - {base} else d.blocks[base := b'], received))
  }

  /** The completion loop over the blocks in the given order. */
  ghost function Pass(d: Decoder, order: seq<Seq16>, newSeq: Seq16): Option<Decoder> {
    if order == [] then Some(d)
    else
      match Pass(d, order[..|order| - 1], newSeq)
      case None => None
      case Some(d') => Visit(d', order[|order| - 1], newSeq)
  }

  function Cleanup(received: map<Seq16, RtpPacket>, current: Seq16): map<Seq16, RtpPacket> {
    map s | s in received && Ahead(s, current) <= WINDOW :: received[s]
  }

  ghost function ReceiveMedia(d: Decoder, p: RtpPacket, order: seq<Seq16>): Option<Decoder> {
    Pass(d.(received := Cleanup(d.received[p.seqNum := p], p.seqNum)), order, p.seqNum)
  }

  // ---- Soundness against the sender's stream

  /** One sender stream: at most one packet per sequence number. */
  type Stream = map<Seq16, RtpPacket>

  ghost predicate Genuine(stream: Stream) {
    forall s <- stream :: stream[s].seqNum == s && Sendable(stream[s])
  }

  /** The FEC packet protects distinct packets of the stream and carries their sums. */
  ghost predicate Honest(stream: Stream, fec: FecPacket) {
    && fec.protectedSeq != [] && NoRepeat(fec.protectedSeq)
    && (forall s <- fec.protectedSeq :: s in stream)
    && fec == Encode(Picked(stream, fec.protectedSeq))
  }

  ghost predicate Agrees(stream: Stream, received: map<Seq16, RtpPacket>) {
    forall s <- received :: s in stream && received[s] == stream[s]
  }

  ghost predicate BlockSound(stream: Stream, b: Block) {
    && Honest(stream, b.fec) && Agrees(stream, b.received) && NoRepeat(b.missing)
    && (forall s :: s in b.fec.protectedSeq <==> s in b.received || s in b.missing)
    && (forall s <- b.missing :: s !in b.received)
    && (b.complete ==> b.missing == [])
  }

  ghost predicate Sound(stream: Stream, d: Decoder) {
    && Genuine(stream) && Agrees(stream, d.received)
    && (forall base <- d.blocks :: BlockSound(stream, d.blocks[base]))
  }

  /** The other protected packets and the missing one make up the block. */
  lemma OthersAndMissing(stream: Stream, b: Block)
    requires BlockSound(stream, b) && |b.missing| == 1
    ensures var m := b.missing[0];
            m in stream && multiset(b.received.Keys) + multiset{m} == multiset(b.fec.protectedSeq)
  {
    hide Agrees;
    var m := b.missing[0];
    assert m in b.missing && m in b.fec.protectedSeq && forall s <- b.missing :: s == m;
    OneMoreMember(b.fec.protectedSeq, b.received.Keys, m);
  }

  lemma OneMoreMember(list: seq<Seq16>, keys: set<Seq16>, m: Seq16)
    requires NoRepeat(list) && m !in keys && forall s :: s in list <==> s in keys || s == m
    ensures multiset(keys) + multiset{m} == multiset(list)
  {
    DistinctMultiset(list);
    assert (set s | s in list) == keys + {m};
    assert multiset(keys + {m}) == multiset(keys) + multiset{m};
  }

  lemma {:induction false} DistinctMultiset<T(!new)>(s: seq<T>)
    requires NoRepeat(s)
    ensures multiset(s) == multiset(set x | x in s)
  {
    if s != [] {
      var n := |s| - 1;
      DistinctMultiset(s[..n]);
      assert s == s[..n] + [s[n]];
      assert (set x | x in s) == (set x | x in s[..n]) + {s[n]};
      assert s[n] !in s[..n];
    }
  }

  lemma PickedOthers(stream: Stream, prot: seq<Seq16>, order: seq<Seq16>, m: Seq16)
    requires (forall s <- prot :: s in stream) && (forall s <- order :: s in stream) && m in stream
    requires multiset(order) + multiset{m} == multiset(prot)
    ensures multiset(Picked(stream, order)) + multiset{stream[m]} == multiset(Picked(stream, prot))
  {
    assert multiset(order + [m]) == multiset(prot);
    PickedMultiset(stream, order + [m], prot);
    assert Picked(stream, order + [m]) == Picked(stream, order) + [stream[m]];
  }

  /** A sound block with one packet missing rebuilds exactly the sender's packet. */
  lemma RebuildIsExact(stream: Stream, b: Block)
    requires Genuine(stream) && BlockSound(stream, b) && |b.missing| == 1
    ensures b.missing[0] in stream && Rebuild(b) == Some(stream[b.missing[0]])
  {
    hide FromSums, Absorb, AbsorbAll, NoRepeat, Rebuild;
    var m := b.missing[0];
    assert m in b.missing && b.received.Keys - {m} == b.received.Keys;
    OthersAndMissing(stream, b);
    var order := AnyVisit(b.received.Keys);
    VisitsMembers(order, b.received.Keys);
    RebuildAnyOrder(b, order);
    var prot := b.fec.protectedSeq;
    var k :| 0 <= k < |prot| && prot[k] == m;
    assert Picked(b.received, order) == Picked(stream, order);
    PickedOthers(stream, prot, order, m);
    RecoverMissing(Picked(stream, prot), k, Picked(stream, order));
  }

  lemma {:induction false} MissingIsDistinct(list: seq<Seq16>, received: map<Seq16, RtpPacket>)
    requires NoRepeat(list)
    ensures NoRepeat(Missing(list, received))
  {
    if list != [] {
      MissingIsDistinct(list[..|list| - 1], received);
      assert list[|list| - 1] !in list[..|list| - 1];
    }
  }

  lemma {:induction false} MissingShrinks(list: seq<Seq16>, received: map<Seq16, RtpPacket>, more: map<Seq16,
                                          RtpPacket>)
    requires received.Keys <= more.Keys
    ensures |Missing(list, more)| <= |Missing(list, received)|
  {
    if list != [] {
      MissingShrinks(list[..|list| - 1], received, more);
    }
  }

  /** On a sound block a recovery attempt never panics, keeps soundness, and rebuilds exactly when
      one packet is missing. */
  lemma TryRecoverSound(stream: Stream, received: map<Seq16, RtpPacket>, b: Block)
    requires Genuine(stream) && Agrees(stream, received) && BlockSound(stream, b)
    ensures TryRecover(received, b).Some?
    ensures var (received', b', out) := TryRecover(received, b).value;
            && Agrees(stream, received') && BlockSound(stream, b') && received.Keys <= received'.Keys
            && (|b.missing| == 1 ==>
                  && b.missing[0] in stream && out == [stream[b.missing[0]]]
                  && b.missing[0] in received' && b'.complete)
            && (|b.missing| != 1 ==> out == [] && received' == received && b' == b)
  {
    hide Rebuild, Honest;
    if |b.missing| == 1 {
      RebuildIsExact(stream, b);
      assert b.missing[0] in b.missing;
      assert forall s :: s in b.missing ==> s == b.missing[0];
    }
  }

  lemma NewBlockSound(stream: Stream, fec: FecPacket, received: map<Seq16, RtpPacket>)
    requires Honest(stream, fec) && Agrees(stream, received)
    ensures BlockSound(stream, Block(fec, Have(fec.protectedSeq, received), Missing(fec.protectedSeq, received), false))
  {
    MissingIsDistinct(fec.protectedSeq, received);
  }

  lemma RefreshSound(stream: Stream, b: Block, received: map<Seq16, RtpPacket>)
    requires BlockSound(stream, b) && !b.complete && Agrees(stream, received)
    ensures var b' := Refresh(b, received);
            BlockSound(stream, b'.(complete := b'.missing == []))
  {
    hide Honest;
    MissingIsDistinct(b.missing, received);
  }

  /** Receiving an FEC packet of the stream: sound, and the one missing packet, if there is exactly
      one, is handed out bit for bit. */
  lemma ReceiveFecSound(stream: Stream, d: Decoder, fec: FecPacket)
    requires Sound(stream, d) && Honest(stream, fec)
    ensures ReceiveFec(d, fec).Some?
    ensures var (d', out) := ReceiveFec(d, fec).value;
            var missing := Missing(fec.protectedSeq, d.received);
            && Sound(stream, d') && d.received.Keys <= d'.received.Keys
            && (|missing| == 1 ==>
                  missing[0] in stream && out == [stream[missing[0]]] && missing[0] in d'.received)
            && (|missing| != 1 ==> out == [] && d'.received == d.received)
  {
    hide TryRecover, Honest, BlockSound;
    NewBlockSound(stream, fec, d.received);
    TryRecoverSound(stream, d.received,
                    Block(fec, Have(fec.protectedSeq, d.received), Missing(fec.protectedSeq, d.received), false));
  }

  /** b' misses only packets b missed, and those it no longer misses are held. */
  ghost predicate Narrowed(b: Block, b': Block, received: map<Seq16, RtpPacket>) {
    && (forall s <- b'.missing :: s in b.missing)
    && (forall s <- b.missing :: s in received || s in b'.missing)
  }

  /** A visit is sound; it only adds packets; and if at most one packet of the block was still
      missing, none is afterwards. */
  lemma VisitSound(stream: Stream, d: Decoder, base: Seq16, newSeq: Seq16)
    requires Sound(stream, d)
    ensures Visit(d, base, newSeq).Some?
    ensures var d' := Visit(d, base, newSeq).value;
            && Sound(stream, d') && d.received.Keys <= d'.received.Keys
            && (forall other :: other != base ==> (other in d'.blocks <==> other in d.blocks))
            && (forall other <- d.blocks :: other != base ==> d'.blocks[other] == d.blocks[other])
            && (base in d.blocks && !d.blocks[base].complete ==>
                  var b := d.blocks[base];
                  && (|Missing(b.missing, d.received)| <= 1 ==>
                        && (forall s <- b.missing :: s in d'.received)
                        && (base in d'.blocks ==> d'.blocks[base].complete))
                  && (base in d'.blocks ==> Narrowed(b, d'.blocks[base], d'.received)))
            && (base in d.blocks && (d.blocks[base].complete || Ahead(base, newSeq) <= WINDOW) ==> base in d'.blocks)
  {
    hide BlockSound, Rebuild;
    if base in d.blocks && !d.blocks[base].complete {
      var b := d.blocks[base];
      var b1 := Refresh(b, d.received);
      RefreshSound(stream, b, d.received);
      TryRecoverSound(stream, d.received, b1.(complete := b1.missing == []));
    }
  }

  /** A completion pass in any order is sound, only adds packets, and leaves unvisited blocks alone. */
  lemma {:induction false} PassSound(stream: Stream, d: Decoder, order: seq<Seq16>, newSeq: Seq16)
    requires Sound(stream, d)
    ensures Pass(d, order, newSeq).Some?
    ensures var d' := Pass(d, order, newSeq).value;
            && Sound(stream, d') && d.received.Keys <= d'.received.Keys
            && (forall base :: base !in order ==> (base in d'.blocks <==> base in d.blocks))
            && (forall base <- d.blocks :: base !in order ==> d'.blocks[base] == d.blocks[base])
    decreases |order|
  {
    hide Visit, Sound;
    if order != [] {
      var n := |order| - 1;
      PassSound(stream, d, order[..n], newSeq);
      VisitSound(stream, Pass(d, order[..n], newSeq).value, order[n], newSeq);
      assert order == order[..n] + [order[n]];
    }
  }

  /** Later visits of a pass undo nothing: a packet present, or a block completed or removed, stays so. */
  lemma {:induction false} PassKeeps(stream: Stream, d: Decoder, order: seq<Seq16>, i: nat, newSeq: Seq16)
    requires Sound(stream, d) && i <= |order|
    ensures Pass(d, order[..i], newSeq).Some? && Pass(d, order, newSeq).Some?
    ensures var (d1, d') := (Pass(d, order[..i], newSeq).value, Pass(d, order, newSeq).value);
            && d1.received.Keys <= d'.received.Keys
            && (forall base :: base !in order[i..] ==> (base in d'.blocks <==> base in d1.blocks))
            && (forall base <- d1.blocks :: base !in order[i..] ==> d'.blocks[base] == d1.blocks[base])
    decreases |order|
  {
    hide Visit, Sound;
    PassSound(stream, d, order, newSeq);
    if i == |order| {
      assert order[..i] == order;
    } else {
      var n := |order| - 1;
      PassKeeps(stream, d, order[..n], i, newSeq);
      assert order[..n][..i] == order[..i] && order[i..] == order[..n][i..] + [order[n]];
      PassSound(stream, d, order[..n], newSeq);
      VisitSound(stream, Pass(d, order[..n], newSeq).value, order[n], newSeq);
    }
  }

  lemma VisitsOnce(order: seq<Seq16>, keys: set<Seq16>, i: nat)
    requires Visits(order, keys) && i < |order|
    ensures order[i] in keys && order[i] !in order[..i] && order[i] !in order[i + 1..]
  {
    assert order == order[..i] + [order[i]] + order[i + 1..];
    assert multiset(order)[order[i]] <= 1 by {
      assert multiset(keys)[order[i]] <= 1;
    }
    assert order[i] in multiset(order);
  }

  /** Whatever order the map loop takes, a pass recovers every packet that was the only one missing
      from a pending block, and completes the block. */
  lemma PassRecovers(stream: Stream, d: Decoder, order: seq<Seq16>, newSeq: Seq16, base: Seq16)
    requires Sound(stream, d) && Visits(order, d.blocks.Keys)
    requires base in d.blocks && !d.blocks[base].complete
    ensures Pass(d, order, newSeq).Some?
    ensures var d' := Pass(d, order, newSeq).value;
            var b := d.blocks[base];
            && Sound(stream, d')
            && (|Missing(b.missing, d.received)| <= 1 ==>
                  && (forall s <- b.missing :: s in d'.received)
                  && (base in d'.blocks ==> d'.blocks[base].complete))
            && (base in d'.blocks ==> Narrowed(b, d'.blocks[base], d'.received))
            && (Ahead(base, newSeq) <= WINDOW ==> base in d'.blocks)
  {
    hide Visit, Sound, Missing, Visits, BlockSound;
    VisitsMembers(order, d.blocks.Keys);
    var i :| 0 <= i < |order| && order[i] == base;
    VisitsOnce(order, d.blocks.Keys, i);
    PassSound(stream, d, order, newSeq);
    PassSound(stream, d, order[..i], newSeq);
    var d1 := Pass(d, order[..i], newSeq).value;
    MissingShrinks(d.blocks[base].missing, d.received, d1.received);
    VisitSound(stream, d1, base, newSeq);
    assert order[..i + 1][..i] == order[..i];
    PassKeeps(stream, d, order, i + 1, newSeq);
  }

  lemma ReceiveMediaSound(stream: Stream, d: Decoder, p: RtpPacket, order: seq<Seq16>)
    requires Sound(stream, d) && p.seqNum in stream && p == stream[p.seqNum]
    ensures ReceiveMedia(d, p, order).Some? && Sound(stream, ReceiveMedia(d, p, order).value)
    ensures p.seqNum in ReceiveMedia(d, p, order).value.received
  {
    hide BlockSound;
    PassSound(stream, d.(received := Cleanup(d.received[p.seqNum := p], p.seqNum)), order, p.seqNum);
  }
}
