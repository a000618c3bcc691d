/** The sending side of FEC: media packets are cut into consecutive blocks, one FEC packet each. */
module FecEncoder {
  import opened Basics
  import opened SequenceNumbers
  import opened FecCodec

  datatype Encoder = Encoder(enabled: bool, blockSize: int, block: seq<RtpPacket>, blockSeq: Seq16)

  function Add(e: Encoder, p: RtpPacket): (Encoder, Option<FecPacket>) {
    if !e.enabled then (e, None)
    else
      var e1 := e.(blockSeq := if e.block == [] then p.seqNum else e.blockSeq, block := e.block + [p]);
      if |e1.block| >= e1.blockSize then (e1.(block := []), Some(Generate(e1))) else (e1, None)
  }

  function Generate(e: Encoder): FecPacket {
    FecPacket(e.blockSeq, Numbers(e.block), AbsorbAll(Zero(MaxLength(e.block)), e.block))
  }

  function Clamp(n: int): int {
    if n < 2 then 2 else if n > 100 then 100 else n
  }

  datatype Event = AddEvent(p: RtpPacket) | BlockSizeEvent(size: int) | EnabledEvent(on: bool)

  /** The encoder with what an observer remembers: the packets added while enabled, how they were cut
      into blocks, and the FEC packets sent. */
  datatype Trace = Trace(e: Encoder, added: seq<RtpPacket>, blocks: seq<seq<RtpPacket>>, sent: seq<FecPacket>)

  function Step(t: Trace, ev: Event): Trace {
    match ev
    case BlockSizeEvent(n) => t.(e := t.e.(blockSize := Clamp(n)))
    case EnabledEvent(on) => t.(e := t.e.(enabled := on))
    case AddEvent(p) =>
      var (e', fec) := Add(t.e, p);
      Trace(e', if t.e.enabled then t.added + [p] else t.added,
            if fec.Some? then t.blocks + [t.e.block + [p]] else t.blocks,
            if fec.Some? then t.sent + [fec.value] else t.sent)
  }

  function Run(size: int, evs: seq<Event>): Trace {
    if evs == [] then Trace(Encoder(true, size, [], 0), [], [], [])
    else Step(Run(size, evs[..|evs| - 1]), evs[|evs| - 1])
  }

  function Flatten<T>(ss: seq<seq<T>>): seq<T> {
    if ss == [] then [] else Flatten(ss[..|ss| - 1]) + ss[|ss| - 1]
  }

  function Protected(sent: seq<FecPacket>): seq<seq<Seq16>> {
    seq(|sent|, i requires 0 <= i < |sent| => sent[i].protectedSeq)
  }

  ghost predicate Partitioned(t: Trace) {
    && Flatten(t.blocks) + t.e.block == t.added
    && |t.sent| == |t.blocks|
    && (forall i :: 0 <= i < |t.blocks| ==> t.blocks[i] != [] && t.sent[i] == Encode(t.blocks[i]))
    && (t.e.block != [] ==> t.e.blockSeq == t.e.block[0].seqNum)
  }

  lemma {:induction false} FlattenSnoc<T>(ss: seq<seq<T>>, s: seq<T>)
    ensures Flatten(ss + [s]) == Flatten(ss) + s
  {
    assert (ss + [s])[..|ss|] == ss;
  }

  lemma AddPartitions(t: Trace, p: RtpPacket)
    requires Partitioned(t) && t.e.enabled
    ensures Partitioned(Step(t, AddEvent(p)))
  {
    hide MaxLength, AbsorbAll, Flatten;
    var block := t.e.block + [p];
    assert t.added + [p] == Flatten(t.blocks) + block;
    if |block| >= t.e.blockSize {
      FlattenSnoc(t.blocks, block);
      assert Flatten(t.blocks) + block == Flatten(t.blocks + [block]) + [];
    }
  }

  lemma {:induction false} RunPartitions(size: int, evs: seq<Event>)
    ensures Partitioned(Run(size, evs))
    ensures size >= 1 ==> Run(size, evs).e.blockSize >= 1
  {
    hide Add;
    if evs != [] {
      var n := |evs| - 1;
      RunPartitions(size, evs[..n]);
      var t := Run(size, evs[..n]);
      if evs[n].AddEvent? {
        AddKeepsSettings(t.e, evs[n].p);
        if t.e.enabled {
          AddPartitions(t, evs[n].p);
        }
      }
    }
  }

  lemma AddKeepsSettings(e: Encoder, p: RtpPacket)
    ensures var (e', fec) := Add(e, p);
            && e'.enabled == e.enabled && e'.blockSize == e.blockSize
            && (!e.enabled ==> e' == e && fec == None)
            && (e.enabled && e.blockSize >= 1 ==> |e'.block| < e.blockSize)
  {
    hide Generate;
  }

  lemma {:induction false} FlattenNumbers(blocks: seq<seq<RtpPacket>>, sent: seq<FecPacket>)
    requires |sent| == |blocks|
    requires forall i :: 0 <= i < |blocks| ==> sent[i].protectedSeq == Numbers(blocks[i])
    ensures Flatten(Protected(sent)) == Numbers(Flatten(blocks))
  {
    if blocks != [] {
      var n := |blocks| - 1;
      FlattenNumbers(blocks[..n], sent[..n]);
      assert Protected(sent)[..n] == Protected(sent[..n]);
    }
  }

  /** Under any changes of block size, the protected lists sent so far followed by the block being
      filled are the packets added, in order; each FEC packet names its first packet as base; and
      after each add the open block is shorter than the block size. */
  lemma EncoderPartition(size: int, evs: seq<Event>)
    requires size >= 1
    ensures var t := Run(size, evs);
            && Flatten(Protected(t.sent)) + Numbers(t.e.block) == Numbers(t.added)
            && (forall i :: 0 <= i < |t.sent| ==>
                  t.sent[i].protectedSeq != [] && t.sent[i].sequenceBase == t.sent[i].protectedSeq[0])
            && (evs != [] && evs[|evs| - 1].AddEvent? && t.e.enabled ==> |t.e.block| < t.e.blockSize)
  {
    hide Partitioned, MaxLength, AbsorbAll, Add;
    RunPartitions(size, evs);
    var t := Run(size, evs);
    if evs != [] && evs[|evs| - 1].AddEvent? {
      RunPartitions(size, evs[..|evs| - 1]);
      AddKeepsSettings(Run(size, evs[..|evs| - 1]).e, evs[|evs| - 1].p);
    }
    PartitionNumbers(t);
  }

  lemma PartitionNumbers(t: Trace)
    requires Partitioned(t)
    ensures Flatten(Protected(t.sent)) + Numbers(t.e.block) == Numbers(t.added)
    ensures forall i :: 0 <= i < |t.sent| ==>
              t.sent[i].protectedSeq != [] && t.sent[i].sequenceBase == t.sent[i].protectedSeq[0]
  {
    hide MaxLength, AbsorbAll;
    FlattenNumbers(t.blocks, t.sent);
    assert Numbers(t.added) == Numbers(Flatten(t.blocks)) + Numbers(t.e.block);
  }
}

/** Whole runs of the receiver: exactness of everything held, and chained recoveries. */
module FecRuns {
  import opened Basics
  import opened SequenceNumbers
  import opened FecCodec
  import opened FecDecoder
  import Enc = FecEncoder

  datatype Event = MediaEvent(p: RtpPacket, order: seq<Seq16>) | FecEvent(fec: FecPacket)

  ghost function Step(d: Decoder, e: Event): Option<Decoder> {
    match e
    case MediaEvent(p, order) => ReceiveMedia(d, p, order)
    case FecEvent(fec) =>
      match ReceiveFec(d, fec)
      case None => None
      case Some((d', _)) => Some(d')
  }

  ghost function Run(d: Decoder, es: seq<Event>): Option<Decoder> {
    if es == [] then Some(d)
    else
      match Run(d, es[..|es| - 1])
      case None => None
      case Some(d') => Step(d', es[|es| - 1])
  }

  ghost predicate FromSender(stream: Stream, e: Event) {
    match e
    case MediaEvent(p, _) => p.seqNum in stream && p == stream[p.seqNum]
    case FecEvent(fec) => Honest(stream, fec)
  }

  /** Whatever arrives of one stream, in whatever order, with repeats and losses: no run panics, and
      every packet held, received or recovered, is the sender's bit for bit. */
  lemma {:induction false} RunIsExact(stream: Stream, d: Decoder, es: seq<Event>)
    requires Sound(stream, d) && forall e <- es :: FromSender(stream, e)
    ensures Run(d, es).Some? && Sound(stream, Run(d, es).value)
    ensures forall s <- Run(d, es).value.received :: s in stream && Run(d, es).value.received[s] == stream[s]
  {
    hide BlockSound, ReceiveFec, ReceiveMedia;
    if es != [] {
      var n := |es| - 1;
      RunIsExact(stream, d, es[..n]);
      var d' := Run(d, es[..n]).value;
      assert es[n] in es;
      match es[n]
      case MediaEvent(p, order) => ReceiveMediaSound(stream, d', p, order);
      case FecEvent(fec) => ReceiveFecSound(stream, d', fec);
    }
  }

  // ---- Chained recovery

  /** The numbers present after n rounds of "a pending block with one packet missing yields it". */
  ghost function Peeled(blocks: map<Seq16, Block>, have: set<Seq16>, n: nat): set<Seq16> {
    if n == 0 then have
    else
      var r := Peeled(blocks, have, n - 1);
      r + set base, m | base in blocks && Yields(blocks[base], r, m) :: m
  }

  ghost predicate Yields(b: Block, have: set<Seq16>, m: Seq16) {
    !b.complete && m in b.missing && forall s <- b.missing :: s == m || s in have
  }

  /** This arrival evicts no packet and no block, and its loop visits every block once. */
  ghost predicate Quiet(d: Decoder, p: RtpPacket, order: seq<Seq16>) {
    && Visits(order, d.blocks.Keys)
    && (forall s <- d.received :: Ahead(s, p.seqNum) <= WINDOW)
    && (forall base <- d.blocks :: Ahead(base, p.seqNum) <= WINDOW)
  }

  ghost predicate QuietRun(stream: Stream, d: Decoder, es: seq<Event>) {
    es != [] ==>
      && QuietRun(stream, d, es[..|es| - 1])
      && es[|es| - 1].MediaEvent? && FromSender(stream, es[|es| - 1])
      && Run(d, es[..|es| - 1]).Some?
      && Quiet(Run(d, es[..|es| - 1]).value, es[|es| - 1].p, es[|es| - 1].order)
  }

  /** What one quiet arrival does to the blocks of an earlier state. */
  ghost predicate Progress(d0: Decoder, d: Decoder) {
    && d0.blocks.Keys <= d.blocks.Keys
    && d0.received.Keys <= d.received.Keys
    && (forall base <- d0.blocks :: Narrowed(d0.blocks[base], d.blocks[base], d.received))
  }

  lemma AtMostOne(list: seq<Seq16>, received: map<Seq16, RtpPacket>, m: Seq16)
    requires NoRepeat(list) && forall s <- list :: s == m || s in received
    ensures |Missing(list, received)| <= 1
  {
    var ms := Missing(list, received);
    MissingIsDistinct(list, received);
    DistinctMultiset(ms);
    var members := set s | s in ms;
    assert members <= {m};
    assert members == {} || members == {m};
    assert |ms| == |multiset(ms)| == |members|;
  }

  lemma QuietCleanup(d: Decoder, p: RtpPacket, order: seq<Seq16>)
    requires Quiet(d, p, order)
    ensures Cleanup(d.received[p.seqNum := p], p.seqNum) == d.received[p.seqNum := p]
  {}

  /** One quiet arrival keeps progress, and settles every block that had one packet missing. */
  lemma QuietStep(stream: Stream, d0: Decoder, d: Decoder, p: RtpPacket, order: seq<Seq16>)
    requires Sound(stream, d) && Progress(d0, d) && Quiet(d, p, order) && FromSender(stream, MediaEvent(p, order))
    ensures ReceiveMedia(d, p, order).Some?
    ensures var d' := ReceiveMedia(d, p, order).value;
            && Sound(stream, d') && Progress(d0, d') && d.received.Keys <= d'.received.Keys
            && (forall base <- d0.blocks, m | Yields(d0.blocks[base], d.received.Keys, m) :: m in d'.received)
  {
    hide Pass, BlockSound, Missing, Cleanup;
    ReceiveMediaSound(stream, d, p, order);
    var d' := ReceiveMedia(d, p, order).value;
    QuietCleanup(d, p, order);
    var d1 := d.(received := d.received[p.seqNum := p]);
    PassSound(stream, d1, order, p.seqNum);
    VisitsMembers(order, d.blocks.Keys);
    forall base | base in d.blocks
      ensures base in d'.blocks && Narrowed(d.blocks[base], d'.blocks[base], d'.received)
    {
      SettleBlock(stream, d1, order, p.seqNum, base);
    }
    forall base, m | base in d0.blocks && Yields(d0.blocks[base], d.received.Keys, m) ensures m in d'.received {
      if m !in d.received {
        SettleYield(stream, d1, order, p.seqNum, base, m);
      }
    }
  }

  lemma SettleBlock(stream: Stream, d: Decoder, order: seq<Seq16>, newSeq: Seq16, base: Seq16)
    requires Sound(stream, d) && Visits(order, d.blocks.Keys) && base in d.blocks && Ahead(base, newSeq) <= WINDOW
    ensures Pass(d, order, newSeq).Some?
    ensures var d' := Pass(d, order, newSeq).value;
            base in d'.blocks && Narrowed(d.blocks[base], d'.blocks[base], d'.received)
  {
    hide Pass, Visit;
    if d.blocks[base].complete {
      assert BlockSound(stream, d.blocks[base]);
      CompleteBlockStays(stream, d, order, newSeq, base);
    } else {
      PassRecovers(stream, d, order, newSeq, base);
    }
  }

  lemma {:induction false} CompleteBlockStays(stream: Stream, d: Decoder, order: seq<Seq16>, newSeq: Seq16, base: Seq16)
    requires Sound(stream, d) && base in d.blocks && d.blocks[base].complete
    ensures Pass(d, order, newSeq).Some?
    ensures base in Pass(d, order, newSeq).value.blocks && Pass(d, order, newSeq).value.blocks[base] == d.blocks[base]
    decreases |order|
  {
    hide Sound, TryRecover;
    PassSound(stream, d, order, newSeq);
    if order != [] {
      var n := |order| - 1;
      CompleteBlockStays(stream, d, order[..n], newSeq, base);
      PassSound(stream, d, order[..n], newSeq);
      VisitSound(stream, Pass(d, order[..n], newSeq).value, order[n], newSeq);
    }
  }

  lemma SettleYield(stream: Stream, d: Decoder, order: seq<Seq16>, newSeq: Seq16, base: Seq16, m: Seq16)
    requires Sound(stream, d) && Visits(order, d.blocks.Keys) && base in d.blocks
    requires m in d.blocks[base].missing && forall s <- d.blocks[base].missing :: s == m || s in d.received
    ensures Pass(d, order, newSeq).Some? && m in Pass(d, order, newSeq).value.received
  {
    hide Pass, Visit;
    assert BlockSound(stream, d.blocks[base]);
    AtMostOne(d.blocks[base].missing, d.received, m);
    PassRecovers(stream, d, order, newSeq, base);
  }

  lemma YieldsMore(b: Block, have: set<Seq16>, more: set<Seq16>, m: Seq16)
    requires Yields(b, have, m) && have <= more
    ensures Yields(b, more, m)
  {}

  /** A round of peeling reaches no further than an arrival that settles what the round before has reached. */
  lemma PeelsOnce(blocks: map<Seq16, Block>, have: set<Seq16>, n: nat, before: set<Seq16>, after: set<Seq16>)
    requires Peeled(blocks, have, n) <= before <= after
    requires forall base <- blocks, m | Yields(blocks[base], before, m) :: m in after
    ensures Peeled(blocks, have, n + 1) <= after
  {
    var r := Peeled(blocks, have, n);
    hide Yields;
    forall base, m | base in blocks && Yields(blocks[base], r, m) ensures m in after {
      YieldsMore(blocks[base], r, before, m);
    }
  }

  /** Chained recovery: n quiet arrivals recover at least everything n rounds of peeling reach,
      whatever order each map loop visits the blocks in. */
  lemma {:induction false} ChainsAreRecovered(stream: Stream, d: Decoder, es: seq<Event>)
    requires Sound(stream, d) && QuietRun(stream, d, es)
    ensures Run(d, es).Some? && Sound(stream, Run(d, es).value) && Progress(d, Run(d, es).value)
    ensures Peeled(d.blocks, d.received.Keys, |es|) <= Run(d, es).value.received.Keys
  {
    if es == [] {
    } else {
      hide Sound, ReceiveMedia, Quiet, Progress, Yields, Peeled, FromSender;
      var n := |es| - 1;
      ChainsAreRecovered(stream, d, es[..n]);
      var d' := Run(d, es[..n]).value;
      QuietStep(stream, d, d', es[n].p, es[n].order);
      PeelsOnce(d.blocks, d.received.Keys, n, d'.received.Keys, Run(d, es).value.received.Keys);
    }
  }

  // ---- What is held

  const NOTHING := Decoder(map[], map[])

  ghost predicate Arrives(e: Event, s: Seq16) {
    e.MediaEvent? && e.p.seqNum == s
  }

  /** The arrival evicts what is held under the number: it lies more than the window ahead on the circle. */
  ghost predicate Evicts(e: Event, s: Seq16) {
    e.MediaEvent? && Ahead(s, e.p.seqNum) > WINDOW
  }

  /** The numbers that arrive or are recovered at this step. */
  ghost function Gained(d: Decoder, e: Event): set<Seq16>
    requires Step(d, e).Some?
  {
    set s | s in Step(d, e).value.received && (Arrives(e, s) || Evicts(e, s) || s !in d.received)
  }

  lemma StepHolds(stream: Stream, d: Decoder, e: Event, s: Seq16)
    requires Sound(stream, d) && FromSender(stream, e)
    ensures Step(d, e).Some? && Sound(stream, Step(d, e).value)
    ensures s in Step(d, e).value.received <==> s in Gained(d, e) || (s in d.received && !Evicts(e, s))
  {
    hide BlockSound, Pass, TryRecover, Missing;
    match e
    case MediaEvent(p, order) =>
      ReceiveMediaSound(stream, d, p, order);
      var d1 := d.(received := Cleanup(d.received[p.seqNum := p], p.seqNum));
      PassSound(stream, d1, order, p.seqNum);
    case FecEvent(fec) =>
      ReceiveFecSound(stream, d, fec);
  }

  /** The number was gained at step k of the run, and no later arrival evicts it. */
  ghost predicate GainedLast(d: Decoder, es: seq<Event>, s: Seq16, k: nat)
    requires k < |es|
  {
    && Run(d, es[..k]).Some? && Step(Run(d, es[..k]).value, es[k]).Some?
    && s in Gained(Run(d, es[..k]).value, es[k])
    && forall j :: k < j < |es| ==> !Evicts(es[j], s)
  }

  ghost predicate GainedAndKept(d: Decoder, es: seq<Event>, s: Seq16) {
    exists k: nat :: k < |es| && GainedLast(d, es, s, k)
  }

  lemma GainedEarlier(d: Decoder, es: seq<Event>, s: Seq16, k: nat)
    requires k < |es| - 1
    ensures GainedLast(d, es, s, k) <==> GainedLast(d, es[..|es| - 1], s, k) && !Evicts(es[|es| - 1], s)
  {
    hide Run, Step, Gained, Evicts;
    var n := |es| - 1;
    assert es[..n][..k] == es[..k];
  }

  lemma GainedSnoc(d: Decoder, es: seq<Event>, s: Seq16)
    requires es != []
    ensures var n := |es| - 1;
            GainedAndKept(d, es, s) <==> GainedLast(d, es, s, n) || (GainedAndKept(d, es[..n], s) && !Evicts(es[n], s))
  {
    hide GainedLast, Evicts;
    var n := |es| - 1;
    if GainedAndKept(d, es, s) {
      var k: nat :| k < |es| && GainedLast(d, es, s, k);
      if k < n {
        GainedEarlier(d, es, s, k);
      }
    }
    if GainedAndKept(d, es[..n], s) && !Evicts(es[n], s) {
      var k: nat :| k < n && GainedLast(d, es[..n], s, k);
      GainedEarlier(d, es, s, k);
    }
  }

  /** After every run a packet is held, if and only if it arrived or was recovered and no later arrival lies more
      than 256 ahead of it on the circle. */
  lemma {:induction false} HeldIff(stream: Stream, es: seq<Event>, s: Seq16)
    requires Genuine(stream) && forall e <- es :: FromSender(stream, e)
    ensures Run(NOTHING, es).Some? && Sound(stream, Run(NOTHING, es).value)
    ensures s in Run(NOTHING, es).value.received <==> GainedAndKept(NOTHING, es, s)
  {
    if es == [] {
    } else {
      hide Sound, Step, Gained, Evicts, FromSender, GainedAndKept;
      var n := |es| - 1;
      assert es[n] in es;
      HeldIff(stream, es[..n], s);
      StepHolds(stream, Run(NOTHING, es[..n]).value, es[n], s);
      GainedSnoc(NOTHING, es, s);
    }
  }

  /** An older packet that arrives late evicts a newer one: a number just behind is almost the whole circle ahead. */
  lemma OlderEvictsNewer(p: RtpPacket, q: RtpPacket)
    requires Next(q.seqNum) == p.seqNum
    ensures var d := Run(NOTHING, [MediaEvent(p, []), MediaEvent(q, [])]);
            d.Some? && p.seqNum !in d.value.received && q.seqNum in d.value.received
  {
    var es := [MediaEvent(p, []), MediaEvent(q, [])];
    assert es[..1] == [MediaEvent(p, [])] && es[..1][..0] == [];
    var d1 := Decoder(map[], map[p.seqNum := p]);
    assert Ahead(p.seqNum, q.seqNum) == MODULUS - 1;
    assert Cleanup(map[][p.seqNum := p], p.seqNum) == map[p.seqNum := p];
    assert Run(NOTHING, es[..1]) == Some(d1);
    assert Run(NOTHING, es) == Step(d1, es[1]);
  }

  // ---- Nothing beyond the peeling closure

  /** The set has the numbers that arrived, and whatever a protected group lacks when it lacks one. */
  ghost predicate Closed(es: seq<Event>, known: set<Seq16>) {
    forall e <- es :: if e.MediaEvent? then e.p.seqNum in known else ClosedGroup(e.fec.protectedSeq, known)
  }

  ghost predicate ClosedGroup(group: seq<Seq16>, known: set<Seq16>) {
    forall m <- group :: Completes(group, known, m) ==> m in known
  }

  ghost predicate Completes(group: seq<Seq16>, known: set<Seq16>, m: Seq16) {
    forall s <- group :: s == m || s in known
  }

  ghost predicate FecKnown(es: seq<Event>, fec: FecPacket) {
    FecEvent(fec) in es
  }

  /** What the decoder and its blocks hold is in the set, and its blocks come from arrivals. */
  ghost predicate Within(es: seq<Event>, known: set<Seq16>, d: Decoder) {
    && d.received.Keys <= known
    && (forall base <- d.blocks :: BlockWithin(es, known, d.blocks[base]))
  }

  ghost predicate BlockWithin(es: seq<Event>, known: set<Seq16>, b: Block) {
    b.received.Keys <= known && FecKnown(es, b.fec)
  }

  lemma LastMissingIsKnown(stream: Stream, es: seq<Event>, known: set<Seq16>, b: Block)
    requires BlockSound(stream, b) && Closed(es, known) && BlockWithin(es, known, b) && |b.missing| == 1
    ensures b.missing[0] in known
  {
    hide Honest, Agrees, ClosedGroup, NoRepeat;
    var (m, group) := (b.missing[0], b.fec.protectedSeq);
    assert m in b.missing && forall s <- b.missing :: s == m;
    assert Completes(group, known, m) && m in group;
    hide BlockSound;
    assert ClosedGroup(group, known) by { assert FecEvent(b.fec) in es; }
    GroupCompleted(group, known, m);
  }

  lemma GroupCompleted(group: seq<Seq16>, known: set<Seq16>, m: Seq16)
    requires ClosedGroup(group, known) && m in group && Completes(group, known, m)
    ensures m in known
  {}

  lemma RecoveryWithin(stream: Stream, es: seq<Event>, known: set<Seq16>, received: map<Seq16, RtpPacket>, b: Block)
    requires Genuine(stream) && Agrees(stream, received) && BlockSound(stream, b) && Closed(es, known)
    requires received.Keys <= known && BlockWithin(es, known, b)
    ensures TryRecover(received, b).Some?
    ensures var (received', b', _) := TryRecover(received, b).value;
            received'.Keys <= known && BlockWithin(es, known, b')
  {
    hide Rebuild, Closed, BlockSound;
    TryRecoverSound(stream, received, b);
    if |b.missing| == 1 {
      LastMissingIsKnown(stream, es, known, b);
    }
  }

  lemma VisitWithin(stream: Stream, es: seq<Event>, known: set<Seq16>, d: Decoder, base: Seq16, newSeq: Seq16)
    requires Sound(stream, d) && Closed(es, known) && Within(es, known, d)
    ensures Visit(d, base, newSeq).Some? && Within(es, known, Visit(d, base, newSeq).value)
  {
    hide Closed, TryRecover, BlockSound;
    if base in d.blocks && !d.blocks[base].complete {
      var b := Refresh(d.blocks[base], d.received);
      RefreshSound(stream, d.blocks[base], d.received);
      RecoveryWithin(stream, es, known, d.received, b.(complete := b.missing == []));
    }
  }

  lemma {:induction false} PassWithin(stream: Stream, es: seq<Event>, known: set<Seq16>, d: Decoder,
                                      order: seq<Seq16>, newSeq: Seq16)
    requires Sound(stream, d) && Closed(es, known) && Within(es, known, d)
    ensures Pass(d, order, newSeq).Some? && Within(es, known, Pass(d, order, newSeq).value)
    decreases |order|
  {
    hide Closed, Within, Sound, Visit;
    if order == [] {
    } else {
      var n := |order| - 1;
      PassWithin(stream, es, known, d, order[..n], newSeq);
      PassSound(stream, d, order[..n], newSeq);
      VisitWithin(stream, es, known, Pass(d, order[..n], newSeq).value, order[n], newSeq);
    }
  }

  lemma StepWithin(stream: Stream, es: seq<Event>, known: set<Seq16>, d: Decoder, e: Event)
    requires Sound(stream, d) && FromSender(stream, e) && Closed(es, known) && Within(es, known, d) && e in es
    ensures Step(d, e).Some? && Within(es, known, Step(d, e).value)
  {
    match e
    case MediaEvent(p, order) =>
      var d1 := d.(received := Cleanup(d.received[p.seqNum := p], p.seqNum));
      assert Within(es, known, d1);
      assert Sound(stream, d1);
      hide Closed, Within, Sound;
      PassWithin(stream, es, known, d1, order, p.seqNum);
    case FecEvent(fec) =>
      hide Closed, Missing, TryRecover;
      NewBlockSound(stream, fec, d.received);
      hide BlockSound;
      var b := Block(fec, Have(fec.protectedSeq, d.received), Missing(fec.protectedSeq, d.received), false);
      RecoveryWithin(stream, es, known, d.received, b);
  }

  /** Nothing beyond the arrivals and their peeling closure is ever held: every set that has the arrived numbers and
      is closed under completing a protected group by its one missing number has all that is held. */
  lemma {:induction false} HeldIsReachable(stream: Stream, es: seq<Event>, n: nat, known: set<Seq16>)
    requires Genuine(stream) && (forall e <- es :: FromSender(stream, e)) && Closed(es, known) && n <= |es|
    ensures var d := Run(NOTHING, es[..n]);
            d.Some? && Sound(stream, d.value) && Within(es, known, d.value) && d.value.received.Keys <= known
  {
    if n == 0 {
      assert es[..0] == [];
    } else {
      HeldIsReachable(stream, es, n - 1, known);
      var d := Run(NOTHING, es[..n - 1]).value;
      assert es[..n][..n - 1] == es[..n - 1] && es[n - 1] in es;
      assert Run(NOTHING, es[..n]) == Step(d, es[n - 1]);
      hide Run, Closed, Sound, FromSender, Step;
      StepWithin(stream, es, known, d, es[n - 1]);
      StepHolds(stream, d, es[n - 1], 0);
    }
  }

  // ---- Sender to receiver

  lemma {:induction false} FlattenMember(blocks: seq<seq<RtpPacket>>, k: nat, i: nat) returns (j: nat)
    requires k < |blocks| && i < |blocks[k]|
    ensures |Enc.Flatten(blocks[..k])| + i == j < |Enc.Flatten(blocks)| && Enc.Flatten(blocks)[j] == blocks[k][i]
    decreases |blocks|
  {
    var n := |blocks| - 1;
    if k == n {
      j := |Enc.Flatten(blocks[..k])| + i;
    } else {
      assert blocks[..n][..k] == blocks[..k];
      j := FlattenMember(blocks[..n], k, i);
    }
  }

  /** The packets an encoder run was given, by sequence number. */
  ghost predicate StreamOf(stream: Stream, added: seq<RtpPacket>) {
    && NoRepeat(Numbers(added))
    && forall i :: 0 <= i < |added| ==> added[i].seqNum in stream && stream[added[i].seqNum] == added[i]
  }

  /** Every FEC packet an encoder run sends is honest about a stream without number reuse. */
  lemma SentIsHonest(stream: Stream, size: int, evs: seq<Enc.Event>, k: nat)
    requires StreamOf(stream, Enc.Run(size, evs).added) && k < |Enc.Run(size, evs).sent|
    ensures Honest(stream, Enc.Run(size, evs).sent[k])
  {
    hide Enc.Run, MaxLength, AbsorbAll, Enc.Flatten;
    var t := Enc.Run(size, evs);
    Enc.RunPartitions(size, evs);
    var block := t.blocks[k];
    var flat := Enc.Flatten(t.blocks);
    forall i | 0 <= i < |block| ensures block[i].seqNum in stream && stream[block[i].seqNum] == block[i] {
      var j := FlattenMember(t.blocks, k, i);
      assert t.added[j] == flat[j];
    }
    forall i, j | 0 <= i < j < |block| ensures Numbers(block)[i] != Numbers(block)[j] {
      var i' := FlattenMember(t.blocks, k, i);
      var j' := FlattenMember(t.blocks, k, j);
      assert t.added[i'] == flat[i'] && t.added[j'] == flat[j'];
      assert Numbers(t.added)[i'] != Numbers(t.added)[j'];
    }
    assert Picked(stream, Numbers(block)) == block;
  }

  /** End to end: a receiver fed any selection, in any order, of the media and FEC packets one
      encoder run produced never panics and holds only the sender's packets. */
  lemma EndToEnd(stream: Stream, size: int, evs: seq<Enc.Event>, es: seq<Event>)
    requires Genuine(stream) && StreamOf(stream, Enc.Run(size, evs).added)
    requires forall e <- es :: match e
                               case MediaEvent(p, _) => p in Enc.Run(size, evs).added
                               case FecEvent(fec) => fec in Enc.Run(size, evs).sent
    ensures Run(NOTHING, es).Some?
    ensures Agrees(stream, Run(NOTHING, es).value.received)
  {
    hide Enc.Run, Run, Honest;
    forall e | e in es ensures FromSender(stream, e) {
      match e
      case MediaEvent(p, _) =>
      case FecEvent(fec) =>
        var k :| 0 <= k < |Enc.Run(size, evs).sent| && Enc.Run(size, evs).sent[k] == fec;
        SentIsHonest(stream, size, evs, k);
    }
    RunIsExact(stream, NOTHING, es);
  }
}
