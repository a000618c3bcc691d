/** Whole runs of the jitter buffer: the window in every reachable state, playout order across
    wrap-around, and conservation of packets. */
module JitterRuns {
  import opened Basics
  import opened SequenceNumbers
  import opened PacketHeaps
  import opened Spec = JitterSpec

  /** `number` is the sender's own, never-wrapping number of the pushed packet. */
  datatype Event =
    | PushEvent(p: Packet, delay: int, number: int)
    | PopEvent(now: int)
    | PopBatchEvent(nows: seq<int>)
    | FlushEvent
    | ResetEvent

  /** A played-out packet, its unwrapped playout position, and the sender's number of the packet. */
  datatype Output = Output(packet: Packet, position: int, number: int)

  /** The buffer state with what an observer remembers: the unwrapped playout position, the sender's
      number last stored under each sequence number, the output so far and the packets flushed, all
      since the last Reset. */
  datatype Trace = Trace(st: State, position: int, numbers: map<Seq16, int>, outs: seq<Output>, flushed: nat)

  const START := Trace(EMPTY, 0, map[], [], 0)

  ghost function PushStep(c: Config, t: Trace, p: Packet, delay: int, number: int): Trace
    requires c.maxSize >= 1
  {
    var (st, accepted) := Push(c, t.st, p, delay);
    t.(st := st, position := if t.st.initialized then t.position else number,
       numbers := if accepted then t.numbers[p.seqNum := number] else t.numbers)
  }

  ghost function PopStep(c: Config, t: Trace, now: int): Trace {
    var (st, out) := Pop(c, t.st, now);
    if out.None? then t.(st := st)
    else
      var s := out.value.seqNum;
      var position := t.position + Ahead(t.st.next, s);
      var number := if s in t.numbers then t.numbers[s] else 0;
      t.(st := st, position := position + 1, outs := t.outs + [Output(out.value, position, number)])
  }

  ghost function PopBatchStep(c: Config, t: Trace, nows: seq<int>): Trace
    decreases |nows|
  {
    if nows == [] then t
    else if Pop(c, t.st, nows[0]).1.None? then PopStep(c, t, nows[0])
    else PopBatchStep(c, PopStep(c, t, nows[0]), nows[1..])
  }

  ghost function Step(c: Config, t: Trace, e: Event): Trace
    requires c.maxSize >= 1
  {
    match e
    case PushEvent(p, delay, number) => PushStep(c, t, p, delay, number)
    case PopEvent(now) => PopStep(c, t, now)
    case PopBatchEvent(nows) => PopBatchStep(c, t, nows)
    case FlushEvent => t.(st := Flush(t.st), flushed := t.flushed + |t.st.buf|)
    case ResetEvent => START.(st := Reset(t.st))
  }

  ghost function Run(c: Config, es: seq<Event>): Trace
    requires c.maxSize >= 1
  {
    if es == [] then START else Step(c, Run(c, es[..|es| - 1]), es[|es| - 1])
  }

  /** The batch step is PopBatch of the specification, observed. */
  lemma {:induction false} PopBatchStepIsPopBatch(c: Config, t: Trace, nows: seq<int>)
    ensures PopBatchStep(c, t, nows).st == PopBatch(c, t.st, nows).0
    decreases |nows|
  {
    if nows != [] {
      PopBatchStepIsPopBatch(c, PopStep(c, t, nows[0]), nows[1..]);
    }
  }

  ghost predicate StrictlyIncreasing(outs: seq<Output>) {
    forall i, j :: 0 <= i < j < |outs| ==> outs[i].position < outs[j].position
  }

  /** Positions are unwrappings of the sequence numbers with forward gaps of at most 2^15. */
  ghost predicate Unwraps(outs: seq<Output>) {
    && (forall i :: 0 <= i < |outs| ==> outs[i].position % MODULUS == outs[i].packet.seqNum)
    && (forall i :: 0 < i < |outs| ==> outs[i].position - outs[i - 1].position <= HALF)
  }

  ghost predicate Balanced(s: Stats, size: nat, flushed: nat) {
    s.packetsIn == s.packetsOut + s.dropped + s.late + s.duplicates + size + flushed
  }

  ghost predicate Inv(c: Config, t: Trace) {
    && Valid(c, t.st)
    && (t.st.initialized ==> t.position % MODULUS == t.st.next)
    && (!t.st.initialized ==> t.outs == [])
    && StrictlyIncreasing(t.outs) && Unwraps(t.outs)
    && (t.outs != [] ==> t.outs[|t.outs| - 1].position == t.position - 1)
    && Balanced(t.st.stats, |t.st.buf|, t.flushed)
  }

  /** Every event's packet carries its sender number modulo 2^16. */
  ghost predicate Numbered(es: seq<Event>) {
    forall i :: 0 <= i < |es| && es[i].PushEvent? ==> es[i].number % MODULUS == es[i].p.seqNum
  }

  lemma PushKeepsInv(c: Config, t: Trace, p: Packet, delay: int, number: int)
    requires c.maxSize >= 1 && Inv(c, t) && number % MODULUS == p.seqNum
    ensures Inv(c, PushStep(c, t, p, delay, number))
  {}

  lemma DeliverKeepsValid(c: Config, st: State, s: Seq16, now: int)
    requires Valid(c, st) && IsOldest(st.buf.Keys, st.next, s)
    ensures Valid(c, Deliver(c, st, s, now).0)
  {
    forall u | u in st.buf && u != s ensures Ahead(Next(s), u) == Ahead(st.next, u) - Ahead(st.next, s) - 1 {
    }
  }

  /** Adding the wrapped distance to an unwrapped position unwraps the sequence number. */
  lemma PositionUnwraps(position: int, next: Seq16, s: Seq16)
    requires position % MODULUS == next
    ensures (position + Ahead(next, s)) % MODULUS == s
    ensures (position + Ahead(next, s) + 1) % MODULUS == Next(s)
  {}

  lemma OutputKeepsOrder(outs: seq<Output>, o: Output)
    requires StrictlyIncreasing(outs) && Unwraps(outs) && o.position % MODULUS == o.packet.seqNum
    requires outs != [] ==> 0 < o.position - outs[|outs| - 1].position <= HALF
    ensures StrictlyIncreasing(outs + [o]) && Unwraps(outs + [o])
  {}

  lemma PopKeepsInv(c: Config, t: Trace, now: int)
    requires Inv(c, t)
    ensures Inv(c, PopStep(c, t, now))
  {
    hide StrictlyIncreasing, Unwraps, Oldest, IsOldest, Windowed;
    var (st, out) := Pop(c, t.st, now);
    if out.Some? {
      var s := if t.st.next in t.st.buf then t.st.next else Oldest(t.st.buf.Keys, t.st.next);
      if t.st.next in t.st.buf {
        DueIsOldest(t.st.buf, t.st.next);
      }
      AheadInWindow(t.st.buf, t.st.next, s);
      DeliverKeepsValid(c, t.st, s, now);
      PositionUnwraps(t.position, t.st.next, s);
      OutputKeepsOrder(t.outs, PopStep(c, t, now).outs[|t.outs|]);
    }
  }

  lemma {:induction false} PopBatchKeepsInv(c: Config, t: Trace, nows: seq<int>)
    requires Inv(c, t)
    ensures Inv(c, PopBatchStep(c, t, nows))
    decreases |nows|
  {
    hide Inv, PopStep;
    if nows != [] {
      PopKeepsInv(c, t, nows[0]);
      PopBatchKeepsInv(c, PopStep(c, t, nows[0]), nows[1..]);
    }
  }

  lemma NothingPlayedIsInOrder()
    ensures StrictlyIncreasing([]) && Unwraps([])
  {}

  /** Every reachable state satisfies the window, order and conservation invariants. */
  lemma {:induction false} RunKeepsInv(c: Config, es: seq<Event>)
    requires c.maxSize >= 1 && Numbered(es)
    ensures Inv(c, Run(c, es))
  {
    hide PushStep, PopStep, PopBatchStep, StrictlyIncreasing, Unwraps;
    if es == [] {
      NothingPlayedIsInOrder();
    } else {
      NothingPlayedIsInOrder();
      var t := Run(c, es[..|es| - 1]);
      RunKeepsInv(c, es[..|es| - 1]);
      match es[|es| - 1]
      case PushEvent(p, delay, number) => PushKeepsInv(c, t, p, delay, number);
      case PopEvent(now) => PopKeepsInv(c, t, now);
      case PopBatchEvent(nows) => PopBatchKeepsInv(c, t, nows);
      case FlushEvent =>
      case ResetEvent =>
    }
  }

  /** In every reachable state SeqLess is a strict total order on the buffered sequence numbers,
      which all lie in the half circle ahead of the playout position, and the size bound holds. */
  lemma WindowInEveryState(c: Config, es: seq<Event>)
    requires c.maxSize >= 1 && Numbered(es)
    ensures var st := Run(c, es).st;
            && Windowed(st.buf, st.next) && |st.buf| <= c.maxSize
            && (forall a <- st.buf :: !SeqLess(a, a))
            && (forall a <- st.buf, b <- st.buf :: a != b ==> (SeqLess(a, b) <==> !SeqLess(b, a)))
            && (forall a <- st.buf, b <- st.buf, d <- st.buf :: SeqLess(a, b) && SeqLess(b, d) ==> SeqLess(a, d))
  {
    RunKeepsInv(c, es);
  }

  /** Between Resets playout never repeats or reorders: the unwrapped positions of the packets
      popped strictly increase, across any number of wraps. */
  lemma PlayoutInOrder(c: Config, es: seq<Event>)
    requires c.maxSize >= 1 && Numbered(es)
    ensures StrictlyIncreasing(Run(c, es).outs) && Unwraps(Run(c, es).outs)
  {
    RunKeepsInv(c, es);
  }

  /** Since the last Reset, every Flush found the buffer empty. */
  ghost predicate FlushedOnlyWhenEmpty(c: Config, es: seq<Event>)
    requires c.maxSize >= 1
  {
    es != [] && !es[|es| - 1].ResetEvent? ==>
      && FlushedOnlyWhenEmpty(c, es[..|es| - 1])
      && (es[|es| - 1].FlushEvent? ==> Run(c, es[..|es| - 1]).st.buf == map[])
  }

  lemma {:induction false} PopBatchFlushesNothing(c: Config, t: Trace, nows: seq<int>)
    ensures PopBatchStep(c, t, nows).flushed == t.flushed
    decreases |nows|
  {
    hide Pop;
    if nows != [] {
      PopBatchFlushesNothing(c, PopStep(c, t, nows[0]), nows[1..]);
    }
  }

  lemma {:induction false} FlushedCount(c: Config, es: seq<Event>)
    requires c.maxSize >= 1
    ensures Run(c, es).flushed == 0 <==> FlushedOnlyWhenEmpty(c, es)
  {
    hide Pop, Push, PopBatchStep;
    if es != [] {
      FlushedCount(c, es[..|es| - 1]);
      if es[|es| - 1].PopBatchEvent? {
        PopBatchFlushesNothing(c, Run(c, es[..|es| - 1]), es[|es| - 1].nows);
      }
    }
  }

  /** Every packet pushed since the last Reset is accounted for: out, dropped, late, duplicate, still
      buffered, or flushed. The published counters alone balance exactly when no Flush found a packet
      in the buffer, because Flush counts the buffer after emptying it. */
  lemma Conservation(c: Config, es: seq<Event>)
    requires c.maxSize >= 1 && Numbered(es)
    ensures var t := Run(c, es);
            && Balanced(t.st.stats, |t.st.buf|, t.flushed)
            && (Balanced(t.st.stats, |t.st.buf|, 0) <==> FlushedOnlyWhenEmpty(c, es))
  {
    hide Run, FlushedOnlyWhenEmpty;
    RunKeepsInv(c, es);
    FlushedCount(c, es);
  }

  /** Each packet arrives less than half the circle from the playout position of the moment. */
  ghost predicate InReach(c: Config, es: seq<Event>)
    requires c.maxSize >= 1
  {
    es != [] ==>
      var t := Run(c, es[..|es| - 1]);
      var e := es[|es| - 1];
      && InReach(c, es[..|es| - 1])
      && (e.PushEvent? && t.st.initialized ==> t.position - HALF <= e.number < t.position + HALF)
  }

  ghost predicate Pushed(es: seq<Event>, p: Packet, number: int) {
    exists i :: 0 <= i < |es| && es[i].PushEvent? && es[i].p == p && es[i].number == number
  }

  ghost predicate Tracks(es: seq<Event>, t: Trace) {
    && (forall s <- t.st.buf :: s in t.numbers && t.numbers[s] == t.position + Ahead(t.st.next, s)
                                && Pushed(es, t.st.buf[s], t.numbers[s]))
    && (forall i :: 0 <= i < |t.outs| ==> t.outs[i].number == t.outs[i].position
                                          && Pushed(es, t.outs[i].packet, t.outs[i].number))
  }

  /** A number congruent to s and within half the circle of the position is its unwrapping. */
  lemma NumberFits(position: int, next: Seq16, s: Seq16, number: int)
    requires position % MODULUS == next && number % MODULUS == s && !SeqLess(s, next)
    requires position - HALF <= number < position + HALF
    ensures number == position + Ahead(next, s)
  {}

  lemma PushTracks(c: Config, es: seq<Event>, t: Trace, p: Packet, delay: int, number: int)
    requires c.maxSize >= 1 && Inv(c, t) && Tracks(es, t) && Pushed(es, p, number)
    requires number % MODULUS == p.seqNum
    requires t.st.initialized ==> t.position - HALF <= number < t.position + HALF
    ensures Tracks(es, PushStep(c, t, p, delay, number))
  {
    hide StrictlyIncreasing, Unwraps, Pushed, Balanced, Windowed, Oldest, IsOldest;
    var st := Open(t.st, p, delay);
    if p.seqNum !in st.buf && !SeqLess(p.seqNum, st.next) {
      NumberFits(PushStep(c, t, p, delay, number).position, st.next, p.seqNum, number);
    }
  }

  lemma AheadPast(next: Seq16, s: Seq16, u: Seq16)
    requires Ahead(next, s) < Ahead(next, u)
    ensures Ahead(Next(s), u) == Ahead(next, u) - Ahead(next, s) - 1
  {}

  lemma PopTracks(c: Config, es: seq<Event>, t: Trace, now: int)
    requires Inv(c, t) && Tracks(es, t)
    ensures Tracks(es, PopStep(c, t, now))
  {
    hide StrictlyIncreasing, Unwraps, Pushed, Oldest, IsOldest, Windowed, Balanced;
    var t' := PopStep(c, t, now);
    if Pop(c, t.st, now).1.Some? {
      var s := if t.st.next in t.st.buf then t.st.next else Oldest(t.st.buf.Keys, t.st.next);
      if t.st.next in t.st.buf {
        DueIsOldest(t.st.buf, t.st.next);
      }
      AheadInWindow(t.st.buf, t.st.next, s);
      RestIsLater(t.st.buf, t.st.next, s);
      forall u | u in t'.st.buf ensures t'.position + Ahead(t'.st.next, u) == t.position + Ahead(t.st.next, u) {
        AheadPast(t.st.next, s, u);
      }
    }
  }

  lemma {:induction false} PopBatchTracks(c: Config, es: seq<Event>, t: Trace, nows: seq<int>)
    requires Inv(c, t) && Tracks(es, t)
    ensures Tracks(es, PopBatchStep(c, t, nows))
    decreases |nows|
  {
    hide Inv, PopStep, Tracks;
    if nows != [] {
      PopKeepsInv(c, t, nows[0]);
      PopTracks(c, es, t, nows[0]);
      PopBatchTracks(c, es, PopStep(c, t, nows[0]), nows[1..]);
    }
  }

  lemma TracksMore(es: seq<Event>, e: Event, t: Trace)
    requires Tracks(es, t)
    ensures Tracks(es + [e], t)
  {
    forall p, n | Pushed(es, p, n) ensures Pushed(es + [e], p, n) {
      var i :| 0 <= i < |es| && es[i].PushEvent? && es[i].p == p && es[i].number == n;
      assert (es + [e])[i] == es[i];
    }
  }

  lemma EmptyTracks(es: seq<Event>, t: Trace)
    requires t.st.buf == map[] && (t.outs == [] || exists t0 :: Tracks(es, t0) && t.outs == t0.outs)
    ensures Tracks(es, t)
  {}

  lemma {:induction false} RunTracks(c: Config, es: seq<Event>)
    requires c.maxSize >= 1 && Numbered(es) && InReach(c, es)
    ensures Tracks(es, Run(c, es))
  {
    hide Inv, Tracks, PushStep, PopStep, PopBatchStep;
    if es == [] {
      EmptyTracks(es, START);
    } else {
      var n := |es| - 1;
      var t := Run(c, es[..n]);
      RunTracks(c, es[..n]);
      RunKeepsInv(c, es[..n]);
      TracksMore(es[..n], es[n], t);
      assert es[..n] + [es[n]] == es;
      match es[n]
      case PushEvent(p, delay, number) =>
        assert Pushed(es, p, number);
        PushTracks(c, es, t, p, delay, number);
      case PopEvent(now) => PopTracks(c, es, t, now);
      case PopBatchEvent(nows) => PopBatchTracks(c, es, t, nows);
      case FlushEvent => EmptyTracks(es, Run(c, es));
      case ResetEvent => EmptyTracks(es, Run(c, es));
    }
  }

  /** When arrivals stay within half the circle of playout, what is popped since the last Reset is
      exactly pushed packets, in strictly increasing order of the sender's own numbers. */
  lemma PlayoutFollowsSender(c: Config, es: seq<Event>)
    requires c.maxSize >= 1 && Numbered(es) && InReach(c, es)
    ensures var outs := Run(c, es).outs;
            && (forall i :: 0 <= i < |outs| ==> Pushed(es, outs[i].packet, outs[i].number))
            && (forall i, j :: 0 <= i < j < |outs| ==> outs[i].number < outs[j].number)
  {
    hide Run, Pushed, Valid, Unwraps;
    RunKeepsInv(c, es);
    RunTracks(c, es);
  }

  // ---- An arrival out of reach

  const THREE := Config(3, 0, 0)

  function Sent(number: int): Event
    requires number >= 0
  {
    PushEvent(Packet(number % MODULUS, 0, [], 0), 0, number)
  }

  /** Packet 65537 has the sequence number of packet 1, and overtakes packet 2. */
  function Overtaking(): seq<Event> {
    [Sent(0), Sent(MODULUS + 1), Sent(2)] + [PopEvent(0), PopEvent(20_000_000), PopEvent(40_000_000)]
  }

  lemma RunSnoc(c: Config, es: seq<Event>, e: Event)
    requires c.maxSize >= 1
    ensures Run(c, es + [e]) == Step(c, Run(c, es), e)
  {
    hide Step;
    assert (es + [e])[..|es|] == es;
  }

  /** The state with these packets buffered and this many played. */
  ghost predicate Holding(t: Trace, buffered: map<Seq16, Packet>, next: Seq16, playAt: int) {
    t.st.buf == buffered && t.st.next == next && t.st.initialized && t.st.playAt == playAt
  }

  lemma ThreeStored()
    ensures var t := Run(THREE, [Sent(0), Sent(MODULUS + 1), Sent(2)]);
            && Holding(t, map[0 := Sent(0).p, 1 := Sent(1).p, 2 := Sent(2).p], 0, 0)
            && t.numbers == map[0 := 0, 1 := MODULUS + 1, 2 := 2] && t.outs == []
  {
    hide Oldest;
    RunSnoc(THREE, [], Sent(0));
    RunSnoc(THREE, [Sent(0)], Sent(MODULUS + 1));
    RunSnoc(THREE, [Sent(0), Sent(MODULUS + 1)], Sent(2));
    assert [] + [Sent(0)] == [Sent(0)] && [Sent(0)] + [Sent(MODULUS + 1)] == [Sent(0), Sent(MODULUS + 1)];
    assert [Sent(0), Sent(MODULUS + 1)] + [Sent(2)] == [Sent(0), Sent(MODULUS + 1), Sent(2)];
    hide Run;
    var t1 := Run(THREE, [Sent(0)]);
    assert Holding(t1, map[0 := Sent(0).p], 0, 0) && t1.numbers == map[0 := 0];
    var t2 := Run(THREE, [Sent(0), Sent(MODULUS + 1)]);
    assert Holding(t2, map[0 := Sent(0).p, 1 := Sent(1).p], 0, 0) && t2.numbers == map[0 := 0, 1 := MODULUS + 1];
  }

  lemma PlaysDue(t: Trace, now: int)
    requires t.st.next in t.st.buf && t.st.buf[t.st.next].seqNum == t.st.next && t.st.next in t.numbers
    requires now >= t.st.playAt
    ensures var t' := PopStep(THREE, t, now);
            && t'.st.buf == t.st.buf - {t.st.next} && t'.st.next == Next(t.st.next) && t'.st.playAt == now + 20_000_000
            && t'.numbers == t.numbers && |t'.outs| == |t.outs| + 1 && t'.outs[..|t.outs|] == t.outs
            && t'.outs[|t.outs|].number == t.numbers[t.st.next]
  {
    hide Oldest;
  }

  /** An arrival half the circle or more away plays out of sender order: packet 65537 before packet 2. */
  lemma OutOfReachOvertakes()
    ensures Numbered(Overtaking()) && !InReach(THREE, Overtaking())
    ensures var outs := Run(THREE, Overtaking()).outs;
            |outs| == 3 && outs[0].number == 0 && outs[1].number == MODULUS + 1 && outs[2].number == 2
  {
    hide Run, PopStep, InReach;
    var sent := [Sent(0), Sent(MODULUS + 1), Sent(2)];
    var (e1, e2, e3) := (PopEvent(0), PopEvent(20_000_000), PopEvent(40_000_000));
    ThreeStored();
    var t := Run(THREE, sent);
    RunSnoc(THREE, sent, e1);
    RunSnoc(THREE, sent + [e1], e2);
    RunSnoc(THREE, sent + [e1] + [e2], e3);
    assert sent + [e1] + [e2] + [e3] == Overtaking();
    PlaysDue(t, 0);
    PlaysDue(Run(THREE, sent + [e1]), 20_000_000);
    PlaysDue(Run(THREE, sent + [e1] + [e2]), 40_000_000);
    var outs := Run(THREE, Overtaking()).outs;
    assert outs[..2][..1] == outs[..1];
    assert Numbered(Overtaking());
    if InReach(THREE, Overtaking()) {
      PlayoutFollowsSender(THREE, Overtaking());
    }
  }
}
