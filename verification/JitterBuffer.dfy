/** What the jitter buffer computes, stated over a plain map from sequence number to packet. */
module JitterSpec {
  import opened Basics
  import opened SequenceNumbers
  import opened PacketHeaps

  /** Delays are in nanoseconds; a zero clock rate selects the 20 ms default frame. */
  datatype Config = Config(maxSize: int, maxDelay: int, clockRate: nat)

  function FrameTime(c: Config): int {
    if c.clockRate > 0 then 1_000_000_000 / c.clockRate else 20_000_000
  }

  datatype Stats = Stats(packetsIn: nat, packetsOut: nat, dropped: nat, late: nat, duplicates: nat, reordered: nat)

  datatype State = State(buf: map<Seq16, Packet>, next: Seq16, initialized: bool, playAt: int, stats: Stats)

  const EMPTY := State(map[], 0, false, 0, Stats(0, 0, 0, 0, 0, 0))

  /** Every buffered packet lies less than half the circle ahead of the playout position. */
  ghost predicate Windowed(buf: map<Seq16, Packet>, next: Seq16) {
    forall s <- buf :: buf[s].seqNum == s && Ahead(next, s) < HALF
  }

  ghost predicate Valid(c: Config, st: State) {
    && Windowed(st.buf, st.next)
    && |st.buf| <= c.maxSize
    && (!st.initialized ==> st.buf == map[])
  }

  ghost predicate IsOldest(keys: set<Seq16>, next: Seq16, s: Seq16) {
    s in keys && forall t <- keys :: Ahead(next, s) <= Ahead(next, t)
  }

  lemma {:induction false} OldestExists(keys: set<Seq16>, next: Seq16)
    requires keys != {}
    ensures exists s :: IsOldest(keys, next, s)
  {
    var x :| x in keys;
    if keys == {x} {
      assert IsOldest(keys, next, x);
    } else {
      OldestExists(keys - {x}, next);
      var y :| IsOldest(keys - {x}, next, y);
      assert IsOldest(keys, next, if Ahead(next, y) < Ahead(next, x) then y else x);
    }
  }

  /** The buffered sequence number closest ahead of `next`. */
  ghost function Oldest(keys: set<Seq16>, next: Seq16): (s: Seq16)
    requires keys != {}
    ensures IsOldest(keys, next, s)
    ensures forall t :: IsOldest(keys, next, t) ==> t == s
  {
    OldestExists(keys, next);
    var s :| IsOldest(keys, next, s);
    s
  }

  /** Everything else in the buffer is further ahead than the oldest packet. */
  lemma RestIsLater(buf: map<Seq16, Packet>, next: Seq16, s: Seq16)
    requires IsOldest(buf.Keys, next, s)
    ensures forall t <- buf - {s} :: Ahead(next, s) < Ahead(next, t)
  {}

  lemma AheadInWindow(buf: map<Seq16, Packet>, next: Seq16, s: Seq16)
    requires Windowed(buf, next) && IsOldest(buf.Keys, next, s)
    ensures s in buf && buf[s].seqNum == s && Ahead(next, s) < HALF
  {}

  lemma DueIsOldest(buf: map<Seq16, Packet>, next: Seq16)
    requires next in buf
    ensures IsOldest(buf.Keys, next, next)
  {}

  /** What every Push does first: count the packet and, if it is the first, start playout at it. */
  function Open(st: State, p: Packet, delay: int): State {
    var st1 := st.(stats := st.stats.(packetsIn := st.stats.packetsIn + 1));
    if st.initialized then st1
    else st1.(next := p.seqNum, initialized := true, playAt := p.receivedAt + delay)
  }

  /** Duplicate, late, or stored, in that order. */
  ghost function Admit(c: Config, st: State, p: Packet): (State, bool)
    requires c.maxSize >= 1
  {
    if p.seqNum in st.buf then
      (st.(stats := st.stats.(duplicates := st.stats.duplicates + 1)), false)
    else if SeqLess(p.seqNum, st.next) then
      (st.(stats := st.stats.(late := st.stats.late + 1)), false)
    else
      (Store(c, st, p), true)
  }

  /** Stores p, first dropping the oldest packet of a full buffer. */
  ghost function Store(c: Config, st: State, p: Packet): State
    requires c.maxSize >= 1
  {
    var st1 := if |st.buf| < c.maxSize then st
               else st.(buf := st.buf - {Oldest(st.buf.Keys, st.next)},
                        stats := st.stats.(dropped := st.stats.dropped + 1));
    st1.(buf := st1.buf[p.seqNum := p],
         stats := if p.seqNum == st.next then st1.stats
                  else st1.stats.(reordered := st1.stats.reordered + 1))
  }

  ghost function Push(c: Config, st: State, p: Packet, delay: int): (State, bool)
    requires c.maxSize >= 1
  {
    Admit(c, Open(st, p, delay), p)
  }

  /** Push would take the oldest packet out of an empty heap, which panics in the source. */
  predicate PopsEmpty(c: Config, st: State, p: Packet, delay: int) {
    var st1 := Open(st, p, delay);
    p.seqNum !in st1.buf && !SeqLess(p.seqNum, st1.next) && |st1.buf| >= c.maxSize && st1.buf == map[]
  }

  /** No Push takes from an empty heap, if and only if there is room for a packet; otherwise the first one does. */
  lemma NeverPopsEmptyIff(c: Config, p: Packet, delay: int)
    ensures (forall st, q, d :: !PopsEmpty(c, st, q, d)) <==> c.maxSize >= 1
    ensures c.maxSize < 1 ==> PopsEmpty(c, EMPTY, p, delay)
  {
    if c.maxSize < 1 {
      assert Open(EMPTY, p, delay).next == p.seqNum;
      assert PopsEmpty(c, EMPTY, p, delay);
    }
  }

  ghost function Pop(c: Config, st: State, now: int): (State, Option<Packet>) {
    if st.buf == map[] || now < st.playAt then (st, None)
    else if st.next in st.buf then Deliver(c, st, st.next, now)
    else if now - st.playAt > c.maxDelay then Deliver(c, st, Oldest(st.buf.Keys, st.next), now)
    else (st, None)
  }

  /** Plays out packet s and moves the playout position just past it. */
  function Deliver(c: Config, st: State, s: Seq16, now: int): (State, Option<Packet>)
    requires s in st.buf
  {
    (st.(buf := st.buf - {s}, next := Next(s), playAt := now + FrameTime(c),
         stats := st.stats.(packetsOut := st.stats.packetsOut + 1)),
     Some(st.buf[s]))
  }

  /** Flush counts the heap after emptying it, so `dropped` never grows. */
  ghost function Flush(st: State): State {
    st.(buf := map[])
  }

  /** Reset keeps `next` and `playAt`; the next Push overwrites both. */
  ghost function Reset(st: State): State {
    State(map[], st.next, false, st.playAt, Stats(0, 0, 0, 0, 0, 0))
  }

  ghost function Data(batch: seq<BufferedPacket>): seq<Packet> {
    seq(|batch|, i requires 0 <= i < |batch| => batch[i].data)
  }

  /** Up to |nows| Pops at the given times, stopping at the first that yields nothing. */
  ghost function PopBatch(c: Config, st: State, nows: seq<int>): (State, seq<Packet>)
    decreases |nows|
  {
    if nows == [] then (st, [])
    else
      var (st1, out) := Pop(c, st, nows[0]);
      if out.None? then (st1, [])
      else
        var (st2, rest) := PopBatch(c, st1, nows[1..]);
        (st2, [out.value] + rest)
  }
}

/** The jitter buffer itself: heap, index map and counters, updated in place. */
module JitterBuffers {
  import opened Basics
  import opened SequenceNumbers
  import opened PacketHeaps
  import Spec = JitterSpec

  /** packetMap holds exactly the heap's packets, each under its own sequence number. */
  ghost predicate Mapped(items: seq<BufferedPacket>, packetMap: map<Seq16, BufferedPacket>) {
    && |packetMap| == |items|
    && (forall i :: 0 <= i < |items| ==>
          items[i].data.seqNum in packetMap && packetMap[items[i].data.seqNum] == items[i])
    && (forall s <- packetMap :: packetMap[s].data.seqNum == s && packetMap[s] in items)
  }

  /** `contents` is what packetMap says, without the packet objects. */
  ghost predicate Describes(contents: map<Seq16, Packet>, packetMap: map<Seq16, BufferedPacket>) {
    && contents.Keys == packetMap.Keys
    && forall s <- packetMap :: packetMap[s].data == contents[s]
  }

  lemma MappedWithout(items: seq<BufferedPacket>, pkt: BufferedPacket, before: seq<BufferedPacket>,
                      packetMap: map<Seq16, BufferedPacket>, contents: map<Seq16, Packet>)
    requires Permuted(items + [pkt], before) && pkt !in items
    requires Mapped(before, packetMap) && Describes(contents, packetMap)
    ensures |items| + 1 == |before| && (packetMap - {pkt.data.seqNum}).Keys <= packetMap.Keys
    ensures pkt.data.seqNum in contents && contents[pkt.data.seqNum] == pkt.data
    ensures Mapped(items, packetMap - {pkt.data.seqNum})
    ensures Describes(contents - {pkt.data.seqNum}, packetMap - {pkt.data.seqNum})
  {
    PermutedOut(items, pkt, before);
    forall i | 0 <= i < |items|
      ensures items[i].data.seqNum in packetMap && packetMap[items[i].data.seqNum] == items[i]
    {
      assert items[i] in before;
    }
  }

  lemma MappedWith(items: seq<BufferedPacket>, pkt: BufferedPacket, before: seq<BufferedPacket>,
                   packetMap: map<Seq16, BufferedPacket>, contents: map<Seq16, Packet>)
    requires Permuted(items, before + [pkt])
    requires pkt.data.seqNum !in packetMap && Mapped(before, packetMap) && Describes(contents, packetMap)
    ensures |items| == |before| + 1
    ensures Mapped(items, packetMap[pkt.data.seqNum := pkt])
    ensures Describes(contents[pkt.data.seqNum := pkt.data], packetMap[pkt.data.seqNum := pkt])
  {
    PermutedOut(before, pkt, items);
    forall i | 0 <= i < |items| ensures items[i] == pkt || items[i] in before {
      assert items[i] in items;
    }
  }

  lemma EmptyHeap(base: Seq16)
    ensures InWindow([], base) && Ordered([], base, 0)
  {}

  class JitterBuffer {
    const config: Spec.Config
    const packets: PacketHeap
    var packetMap: map<Seq16, BufferedPacket>
    var nextExpected: Seq16
    var initialized: bool
    var lastPlayTime: int
    var stats: Spec.Stats
    ghost var contents: map<Seq16, Packet>

    constructor (config: Spec.Config)
      requires config.maxSize >= 1
      ensures Valid() && View() == Spec.EMPTY && fresh(packets) && fresh(packets.nodes) && this.config == config
    {
      this.config := config;
      packets := new PacketHeap();
      packetMap, contents := map[], map[];
      nextExpected, initialized, lastPlayTime := 0, false, 0;
      stats := Spec.Stats(0, 0, 0, 0, 0, 0);
    }

    ghost predicate Valid()
      reads this`packetMap, this`contents, this`nextExpected, this`initialized, packets, packets.nodes
    {
      && config.maxSize >= 1
      && packets.Valid(nextExpected)
      && Mapped(packets.items, packetMap)
      && Describes(contents, packetMap)
      && |packets.items| <= config.maxSize
      && (!initialized ==> packets.items == [])
    }

    ghost function View(): Spec.State
      reads this
    {
      Spec.State(contents, nextExpected, initialized, lastPlayTime, stats)
    }

    /** What a valid buffer's contents look like: one entry per heap item, keyed by sequence
        number, all less than half the circle ahead of the playout position. */
    lemma ContentsInWindow()
      requires Valid()
      ensures |contents| == |packets.items| && contents.Keys == packetMap.Keys
      ensures Spec.Windowed(contents, nextExpected)
    {
      assert |contents.Keys| == |packetMap.Keys|;
    }

    lemma OldestIsRoot()
      requires Valid() && packets.items != []
      ensures contents.Keys != {}
      ensures packets.items[0].data.seqNum == Spec.Oldest(contents.Keys, nextExpected)
    {
      var s := packets.items[0].data.seqNum;
      RootIsOldestOfAll(packets.items, nextExpected);
      assert Spec.IsOldest(contents.Keys, nextExpected, s);
    }

    /** Each mapped packet's index field is its heap position. */
    lemma IndexIsPosition(s: Seq16)
      requires Valid() && s in packetMap
      ensures packetMap[s].data.seqNum == s
      ensures 0 <= packetMap[s].index < |packets.items| && packets.items[packetMap[s].index] == packetMap[s]
    {
      var i :| 0 <= i < |packets.items| && packets.items[i] == packetMap[s];
      assert packets.items[i].index == i;
    }

    /** Deletes the mapping of a packet that has just left the heap. */
    method Forget(pkt: BufferedPacket, ghost before: seq<BufferedPacket>)
      requires config.maxSize >= 1 && initialized && packets.Valid(nextExpected)
      requires Permuted(packets.items + [pkt], before) && pkt !in packets.items
      requires Mapped(before, packetMap) && Describes(contents, packetMap) && |before| <= config.maxSize
      modifies this`packetMap, this`contents
      ensures Valid() && |packets.items| == |before| - 1
      ensures packetMap.Keys <= old(packetMap).Keys && contents == old(contents) - {pkt.data.seqNum}
      ensures pkt.data.seqNum in old(contents) && old(contents)[pkt.data.seqNum] == pkt.data
    {
      hide PacketHeap.Valid, Permuted, Mapped, Describes;
      MappedWithout(packets.items, pkt, before, packetMap, contents);
      packetMap := packetMap - {pkt.data.seqNum};
      contents := contents - {pkt.data.seqNum};
    }

    /** heap.Pop plus the map deletion: removes the oldest packet. */
    method TakeOldest() returns (pkt: BufferedPacket)
      requires Valid() && packets.items != []
      modifies this`packetMap, this`contents, packets`items, packets.nodes
      ensures Valid() && old(contents) != map[] && |packets.items| == |old(packets.items)| - 1
      ensures packetMap.Keys <= old(packetMap).Keys
      ensures var s := Spec.Oldest(old(contents).Keys, nextExpected);
              pkt.data == old(contents)[s] && contents == old(contents) - {s}
    {
      hide PacketHeap.Valid, Permuted, Mapped, Describes, Spec.Oldest, Spec.IsOldest;
      OldestIsRoot();
      ghost var before := packets.items;
      pkt := packets.Pop(nextExpected);
      Forget(pkt, before);
    }

    /** heap.Remove plus the map deletion: removes the packet due at the playout position. */
    method TakeExpected() returns (pkt: BufferedPacket)
      requires Valid() && nextExpected in packetMap
      modifies this`packetMap, this`contents, packets`items, packets.nodes
      ensures Valid() && nextExpected in old(contents)
      ensures pkt.data == old(contents)[nextExpected] && contents == old(contents) - {nextExpected}
    {
      hide PacketHeap.Valid, Permuted, Mapped, Describes;
      ghost var before := packets.items;
      IndexIsPosition(nextExpected);
      pkt := packets.Remove(packetMap[nextExpected].index, nextExpected);
      Forget(pkt, before);
    }

    /** Pushes a new packet object onto the heap and maps it. */
    method Insert(p: Packet)
      requires Valid() && initialized && |packets.items| < config.maxSize
      requires p.seqNum !in packetMap && Ahead(nextExpected, p.seqNum) < HALF
      modifies this`packetMap, this`contents, packets, packets.nodes
      ensures Valid() && fresh(packets.nodes - old(packets.nodes))
      ensures contents == old(contents)[p.seqNum := p]
    {
      hide Permuted, Mapped, Describes;
      var pkt := new BufferedPacket(p);
      ghost var before := packets.items;
      packets.Push(pkt, nextExpected);
      MappedWith(packets.items, pkt, before, packetMap, contents);
      packetMap := packetMap[p.seqNum := pkt];
      contents := contents[p.seqNum := p];
    }

    /** The heap is ordered from the position after s as it was before. */
    lemma HeapRebased(s: Seq16)
      requires Valid() && Ahead(nextExpected, s) < HALF
      requires forall t <- contents :: Ahead(nextExpected, s) < Ahead(nextExpected, t)
      ensures packets.Valid(Next(s))
    {
      hide InWindow, Ordered;
      EmptyHeap(Next(s));
      if packets.items != [] {
        assert Ahead(nextExpected, Next(s)) == Ahead(nextExpected, s) + 1;
        forall p | p in packets.items ensures Ahead(nextExpected, Next(s)) <= Rank(nextExpected, p) {
          assert p.data.seqNum in contents;
        }
        Rebase(packets.items, nextExpected, Next(s));
      }
    }

    /** Moves the playout position just past a packet older than all that remain. */
    method Advance(s: Seq16, now: int)
      requires Valid() && initialized && Ahead(nextExpected, s) < HALF
      requires forall t <- contents :: Ahead(nextExpected, s) < Ahead(nextExpected, t)
      modifies this`nextExpected, this`stats, this`lastPlayTime
      ensures Valid()
      ensures View() == old(View()).(next := Next(s), playAt := now + Spec.FrameTime(config),
                                     stats := old(stats).(packetsOut := old(stats).packetsOut + 1))
    {
      HeapRebased(s);
      hide PacketHeap.Valid, Mapped, Describes;
      nextExpected := Next(s);
      stats := stats.(packetsOut := stats.packetsOut + 1);
      lastPlayTime := now + Spec.FrameTime(config);
    }

    method Open(p: Packet, delay: int)
      requires Valid()
      modifies this`stats, this`nextExpected, this`initialized, this`lastPlayTime
      ensures Valid() && initialized && View() == Spec.Open(old(View()), p, delay)
    {
      stats := stats.(packetsIn := stats.packetsIn + 1);
      if !initialized {
        nextExpected := p.seqNum;
        initialized := true;
        lastPlayTime := p.receivedAt + delay;
      }
    }

    method Store(p: Packet)
      requires Valid() && initialized && p.seqNum !in packetMap && !SeqLess(p.seqNum, nextExpected)
      modifies this`packetMap, this`contents, this`stats, packets, packets.nodes
      ensures Valid() && fresh(packets.nodes - old(packets.nodes))
      ensures View() == Spec.Store(config, old(View()), p)
    {
      hide PacketHeap.Valid, Mapped, Describes, Spec.Windowed, Spec.Oldest, Spec.IsOldest;
      ContentsInWindow();
      if |packets.items| >= config.maxSize {
        var oldest := TakeOldest();
        stats := stats.(dropped := stats.dropped + 1);
      }
      Insert(p);
      if p.seqNum != nextExpected && SeqLess(nextExpected, p.seqNum) {
        stats := stats.(reordered := stats.reordered + 1);
      }
    }

    method Push(p: Packet, delay: int) returns (accepted: bool)
      requires Valid()
      modifies this, packets, packets.nodes
      ensures Valid() && fresh(packets.nodes - old(packets.nodes))
      ensures (View(), accepted) == Spec.Push(config, old(View()), p, delay)
    {
      hide PacketHeap.Valid, Mapped, Describes;
      Open(p, delay);
      ContentsInWindow();
      if p.seqNum in packetMap {
        stats := stats.(duplicates := stats.duplicates + 1);
        return false;
      }
      if SeqLess(p.seqNum, nextExpected) {
        stats := stats.(late := stats.late + 1);
        return false;
      }
      Store(p);
      return true;
    }

    method PlayExpected(now: int) returns (pkt: BufferedPacket)
      requires Valid() && initialized && nextExpected in packetMap
      modifies this, packets`items, packets.nodes
      ensures Valid() && old(nextExpected) in old(contents)
      ensures (View(), Some(pkt.data)) == Spec.Deliver(config, old(View()), old(nextExpected), now)
    {
      hide PacketHeap.Valid, Mapped, Describes, Spec.IsOldest, Spec.Windowed;
      ContentsInWindow();
      Spec.DueIsOldest(contents, nextExpected);
      Spec.AheadInWindow(contents, nextExpected, nextExpected);
      Spec.RestIsLater(contents, nextExpected, nextExpected);
      pkt := TakeExpected();
      Advance(pkt.data.seqNum, now);
    }

    method PlayOldest(now: int) returns (pkt: BufferedPacket)
      requires Valid() && initialized && packets.items != []
      modifies this, packets`items, packets.nodes
      ensures Valid() && old(contents) != map[]
      ensures (View(), Some(pkt.data)) ==
              Spec.Deliver(config, old(View()), Spec.Oldest(old(contents).Keys, old(nextExpected)), now)
    {
      hide PacketHeap.Valid, Mapped, Describes, Spec.Oldest, Spec.IsOldest, Spec.Windowed;
      ContentsInWindow();
      assert contents.Keys != {} by { OldestIsRoot(); }
      ghost var s := Spec.Oldest(contents.Keys, nextExpected);
      Spec.AheadInWindow(contents, nextExpected, s);
      Spec.RestIsLater(contents, nextExpected, s);
      pkt := TakeOldest();
      Advance(pkt.data.seqNum, now);
    }

    method Pop(now: int) returns (pkt: BufferedPacket?, ok: bool)
      requires Valid()
      modifies this, packets`items, packets.nodes
      ensures Valid()
      ensures ok <==> pkt != null
      ensures (View(), if pkt == null then None else Some(pkt.data)) == Spec.Pop(config, old(View()), now)
    {
      hide PacketHeap.Valid, Mapped, Describes, Spec.Oldest, Spec.IsOldest, Spec.Windowed, Spec.Deliver;
      ContentsInWindow();
      if |packets.items| == 0 || now < lastPlayTime {
        return null, false;
      }
      if nextExpected in packetMap {
        pkt := PlayExpected(now);
        return pkt, true;
      }
      if now - lastPlayTime > config.maxDelay {
        pkt := PlayOldest(now);
        return pkt, true;
      }
      return null, false;
    }

    /** Repeated Pops at the given times, until maxPackets or the first that yields nothing. */
    method PopBatch(maxPackets: int, nows: seq<int>) returns (batch: seq<BufferedPacket>)
      requires Valid() && |nows| == (if maxPackets > 0 then maxPackets else 0)
      modifies this, packets`items, packets.nodes
      ensures Valid()
      ensures (View(), Spec.Data(batch)) == Spec.PopBatch(config, old(View()), nows)
    {
      hide PacketHeap.Valid, Mapped, Describes, Spec.Pop;
      batch := [];
      var i := 0;
      assert nows[0..] == nows && Spec.Data([]) == [];
      assert [] + Spec.PopBatch(config, View(), nows).1 == Spec.PopBatch(config, View(), nows).1;
      while i < maxPackets
        invariant 0 <= i <= |nows|
        invariant Valid()
        invariant var rest := Spec.PopBatch(config, View(), nows[i..]);
                  Spec.PopBatch(config, old(View()), nows) == (rest.0, Spec.Data(batch) + rest.1)
      {
        ghost var before := View();
        var pkt, ok := Pop(nows[i]);
        assert nows[i..][1..] == nows[i + 1..];
        ghost var (next, rest) := Spec.PopBatch(config, View(), nows[i + 1..]);
        assert Spec.PopBatch(config, before, nows[i..]) ==
               if ok then (next, [pkt.data] + rest) else (View(), []);
        if !ok {
          assert Spec.Data(batch) + [] == Spec.Data(batch);
          return;
        }
        assert Spec.Data(batch) + ([pkt.data] + rest) == (Spec.Data(batch) + [pkt.data]) + rest;
        assert Spec.Data(batch + [pkt]) == Spec.Data(batch) + [pkt.data];
        batch := batch + [pkt];
        i := i + 1;
      }
      assert Spec.Data(batch) + [] == Spec.Data(batch);
    }

    method Flush()
      requires Valid()
      modifies this`packetMap, this`contents, this`stats, packets`items
      ensures Valid() && View() == Spec.Flush(old(View()))
    {
      packets.items := [];
      packetMap, contents := map[], map[];
      stats := stats.(dropped := stats.dropped + |packets.items|);
    }

    method Reset()
      requires Valid()
      modifies this, packets`items
      ensures Valid() && View() == Spec.Reset(old(View()))
    {
      packets.items := [];
      packetMap, contents := map[], map[];
      initialized := false;
      stats := Spec.Stats(0, 0, 0, 0, 0, 0);
    }
  }
}
