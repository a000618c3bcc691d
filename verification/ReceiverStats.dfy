/** Receiver statistics: the extended highest sequence number and the loss count, with the source's
    machine integers written out. */
module ReceiverStats {
  import opened Basics

  const M16: int := 0x1_0000
  const M32: int := 0x1_0000_0000

  datatype Stats = Stats(packetsRecv: int, packetsLost: int, lastSeq: int, highestSeq: int, seqCycles: int)

  function New(): Stats {
    Stats(0, 0, 0, 0, 0)
  }

  function Int32(x: int): int {
    (x + 0x8000_0000) % M32 - 0x8000_0000
  }

  /** packetsLost after a packet, from the highest number so far; the cycle count is cut to 16 bits. */
  function Lost(s: Stats): int {
    var expectedSeq := (s.highestSeq + s.seqCycles * M16 % M32 % M16) % M16;
    var lost := Int32(Int32(expectedSeq - s.lastSeq + 1) - Int32(s.packetsRecv + 1));
    if lost < 0 then 0 else lost
  }

  function Follow(s: Stats, seqNum: int): Stats {
    var diff := seqNum - s.highestSeq;
    if diff > 0 then s.(highestSeq := seqNum)
    else if diff < -32768 then s.(highestSeq := seqNum, seqCycles := (s.seqCycles + 1) % M32)
    else s
  }

  function Update(s: Stats, seqNum: int): Stats {
    var s1 := if s.packetsRecv == 0 then s.(highestSeq := seqNum, lastSeq := seqNum)
              else var f := Follow(s, seqNum); f.(packetsLost := Lost(f));
    s1.(packetsRecv := (s.packetsRecv + 1) % M32)
  }

  function Extended(s: Stats): int {
    (s.highestSeq + s.seqCycles * M16) % M32
  }

  class ReceiverSession {
    var packetsRecv: int
    var packetsLost: int
    var lastSeq: int
    var highestSeq: int
    var seqCycles: int

    constructor ()
      ensures View() == New()
    {
      packetsRecv, packetsLost, lastSeq, highestSeq, seqCycles := 0, 0, 0, 0, 0;
    }

    function View(): Stats
      reads this
    {
      Stats(packetsRecv, packetsLost, lastSeq, highestSeq, seqCycles)
    }

    method UpdateReceiverStats(seqNum: int)
      requires 0 <= seqNum < M16
      modifies this
      ensures View() == Update(old(View()), seqNum)
    {
      if packetsRecv == 0 {
        highestSeq := seqNum;
        lastSeq := seqNum;
      } else {
        var diff := seqNum - highestSeq;
        if diff > 0 {
          highestSeq := seqNum;
        } else if diff < -32768 {
          seqCycles := (seqCycles + 1) % M32;
          highestSeq := seqNum;
        }
        var expectedSeq := (highestSeq + seqCycles * M16 % M32 % M16) % M16;
        var expected := Int32(expectedSeq - lastSeq + 1);
        var received := Int32(packetsRecv + 1);
        packetsLost := Int32(expected - received);
        if packetsLost < 0 {
          packetsLost := 0;
        }
      }
      packetsRecv := (packetsRecv + 1) % M32;
    }

    /** The extended number in the report: whatever unwrapped number the fields stand for, modulo 2^32. */
    method ExtendedHighest() returns (ext: int)
      ensures forall u: nat :: Tracks(View(), u) ==> ext == u % M32
    {
      ext := (highestSeq + seqCycles * M16) % M32;
      forall u: nat | Tracks(View(), u) ensures ext == u % M32 {
        TracksExtended(View(), u);
      }
    }
  }

  // ---- Following the unwrapped numbers

  /** The fields stand for the unwrapped number u. */
  ghost predicate Tracks(s: Stats, u: nat) {
    s.highestSeq == u % M16 && s.seqCycles == u / M16 % M32
  }

  lemma TracksExtended(s: Stats, u: nat)
    requires Tracks(s, u)
    ensures Extended(s) == u % M32
  {
    var c := u / M16;
    assert c == c / M32 * M32 + c % M32;
    assert u == c * M16 + u % M16;
    assert s.highestSeq + s.seqCycles * M16 == u - c / M32 * M32 * M16;
  }

  /** The unwrapped number the code stands at after highest u and a packet v. */
  function Followed(u: nat, v: nat): nat {
    var diff := v % M16 - u % M16;
    if diff > 0 then u / M16 * M16 + v % M16
    else if diff < -32768 then (u / M16 + 1) * M16 + v % M16
    else u
  }

  lemma FollowTracks(s: Stats, u: nat, v: nat)
    requires Tracks(s, u)
    ensures Tracks(Follow(s, v % M16), Followed(u, v))
  {}

  function Max(u: nat, v: nat): nat {
    if u < v then v else u
  }

  /** When the code keeps up: a packet ahead by less than 2^15 or within the same cycle; a late packet from
      the same cycle, at most 2^15 behind. */
  predicate Trackable(u: nat, v: nat) {
    if v >= u then v - u < 0x8000 || v / M16 == u / M16
    else v / M16 == u / M16 && u - v <= 0x8000
  }

  lemma FollowedIff(u: nat, v: nat)
    requires -M16 < v - u < M16
    ensures Followed(u, v) == Max(u, v) <==> Trackable(u, v)
    ensures -M16 <= Followed(u, v) - Max(u, v) <= M16
  {}

  /** One packet less than 2^16 away from the highest: the reported extended number is the higher of the
      two modulo 2^32, if and only if the packet is trackable. */
  lemma StepExactIff(s: Stats, u: nat, v: nat)
    requires Tracks(s, u) && s.packetsRecv != 0 && -M16 < v - u < M16
    ensures Extended(Update(s, v % M16)) == Max(u, v) % M32 <==> Trackable(u, v)
  {
    hide Lost, Followed, Trackable, Extended;
    FollowTracks(s, u, v);
    FollowedIff(u, v);
    TracksExtended(Update(s, v % M16), Followed(u, v));
    NearAndCongruent(Followed(u, v), Max(u, v));
  }

  lemma NearAndCongruent(a: nat, b: nat)
    requires -M32 < a - b < M32
    ensures a % M32 == b % M32 <==> a == b
  {}

  /** When the packet counter has wrapped to zero the next packet counts as the first again: the number is
      right if and only if it is no lower and still in the same cycle. */
  lemma CounterWrapIff(s: Stats, u: nat, v: nat)
    requires Tracks(s, u) && s.packetsRecv == 0 && -M16 < v - u < M16
    ensures Extended(Update(s, v % M16)) == Max(u, v) % M32 <==> v >= u && v / M16 == u / M16
  {
    hide Extended, Update, Tracks;
    var w := Restarted(u, v);
    RestartTracks(s, u, v);
    TracksExtended(Update(s, v % M16), w);
    RestartedIff(u, v);
    hide Restarted;
    NearAndCongruent(w, Max(u, v));
  }

  /** The unwrapped number the code stands at when v starts the counter again. */
  function Restarted(u: nat, v: nat): nat {
    u / M16 * M16 + v % M16
  }

  lemma RestartTracks(s: Stats, u: nat, v: nat)
    requires Tracks(s, u) && s.packetsRecv == 0
    ensures Tracks(Update(s, v % M16), Restarted(u, v))
  {
    assert Restarted(u, v) / M16 == u / M16 && Restarted(u, v) % M16 == v % M16;
  }

  lemma RestartedIff(u: nat, v: nat)
    requires -M16 < v - u < M16
    ensures Restarted(u, v) == Max(u, v) <==> v >= u && v / M16 == u / M16
    ensures -M32 < Restarted(u, v) - Max(u, v) < M32
  {
    assert u == u / M16 * M16 + u % M16 && v == v / M16 * M16 + v % M16;
  }

  // ---- Whole streams of unwrapped numbers

  function Feed(us: seq<nat>): Stats {
    if us == [] then New() else Update(Feed(us[..|us| - 1]), us[|us| - 1] % M16)
  }

  function Highest(us: seq<nat>): nat
    requires us != []
  {
    if |us| == 1 then us[0] else Max(Highest(us[..|us| - 1]), us[|us| - 1])
  }

  /** Whether the code keeps up with packet i: every 2^32 packets the counter starts again. */
  predicate Followable(i: nat, u: nat, v: nat) {
    if i % M32 == 0 then v >= u && v / M16 == u / M16 else Trackable(u, v)
  }

  /** The first number is in cycle zero, and no packet is 2^16 or more away from the highest so far. */
  ghost predicate Near(us: seq<nat>) {
    && us != [] && us[0] < M16
    && forall i :: 0 < i < |us| ==> -M16 < us[i] - Highest(us[..i]) < M16
  }

  /** Every packet after the first can be followed. */
  ghost predicate Stream(us: seq<nat>) {
    Near(us) && forall i :: 0 < i < |us| ==> Followable(i, Highest(us[..i]), us[i])
  }

  lemma StreamPrefix(us: seq<nat>)
    requires us != [] && |us| > 1
    ensures Near(us) ==> Near(us[..|us| - 1])
    ensures Stream(us) ==> Stream(us[..|us| - 1])
  {
    hide Followable, Highest;
    var k := |us| - 1;
    assert forall i :: 0 < i < k ==> us[..k][..i] == us[..i];
  }

  lemma StreamEnds(us: seq<nat>)
    requires us != []
    ensures Stream(us) ==> Near(us)
    ensures Near(us) ==> us[0] < M16 && (|us| > 1 ==> -M16 < us[|us| - 1] - Highest(us[..|us| - 1]) < M16)
    ensures Stream(us) && |us| > 1 ==> Followable(|us| - 1, Highest(us[..|us| - 1]), us[|us| - 1])
    ensures |us| > 1 && Stream(us[..|us| - 1]) && Near(us) ==>
              (Followable(|us| - 1, Highest(us[..|us| - 1]), us[|us| - 1]) ==> Stream(us))
  {
    hide Followable, Highest;
    var k := |us| - 1;
    assert forall i :: 0 < i < k ==> us[..k][..i] == us[..i];
  }

  /** Where the counter last started: the number of packets before it is a multiple of 2^32. */
  function Restart(n: nat): (k: nat)
    requires n > 0
    ensures k < n
  {
    (n - 1) / M32 * M32
  }

  lemma RestartMoves(n: nat)
    requires n > 1
    ensures Restart(n) == if (n - 1) % M32 == 0 then n - 1 else Restart(n - 1)
  {}

  lemma {:induction false} HighestCovers(us: seq<nat>, i: nat)
    requires i < |us|
    ensures us[i] <= Highest(us)
  {
    if |us| > 1 && i < |us| - 1 {
      HighestCovers(us[..|us| - 1], i);
    }
  }

  lemma {:induction false} StreamTracks(us: seq<nat>)
    requires us != [] && Stream(us)
    ensures Tracks(Feed(us), Highest(us))
    ensures Feed(us).packetsRecv == |us| % M32 && Feed(us).lastSeq == us[Restart(|us|)] % M16
  {
    hide Trackable, Stream, Update, Tracks, Restart;
    var k := |us| - 1;
    StreamEnds(us);
    if k == 0 {
      FirstTracks(us);
    } else {
      StreamPrefix(us);
      StreamTracks(us[..k]);
      RestartMoves(k + 1);
      UpdateTracks(k, Feed(us[..k]), Highest(us[..k]), us[k]);
    }
  }

  lemma UpdateTracks(i: nat, s: Stats, u: nat, v: nat)
    requires Tracks(s, u) && s.packetsRecv == i % M32 && -M16 < v - u < M16 && Followable(i, u, v)
    ensures Tracks(Update(s, v % M16), Max(u, v))
    ensures Update(s, v % M16).lastSeq == if i % M32 == 0 then v % M16 else s.lastSeq
    ensures Update(s, v % M16).packetsRecv == (i + 1) % M32
  {
    hide Lost, Trackable, Followed;
    FollowTracks(s, u, v);
    FollowedIff(u, v);
  }

  lemma FirstTracks(us: seq<nat>)
    requires |us| == 1 && us[0] < M16
    ensures Tracks(Feed(us), us[0]) && Feed(us).packetsRecv == 1 && Feed(us).lastSeq == us[0]
    ensures Restart(1) == 0 && Feed(us).packetsLost == 0
  {
    assert Feed(us[..0]) == New();
  }

  /** Over streams of any length and any number of wraps, the reported extended highest number is the
      highest unwrapped number modulo 2^32. */
  lemma ExtendedIsExact(us: seq<nat>)
    requires us != [] && Stream(us)
    ensures Extended(Feed(us)) == Highest(us) % M32
  {
    hide Feed, Stream, Highest, Extended;
    StreamTracks(us);
    TracksExtended(Feed(us), Highest(us));
  }

  /** The reported number is right after each of the first n packets. */
  ghost predicate ExactThroughout(us: seq<nat>) {
    forall n :: 0 < n <= |us| ==> Extended(Feed(us[..n])) == Highest(us[..n]) % M32
  }

  /** For every stream whose packets stay less than 2^16 from the highest, the reported number is right all
      along if and only if every packet can be followed. */
  lemma {:induction false} ExactThroughoutIff(us: seq<nat>)
    requires us != [] && Near(us)
    ensures ExactThroughout(us) <==> Stream(us)
  {
    hide Feed, Highest, Extended, Stream, Near, Followable;
    var k := |us| - 1;
    assert us[..k + 1] == us;
    StreamEnds(us);
    if k == 0 {
      FirstIsStream(us);
      ExtendedIsExact(us);
    } else {
      StreamPrefix(us);
      ExactThroughoutIff(us[..k]);
      assert forall n :: 0 < n <= k ==> us[..k][..n] == us[..n];
      if Stream(us[..k]) {
        LastStepIff(us);
      }
    }
  }

  lemma FirstIsStream(us: seq<nat>)
    requires |us| == 1 && Near(us)
    ensures Stream(us)
  {}

  lemma LastStepIff(us: seq<nat>)
    requires |us| > 1 && Near(us) && Stream(us[..|us| - 1])
    ensures Extended(Feed(us)) == Highest(us) % M32 <==> Followable(|us| - 1, Highest(us[..|us| - 1]), us[|us| - 1])
  {
    hide Update, Extended, Stream, Near, Trackable;
    var k := |us| - 1;
    StreamEnds(us);
    StreamTracks(us[..k]);
    var (s, u, v) := (Feed(us[..k]), Highest(us[..k]), us[k]);
    if k % M32 == 0 {
      CounterWrapIff(s, u, v);
    } else {
      StepExactIff(s, u, v);
    }
  }

  /** Numbers never decrease, gaps are below 2^15, and no wrap falls on a restart of the counter. */
  ghost predicate InOrder(us: seq<nat>) {
    && us != [] && us[0] < M16
    && (forall i :: 0 < i < |us| ==> us[i - 1] <= us[i] < us[i - 1] + 0x8000)
    && (forall i :: 0 < i < |us| && i % M32 == 0 ==> us[i] / M16 == us[i - 1] / M16)
  }

  lemma InOrderIsStream(us: seq<nat>)
    requires InOrder(us)
    ensures Stream(us) && Highest(us) == us[|us| - 1]
  {
    hide Highest, Followable;
    forall i | 0 < i <= |us| ensures Highest(us[..i]) == us[i - 1] {
      HighestIsLast(us, i);
    }
    forall i | 0 < i < |us| ensures Followable(i, us[i - 1], us[i]) {
      SmallGapFollows(i, us[i - 1], us[i]);
    }
    assert us[..|us|] == us;
  }

  lemma SmallGapFollows(i: nat, u: nat, v: nat)
    requires u <= v < u + 0x8000 && (i % M32 == 0 ==> v / M16 == u / M16)
    ensures Followable(i, u, v)
  {}

  /** In streams of up to 2^32 packets the counter never starts again. */
  lemma ShortIsInOrder(us: seq<nat>)
    requires us != [] && us[0] < M16 && |us| <= M32
    requires forall i :: 0 < i < |us| ==> us[i - 1] <= us[i] < us[i - 1] + 0x8000
    ensures InOrder(us) && Restart(|us|) == 0
  {}

  lemma {:induction false} HighestIsLast(us: seq<nat>, i: nat)
    requires 0 < i <= |us| && forall j :: 0 < j < |us| ==> us[j - 1] <= us[j]
    ensures Highest(us[..i]) == us[i - 1]
  {
    if i > 1 {
      assert us[..i][..i - 1] == us[..i - 1];
      HighestIsLast(us, i - 1);
    }
  }

  // ---- The loss count

  /** Expected less received since the counter last started: what the standard calls the cumulative loss,
      for streams of up to 2^32 packets. What it counts is MissingCounts. */
  function Missing(us: seq<nat>): int
    requires us != []
  {
    var k := Restart(|us|);
    Highest(us) - us[k] + 1 - (|us| - k)
  }

  /** Wraps of the 16-bit numbers since the counter last started. */
  function Wraps(us: seq<nat>): int
    requires us != []
  {
    Highest(us) / M16 - us[Restart(|us|)] / M16
  }

  function NotNegative(n: int): int {
    if n < 0 then 0 else n
  }

  /** For every counter value: the last difference, in signed 32 bits, and not below zero. */
  lemma LostOf(s: Stats)
    requires 0 <= s.highestSeq < M16 && 0 <= s.lastSeq < M16 && 0 <= s.packetsRecv < M32
    ensures Lost(s) == NotNegative(Int32(s.highestSeq - s.lastSeq - s.packetsRecv))
  {
    hide Int32;
    CyclesVanish(s.seqCycles);
    Int32Small(s.highestSeq - s.lastSeq + 1);
    Int32OfDifference(s.highestSeq - s.lastSeq + 1, s.packetsRecv + 1);
  }

  lemma CyclesVanish(cycles: int)
    ensures cycles * M16 % M32 % M16 == 0
  {
    var x := cycles * M16;
    assert x % M32 == x - x / M32 * M32 == (cycles - x / M32 * M16) * M16;
  }

  lemma Int32Small(x: int)
    requires -0x8000_0000 <= x < 0x8000_0000
    ensures Int32(x) == x
  {}

  lemma Int32OfDifference(a: int, b: int)
    ensures Int32(a - Int32(b)) == Int32(a - b)
  {}

  /** Over streams of any length: the code forgets 65536 expected packets for every wrap, takes what is left
      in signed 32 bits, and keeps the old count for the packet at which its counter starts again. */
  lemma LostIs(us: seq<nat>)
    requires us != [] && Stream(us)
    ensures Feed(us).packetsLost ==
              if |us| == 1 then 0
              else if (|us| - 1) % M32 == 0 then Feed(us[..|us| - 1]).packetsLost
              else NotNegative(Int32(Missing(us) - M16 * Wraps(us)))
  {
    hide Stream, Follow, Lost, Update, Restart, Missing, Wraps, Int32, NotNegative, Highest;
    var k := |us| - 1;
    StreamEnds(us);
    if k == 0 {
      FirstTracks(us);
    } else {
      StreamPrefix(us);
      StreamTracks(us[..k]);
      StreamTracks(us);
      var s := Feed(us[..k]);
      UpdateLoses(s, us[k] % M16);
      if k % M32 != 0 {
        FollowKeeps(s, us[k] % M16);
        LostOf(Follow(s, us[k] % M16));
        RestartMoves(k + 1);
        CountFromRestart(us);
      }
    }
  }

  lemma UpdateLoses(s: Stats, seqNum: int)
    ensures Update(s, seqNum).packetsLost == if s.packetsRecv == 0 then s.packetsLost else Lost(Follow(s, seqNum))
    ensures s.packetsRecv != 0 ==> Update(s, seqNum).highestSeq == Follow(s, seqNum).highestSeq
  {}

  lemma FollowKeeps(s: Stats, seqNum: int)
    ensures Follow(s, seqNum).packetsRecv == s.packetsRecv && Follow(s, seqNum).lastSeq == s.lastSeq
  {}

  lemma CountFromRestart(us: seq<nat>)
    requires us != []
    ensures var k := |us| - 1;
            Missing(us) - M16 * Wraps(us) == Highest(us) % M16 - us[Restart(|us|)] % M16 - k % M32
  {
    var (h, f, k) := (Highest(us), us[Restart(|us|)], |us| - 1);
    assert h == h / M16 * M16 + h % M16 && f == f / M16 * M16 + f % M16;
    assert k == k / M32 * M32 + k % M32;
  }

  /** The loss count is right exactly when nothing more was received than expected and no wrap has happened,
      or nothing is missing after at most 2^15 wraps, or 2^16 wraps have cancelled out. */
  lemma LostIsRightIff(us: seq<nat>)
    requires us != [] && Stream(us) && (|us| - 1) % M32 != 0
    ensures Feed(us).packetsLost == Missing(us) <==>
              && Missing(us) >= 0
              && (Wraps(us) == 0 || (Missing(us) == 0 && Wraps(us) <= 0x8000) ||
                  (Wraps(us) == M16 && Missing(us) < 0x8000_0000))
  {
    hide Feed, Stream, Highest, Restart, Missing, Wraps;
    LostIs(us);
    HighestCovers(us, Restart(|us|));
    CountFromRestart(us);
    WrapsBounded(us);
    SignedIff(Missing(us), Wraps(us));
  }

  lemma WrapsBounded(us: seq<nat>)
    requires us != [] && us[Restart(|us|)] <= Highest(us)
    ensures Wraps(us) >= 0
    ensures Missing(us) - M16 * Wraps(us) > -M16 - M32 && Missing(us) - M16 * Wraps(us) < M16
  {
    CountFromRestart(us);
  }

  lemma SignedIff(missing: int, wraps: nat)
    requires -M16 - M32 < missing - M16 * wraps < M16
    ensures NotNegative(Int32(missing - M16 * wraps)) == missing <==>
              && missing >= 0
              && (wraps == 0 || (missing == 0 && wraps <= 0x8000) || (wraps == M16 && missing < 0x8000_0000))
  {}

  // ---- What the loss count counts

  /** The packets since the counter last started. */
  function Recent(us: seq<nat>): (vs: seq<nat>)
    requires us != []
    ensures vs != [] && |vs| == |us| - Restart(|us|)
  {
    us[Restart(|us|)..]
  }

  predicate Between(low: nat, n: nat, high: nat) {
    low <= n <= high
  }

  /** The numbers from low to high. */
  ghost function Interval(low: nat, high: nat): set<nat> {
    set n: nat | low <= n <= high && Between(low, n, high)
  }

  /** The numbers from the first recent one to the highest. */
  ghost function Span(us: seq<nat>): set<nat>
    requires us != []
  {
    Interval(Recent(us)[0], Highest(us))
  }

  ghost function Members(vs: seq<nat>): set<nat> {
    set i | 0 <= i < |vs| :: vs[i]
  }

  /** The numbers in between that never arrived. */
  ghost function Skipped(us: seq<nat>): set<nat>
    requires us != []
  {
    Span(us) - Members(Recent(us))
  }

  /** The packets that repeat an earlier number or lie before the first. */
  ghost function Surplus(us: seq<nat>): int
    requires us != []
  {
    |Recent(us)| - |Span(us) * Members(Recent(us))|
  }

  lemma {:induction false} IntervalSize(low: nat, high: nat)
    requires low <= high
    ensures |Interval(low, high)| == high - low + 1
    decreases high - low
  {
    if low == high {
      assert Interval(low, high) == {low};
    } else {
      IntervalSize(low, high - 1);
      assert Interval(low, high) == Interval(low, high - 1) + {high};
    }
  }

  lemma MembersSnoc(vs: seq<nat>)
    requires vs != []
    ensures Members(vs) == Members(vs[..|vs| - 1]) + {vs[|vs| - 1]}
    ensures vs[|vs| - 1] in Members(vs[..|vs| - 1]) <==> vs[|vs| - 1] in vs[..|vs| - 1]
  {
    var k := |vs| - 1;
    forall n | n in Members(vs) ensures n in Members(vs[..k]) + {vs[k]} {
      var i :| 0 <= i < |vs| && vs[i] == n;
      if i < k {
        assert vs[..k][i] == n;
      }
    }
    forall n | n in Members(vs[..k]) ensures n in Members(vs) {
      var i :| 0 <= i < k && vs[..k][i] == n;
      assert vs[i] == n;
    }
  }

  lemma NoRepeatSnoc(vs: seq<nat>)
    requires vs != []
    ensures NoRepeat(vs) <==> NoRepeat(vs[..|vs| - 1]) && vs[|vs| - 1] !in vs[..|vs| - 1]
  {
    var k := |vs| - 1;
    assert forall i :: 0 <= i < k ==> vs[..k][i] == vs[i];
    if NoRepeat(vs[..k]) && vs[k] !in vs[..k] {
      forall i, j | 0 <= i < j < |vs| ensures vs[i] != vs[j] {
        assert vs[i] == vs[..k][i];
      }
    }
  }

  /** A sequence has as many members as elements, if and only if nothing repeats. */
  lemma {:induction false} MembersSize(vs: seq<nat>)
    ensures |Members(vs)| <= |vs|
    ensures |Members(vs)| == |vs| <==> NoRepeat(vs)
  {
    if vs == [] {
      assert Members(vs) == {};
    } else {
      MembersSize(vs[..|vs| - 1]);
      MembersSnoc(vs);
      NoRepeatSnoc(vs);
    }
  }

  lemma Subsets(a: set<nat>, b: set<nat>)
    ensures |a - b| + |a * b| == |a|
    ensures |a * b| <= |b|
    ensures |a * b| == |b| <==> b <= a
  {
    assert a == (a - b) + a * b;
    assert b == (b - a) + a * b;
    assert |b| == |b - a| + |a * b|;
    if b <= a {
      assert a * b == b;
    } else {
      var x :| x in b && x !in a;
      assert x in b - a;
    }
  }

  /** Expected less received is the count of skipped numbers less the surplus packets; there are none of those
      if and only if no number repeats and none lies before the first. */
  lemma MissingCounts(us: seq<nat>)
    requires us != []
    ensures Missing(us) == |Skipped(us)| - Surplus(us) && Surplus(us) >= 0
    ensures Surplus(us) == 0 <==> NoRepeat(Recent(us)) && forall n <- Recent(us) :: n >= Recent(us)[0]
  {
    var (k, vs) := (Restart(|us|), Recent(us));
    HighestCovers(us, k);
    IntervalSize(vs[0], Highest(us));
    MembersSize(vs);
    Subsets(Span(us), Members(vs));
    hide Restart, Highest;
    if forall n <- vs :: n >= vs[0] {
      forall n | n in Members(vs) ensures n in Span(us) {
        var i :| 0 <= i < |vs| && vs[i] == n;
        assert vs[i] in vs && vs[i] == us[k + i];
        HighestCovers(us, k + i);
      }
    }
    if Members(vs) <= Span(us) {
      forall n | n in vs ensures n >= vs[0] {
        var i :| 0 <= i < |vs| && vs[i] == n;
        assert n in Members(vs);
      }
    }
  }

  /** What the code does not see: surplus packets, and 65536 numbers for every wrap. */
  ghost function Hidden(us: seq<nat>): int
    requires us != []
  {
    Surplus(us) + M16 * Wraps(us)
  }

  /** The loss count is the count of skipped numbers exactly when nothing is hidden, or 2^32 is, or nothing was
      skipped and what is hidden does not show in signed 32 bits. */
  lemma LostIsSkippedIff(us: seq<nat>)
    requires us != [] && Stream(us) && (|us| - 1) % M32 != 0
    ensures Feed(us).packetsLost == |Skipped(us)| <==>
              || Hidden(us) == 0
              || (Hidden(us) == M32 && |Skipped(us)| < 0x8000_0000)
              || (|Skipped(us)| == 0 && (Hidden(us) <= 0x8000_0000 || Hidden(us) >= M32))
  {
    hide Feed, Stream, Highest, Restart, Missing, Wraps, Skipped, Surplus, Recent;
    LostIs(us);
    HighestCovers(us, Restart(|us|));
    WrapsBounded(us);
    MissingCounts(us);
    HiddenIff(|Skipped(us)|, Hidden(us));
  }

  lemma HiddenIff(skipped: nat, hidden: nat)
    requires -M16 - M32 < skipped - hidden < M16
    ensures NotNegative(Int32(skipped - hidden)) == skipped <==>
              || hidden == 0
              || (hidden == M32 && skipped < 0x8000_0000)
              || (skipped == 0 && (hidden <= 0x8000_0000 || hidden >= M32))
  {}

  /** Before the first wrap, with no number repeated and none before the first, packetsLost is exactly the count
      of skipped numbers. */
  lemma LostIsSkipped(us: seq<nat>)
    requires 1 < |us| <= M32 && Stream(us) && Highest(us) < M16 && NoRepeat(us) && forall n <- us :: n >= us[0]
    ensures Feed(us).packetsLost == |set n | n in Interval(us[0], Highest(us)) && n !in us|
  {
    hide Feed, Stream, Highest, Surplus, Skipped, Missing;
    OneStart(us);
    MissingCounts(us);
    LostIsSkippedIff(us);
  }

  lemma OneStart(us: seq<nat>)
    requires 1 < |us| <= M32
    ensures Recent(us) == us && (|us| - 1) % M32 != 0
    ensures Highest(us) < M16 ==> Wraps(us) == 0
    ensures Skipped(us) == set n | n in Interval(us[0], Highest(us)) && n !in us
  {
    assert Restart(|us|) == 0 && us[0..] == us;
    HighestCovers(us, 0);
    forall n: nat ensures n in Members(us) <==> n in us {
    }
  }

  /** The loss count of a short stream that never decreases. */
  lemma ShortLoss(us: seq<nat>)
    requires 1 < |us| <= M32 && us[0] < M16 && forall i :: 0 < i < |us| ==> us[i - 1] <= us[i] < us[i - 1] + 0x8000
    ensures var (first, last) := (us[0], us[|us| - 1]);
            && Missing(us) == last - first + 1 - |us| && Highest(us) == last
            && Feed(us).packetsLost == NotNegative(Int32(Missing(us) - M16 * (last / M16)))
  {
    hide Feed, Stream, Highest, InOrder;
    ShortIsInOrder(us);
    InOrderIsStream(us);
    LostIs(us);
  }

  /** A single repeated packet hides a skipped number. */
  lemma RepeatHidesLoss()
    ensures var us := [10, 12, 12]; Skipped(us) == {11} && Feed(us).packetsLost == 0
  {
    var us: seq<nat> := [10, 12, 12];
    hide Feed, Highest, Missing, Int32;
    ShortLoss(us);
    Int32Small(0);
    OneStart(us);
    hide Skipped;
    forall n: nat ensures n in Skipped(us) <==> n == 11 {
      assert n in us <==> n == 10 || n == 12;
    }
  }

  /** Five packets with 632 numbers skipped between them report no loss once the numbers have wrapped. */
  lemma LossAfterWrapIsForgotten()
    ensures FIVE == [65000, 65001, 65003, 65635, 65636]
    ensures Missing(FIVE) == |Skipped(FIVE)| == 632 && Feed(FIVE).packetsLost == 0
  {
    hide Feed, Highest, Missing, Int32, Skipped, NotNegative;
    var us: seq<nat> := FIVE;
    FiveRise();
    ShortLoss(us);
    Int32Small(632 - M16);
    NothingSurplus(us);
    hide *;
    assert NotNegative(632 - M16) == 0 by { NegativeIsNone(632 - M16); }
  }

  const FIVE: seq<nat> := [65000, 65001, 65003, 65635, 65636]

  lemma FiveRise()
    ensures |FIVE| == 5 && FIVE[0] == 65000 && FIVE[4] == 65636 && FIVE[4] / M16 == 1
    ensures forall i :: 0 < i < 5 ==> FIVE[i - 1] < FIVE[i] < FIVE[i - 1] + 0x8000
  {}

  lemma NegativeIsNone(n: int)
    requires n < 0
    ensures NotNegative(n) == 0
  {}

  lemma NothingSurplus(us: seq<nat>)
    requires 1 < |us| <= M32 && forall i :: 0 < i < |us| ==> us[i - 1] < us[i]
    ensures Missing(us) == |Skipped(us)|
  {
    hide Highest, Skipped, Missing, Surplus;
    OneStart(us);
    MissingCounts(us);
    forall i, j | 0 <= i < j < |us| ensures us[i] < us[j] {
      Increases(us, i, j);
    }
  }

  lemma {:induction false} Increases(us: seq<nat>, i: nat, j: nat)
    requires i < j < |us| && forall k :: 0 < k < |us| ==> us[k - 1] < us[k]
    ensures us[i] < us[j]
  {
    if i + 1 < j {
      Increases(us, i, j - 1);
    }
    assert us[j - 1] < us[j];
  }

  /** The same packet 2^31 + 11 times reports more than two thousand million packets lost. */
  lemma ManyDuplicatesReportLoss()
    ensures var us := seq(0x8000_000B, _ => 7); Missing(us) < 0 && Feed(us).packetsLost == 2147483638
  {
    hide Feed, Stream, Highest, InOrder, Restart;
    var us: seq<nat> := seq(0x8000_000B, _ => 7);
    ShortIsInOrder(us);
    InOrderIsStream(us);
    LostIs(us);
  }
}
