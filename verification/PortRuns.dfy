/** Runs of the port allocator: who owns which port, and when a port may be reused. */
module PortRuns {
  import opened Basics
  import opened PortSpec

  // ---- Scanning

  /** A pair scan returns the first free pair of its parity, or there is none. */
  lemma {:induction false} ScanPairsIsFirst(st: State, bindable: Network, port: int, limit: int, q: int)
    requires port <= q < limit && (q - port) % 2 == 0
    ensures match ScanPairs(st, bindable, port, limit)
            case None => !PairFree(st, bindable, q)
            case Some(p) => port <= p < limit && (p - port) % 2 == 0 && PairFree(st, bindable, p) &&
                            (q < p ==> !PairFree(st, bindable, q))
    decreases limit - port
  {
    if !PairFree(st, bindable, port) && port + 2 <= q {
      ScanPairsIsFirst(st, bindable, port + 2, limit, q);
    } else if !PairFree(st, bindable, port) && port + 2 < limit {
      ScanPairsIsFirst(st, bindable, port + 2, limit, port + 2);
    }
  }

  lemma ScanPairsFinds(st: State, bindable: Network, port: int, limit: int)
    ensures ScanPairs(st, bindable, port, limit).Some? ==>
              var p := ScanPairs(st, bindable, port, limit).value;
              port <= p < limit && (p - port) % 2 == 0 && PairFree(st, bindable, p)
  {
    if port < limit {
      ScanPairsIsFirst(st, bindable, port, limit, port);
    }
  }

  lemma HintAligned(c: Config, st: State)
    requires Aligned(c, st)
    ensures ScanStart(c) <= st.nextPort
    ensures c.evenOnly ==> st.nextPort % 2 == 0 && ScanStart(c) % 2 == 0
  {}

  /** A pair that is found is in range, free, and even when only even ports are given out. */
  lemma FoundPair(c: Config, st: State, bindable: Network)
    requires Aligned(c, st)
    ensures FindPair(c, st, bindable).Some? ==>
              var p := FindPair(c, st, bindable).value;
              && ScanStart(c) <= p <= c.maxPort - 2 && PairFree(st, bindable, p)
              && (c.evenOnly ==> p % 2 == 0)
  {
    HintAligned(c, st);
    hide Aligned, ScanStart, ScanPairs, PairFree;
    var end := c.maxPort - 1;
    ScanPairsFinds(st, bindable, st.nextPort, end);
    ScanPairsFinds(st, bindable, ScanStart(c), if st.nextPort < end then st.nextPort else end);
    var r := FindPair(c, st, bindable);
    if r.Some? && c.evenOnly {
      EvenFrom(if (r.value - st.nextPort) % 2 == 0 then st.nextPort else ScanStart(c), r.value);
    }
  }

  lemma EvenFrom(a: int, b: int)
    requires a % 2 == 0 && (b - a) % 2 == 0
    ensures b % 2 == 0
  {}

  /** With even ports only, the wrap-around scan misses nothing: it fails exactly when every even pair
      of the range is blocked. */
  lemma NoPairIffAllBlocked(c: Config, st: State, bindable: Network)
    requires Aligned(c, st) && c.evenOnly
    ensures FindPair(c, st, bindable) == None <==>
            forall q | ScanStart(c) <= q <= c.maxPort - 2 && q % 2 == 0 :: !PairFree(st, bindable, q)
  {
    hide Aligned, ScanStart, PairFree, FindPair;
    FoundPair(c, st, bindable);
    if FindPair(c, st, bindable) == None {
      forall q | ScanStart(c) <= q <= c.maxPort - 2 && q % 2 == 0 ensures !PairFree(st, bindable, q) {
        NothingMissed(c, st, bindable, q);
      }
    }
  }

  lemma NothingMissed(c: Config, st: State, bindable: Network, q: int)
    requires Aligned(c, st) && c.evenOnly && FindPair(c, st, bindable) == None
    requires ScanStart(c) <= q <= c.maxPort - 2 && q % 2 == 0
    ensures !PairFree(st, bindable, q)
  {
    HintAligned(c, st);
    hide Aligned, ScanStart, ScanPairs, PairFree;
    var end := c.maxPort - 1;
    if q >= st.nextPort {
      EvenApart(st.nextPort, q);
      ScanPairsIsFirst(st, bindable, st.nextPort, end, q);
    } else {
      EvenApart(ScanStart(c), q);
      ScanPairsIsFirst(st, bindable, ScanStart(c), if st.nextPort < end then st.nextPort else end, q);
    }
  }

  /** A pair is refused exactly when the session is at its limit, or the pool is empty and every even pair
      of the range is blocked. */
  lemma AllocatePairFailsIff(c: Config, st: State, sid: string, bindable: Network)
    requires Aligned(c, st) && c.evenOnly
    ensures AllocatePair(c, st, sid, bindable).1 == None <==>
              || |SessionPorts(st, sid)| + 2 > c.maxAllocations
              || (st.pool == [] &&
                  forall q | ScanStart(c) <= q <= c.maxPort - 2 && q % 2 == 0 :: !PairFree(st, bindable, q))
  {
    hide Aligned, ScanStart, PairFree, FindPair, SessionPorts;
    NoPairIffAllBlocked(c, st, bindable);
  }

  /** A port leaves the reuse delay exactly when its time is over. */
  lemma DelayEndsIff(c: Config, st: State, now: int, port: int)
    requires port in st.released
    ensures port !in CleanReleased(c, st, now).released <==> now - st.released[port] >= c.reuseDelay
  {}

  lemma EvenApart(a: int, b: int)
    requires a % 2 == 0 && b % 2 == 0
    ensures (b - a) % 2 == 0
  {}

  lemma {:induction false} ScanPortsIsFirst(st: State, bindable: Network, port: int, limit: int, step: int, q: int)
    requires (step == 1 || step == 2) && port <= q <= limit && (q - port) % step == 0
    ensures match ScanPorts(st, bindable, port, limit, step)
            case None => !Free(st, bindable, q)
            case Some(p) => port <= p <= limit && (p - port) % step == 0 && Free(st, bindable, p)
    decreases limit - port
  {
    if !Free(st, bindable, port) && port + step <= q {
      ScanPortsIsFirst(st, bindable, port + step, limit, step, q);
    } else if !Free(st, bindable, port) && port + step <= limit {
      ScanPortsIsFirst(st, bindable, port + step, limit, step, port + step);
    }
  }

  /** The single-port scan looks only from the hint upwards: it fails exactly when every port of the
      stride from the hint to the top is blocked, free ports below the hint notwithstanding. */
  lemma NoPortIffBlockedAbove(c: Config, st: State, bindable: Network)
    ensures ScanPorts(st, bindable, st.nextPort, c.maxPort, Stride(c)) == None <==>
            forall q | st.nextPort <= q <= c.maxPort && (q - st.nextPort) % Stride(c) == 0 :: !Free(st, bindable, q)
    ensures ScanPorts(st, bindable, st.nextPort, c.maxPort, Stride(c)).Some? ==>
              var p := ScanPorts(st, bindable, st.nextPort, c.maxPort, Stride(c)).value;
              st.nextPort <= p <= c.maxPort && (p - st.nextPort) % Stride(c) == 0 && Free(st, bindable, p)
  {
    if st.nextPort <= c.maxPort {
      ScanPortsIsFirst(st, bindable, st.nextPort, c.maxPort, Stride(c), st.nextPort);
    }
    forall q | st.nextPort <= q <= c.maxPort && (q - st.nextPort) % Stride(c) == 0
      ensures ScanPorts(st, bindable, st.nextPort, c.maxPort, Stride(c)) == None ==> !Free(st, bindable, q)
    {
      ScanPortsIsFirst(st, bindable, st.nextPort, c.maxPort, Stride(c), q);
    }
  }

  // ---- Each operation keeps the invariant

  lemma PoolSnoc(pool: seq<int>, p: int)
    ensures forall q :: Pooled(pool + [p], q) <==> Pooled(pool, q) || q == p || q == p + 1
  {}

  lemma GrownPoolIsExclusive(st: State, p: int)
    requires Exclusive(st) && p !in st.owner && p + 1 !in st.owner
    ensures Exclusive(Reserve(st, p).(pool := st.pool + [p]))
  {
    hide NoRepeat;
    PoolSnoc(st.pool, p);
    forall i | 0 <= i < |st.pool| ensures st.pool[i] != p && st.pool[i] != p + 1 && p != st.pool[i] + 1 {
      assert Pooled(st.pool, st.pool[i]) && Pooled(st.pool, st.pool[i] + 1);
    }
  }

  /** A freshly reserved pair may join the pool. */
  lemma PoolGrows(c: Config, st: State, bindable: Network, p: int)
    requires Inv(c, st) && PairFree(st, bindable, p)
    requires ScanStart(c) <= p <= c.maxPort - 2 && (c.evenOnly ==> p % 2 == 0)
    ensures Inv(c, Reserve(st, p).(pool := st.pool + [p]))
  {
    hide Exclusive;
    var st' := Reserve(st, p).(pool := st.pool + [p]);
    GrownPoolIsExclusive(st, p);
    PoolSnoc(st.pool, p);
    assert Owned(st') == Owned(st);
  }

  lemma PoolTail(pool: seq<int>)
    requires pool != [] && PoolDistinct(pool)
    ensures PoolDistinct(pool[1..])
    ensures forall q :: Pooled(pool, q) <==> Pooled(pool[1..], q) || q == pool[0] || q == pool[0] + 1
    ensures !Pooled(pool[1..], pool[0]) && !Pooled(pool[1..], pool[0] + 1)
  {
    assert pool == [pool[0]] + pool[1..];
  }

  /** As Exclusive, but some ports are in transit: neither pooled nor listed yet. */
  ghost predicate ExclusiveBut(st: State, transit: set<int>) {
    && PoolDistinct(st.pool)
    && (forall p | Pooled(st.pool, p) :: p in st.owner && st.owner[p] == "" && p !in transit)
    && (forall p <- st.owner :: !Pooled(st.pool, p) && p !in transit ==>
          st.owner[p] in st.sessions && p in st.sessions[st.owner[p]])
    && (forall sid <- st.sessions, p <- st.sessions[sid] ::
          p in st.owner && st.owner[p] == sid && !Pooled(st.pool, p) && p !in transit)
    && (forall sid <- st.sessions :: NoRepeat(st.sessions[sid]))
  }

  lemma NoRepeatSnoc(s: seq<int>, p: int)
    requires NoRepeat(s) && p !in s
    ensures NoRepeat(s + [p])
  {}

  lemma RecordSettles(st: State, transit: set<int>, p: int, sid: string)
    requires ExclusiveBut(st, transit) && p in transit
    ensures ExclusiveBut(Record(st, p, sid), transit - {p})
  {
    hide NoRepeat;
    NothingRepeats();
    NoRepeatSnoc(SessionPorts(st, sid), p);
  }

  lemma NothingRepeats()
    ensures NoRepeat<int>([])
  {}

  lemma ExclusiveButNothing(st: State)
    ensures ExclusiveBut(st, {}) <==> Exclusive(st)
  {}

  lemma TakenPairInTransit(st: State)
    requires Exclusive(st) && st.pool != []
    ensures ExclusiveBut(st.(pool := st.pool[1..]), {st.pool[0], st.pool[0] + 1})
  {
    hide NoRepeat, PoolDistinct;
    PoolTail(st.pool);
    assert Pooled(st.pool, st.pool[0]) && Pooled(st.pool, st.pool[0] + 1);
  }

  /** The front pair of the pool goes to a session with room for two. */
  lemma PoolTaken(c: Config, st: State, sid: string)
    requires Inv(c, st) && st.pool != [] && |SessionPorts(st, sid)| + 2 <= c.maxAllocations
    ensures Inv(c, RecordPair(st.(pool := st.pool[1..]), st.pool[0], sid))
  {
    hide Exclusive, ExclusiveBut, PoolDistinct;
    var p := st.pool[0];
    var st1 := st.(pool := st.pool[1..]);
    TakenPairInTransit(st);
    RecordSettles(st1, {p, p + 1}, p, sid);
    var st2 := Record(st1, p, sid);
    assert {p, p + 1} - {p} == {p + 1} && {p + 1} - {p + 1} == {};
    RecordSettles(st2, {p + 1}, p + 1, sid);
    var st' := Record(st2, p + 1, sid);
    ExclusiveButNothing(st');
    TakenCounts(st, sid);
    assert p in st.pool;
    PoolMembers(st);
  }

  lemma FailureKeeps(c: Config, st: State, n: int)
    requires Inv(c, st)
    ensures Inv(c, st.(totalFailed := st.totalFailed + n))
  {
    hide NoRepeat, PoolDistinct, Pooled;
    assert Owned(st.(totalFailed := st.totalFailed + n)) == Owned(st);
  }

  lemma PoolMembers(st: State)
    requires Exclusive(st) && st.pool != []
    ensures st.pool[0] in st.owner && st.pool[0] + 1 in st.owner
    ensures forall p <- st.pool[1..] :: p in st.pool
    ensures PoolDistinct(st.pool)
  {
    assert Pooled(st.pool, st.pool[0]) && Pooled(st.pool, st.pool[0] + 1);
  }

  lemma TakenCounts(st: State, sid: string)
    requires Exclusive(st) && st.pool != []
    ensures |Owned(RecordPair(st.(pool := st.pool[1..]), st.pool[0], sid))| == |Owned(st)| + 2
  {
    hide Exclusive, SessionPorts;
    var p := st.pool[0];
    PoolMembers(st);
    PoolTail(st.pool);
    assert Pooled(st.pool, p) && Pooled(st.pool, p + 1);
    hide Pooled, PoolDistinct;
    var owned' := Owned(RecordPair(st.(pool := st.pool[1..]), p, sid));
    assert owned' == (Owned(st) + {p}) + {p + 1};
    assert p !in Owned(st) && p + 1 !in Owned(st) + {p};
  }

  lemma PoolInRange(c: Config, st: State)
    requires Inv(c, st) && st.pool != []
    ensures ScanStart(c) <= st.pool[0] <= c.maxPort - 2 && (c.evenOnly ==> st.pool[0] % 2 == 0)
  {
    PoolMembers(st);
    assert st.pool[0] in st.pool;
  }

  lemma AllocatePairKeeps(c: Config, st: State, sid: string, bindable: Network)
    requires Inv(c, st)
    ensures Inv(c, AllocatePair(c, st, sid, bindable).0)
    ensures AllocatePair(c, st, sid, bindable).1.Some? ==>
              var p := AllocatePair(c, st, sid, bindable).1.value;
              && ScanStart(c) <= p <= c.maxPort - 2 && (c.evenOnly ==> p % 2 == 0)
              && p !in Owned(st) && p + 1 !in Owned(st) && p !in st.released && p + 1 !in st.released
  {
    hide Exclusive, FindPair, Record, Counted, Limited, Aligned;
    FailureKeeps(c, st, 1);
    FailureKeeps(c, st, 2);
    if |SessionPorts(st, sid)| + 2 <= c.maxAllocations {
      if st.pool != [] {
        PoolTaken(c, st, sid);
        PoolMembers(st);
        PoolInRange(c, st);
        assert Pooled(st.pool, st.pool[0]) && Pooled(st.pool, st.pool[0] + 1);
      } else {
        FoundPair(c, st, bindable);
        if FindPair(c, st, bindable).Some? {
          var p := FindPair(c, st, bindable).value;
          PoolGrows(c, st, bindable, p);
          var st1 := Reserve(st, p).(pool := [p]);
          assert st.pool + [p] == [p];
          PoolTaken(c, st1, sid);
          assert st1.(pool := st1.pool[1..]) == Reserve(st, p);
        }
      }
    }
  }

  lemma AllocateBoundKeeps(c: Config, st: State, sid: string, bindable: Network)
    requires Inv(c, st)
    ensures Inv(c, AllocateBound(c, st, sid, bindable).0)
    ensures AllocateBound(c, st, sid, bindable).1.Some? ==>
              var p := AllocateBound(c, st, sid, bindable).1.value;
              st.nextPort <= p <= c.maxPort && p !in st.owner && p !in st.released
  {
    hide Inv, ScanPorts, Record, Aligned;
    FailureKeeps(c, st, 1);
    NoPortIffBlockedAbove(c, st, bindable);
    if |SessionPorts(st, sid)| < c.maxAllocations &&
       ScanPorts(st, bindable, st.nextPort, c.maxPort, Stride(c)).Some? {
      BoundKeeps(c, st, ScanPorts(st, bindable, st.nextPort, c.maxPort, Stride(c)).value, sid);
    }
  }

  lemma BoundKeeps(c: Config, st: State, p: int, sid: string)
    requires Inv(c, st) && |SessionPorts(st, sid)| < c.maxAllocations && p !in st.owner && p !in st.released
    requires st.nextPort <= p <= c.maxPort && (p - st.nextPort) % Stride(c) == 0
    ensures Inv(c, Record(st, p, sid).(nextPort := p + Stride(c)))
  {
    hide Exclusive, Pooled, Owned;
    BoundPortSettles(st, p, sid);
    var st' := Record(st, p, sid).(nextPort := p + Stride(c));
    BoundCounts(st, p, sid, p + Stride(c));
    assert Aligned(c, st') by { BoundAligned(c, st, p, sid); }
  }

  lemma BoundCounts(st: State, p: int, sid: string, next: int)
    requires p !in st.owner && !Pooled(st.pool, p)
    ensures |Owned(Record(st, p, sid).(nextPort := next))| == |Owned(st)| + 1
  {
    hide Pooled;
    assert Owned(Record(st, p, sid).(nextPort := next)) == Owned(st) + {p};
  }

  lemma BoundAligned(c: Config, st: State, p: int, sid: string)
    requires Aligned(c, st) && st.nextPort <= p <= c.maxPort && (p - st.nextPort) % Stride(c) == 0
    ensures Aligned(c, Record(st, p, sid).(nextPort := p + Stride(c)))
  {}

  lemma BoundPortSettles(st: State, p: int, sid: string)
    requires Exclusive(st) && p !in st.owner
    ensures forall next :: Exclusive(Record(st, p, sid).(nextPort := next))
    ensures !Pooled(st.pool, p)
  {
    hide NoRepeat, PoolDistinct;
    assert ExclusiveBut(st, {p});
    RecordSettles(st, {p}, p, sid);
    assert {p} - {p} == {};
  }

  lemma {:induction false} RefillKeeps(c: Config, st: State, bindable: Network, want: nat)
    requires Inv(c, st)
    ensures Inv(c, Refill(c, st, bindable, want))
    ensures forall p <- Refill(c, st, bindable, want).owner :: p !in st.owner ==> p !in st.released
    ensures Refill(c, st, bindable, want).released == st.released
    ensures Owned(Refill(c, st, bindable, want)) == Owned(st)
    decreases want
  {
    hide Exclusive, Counted, Limited, Aligned, FindPair;
    if want > 0 && FindPair(c, st, bindable).Some? {
      FoundPair(c, st, bindable);
      var p := FindPair(c, st, bindable).value;
      var st1 := Reserve(st, p).(pool := st.pool + [p]);
      PoolGrows(c, st, bindable, p);
      PoolSnoc(st.pool, p);
      if |st.pool| < c.reserveCount {
        RefillKeeps(c, st1, bindable, want - 1);
        GrownPoolOwnsSame(st, p);
      } else {
        var owner' := st.owner[p := ""][p + 1 := ""] - {p, p + 1};
        assert owner' == st.owner;
        HintMoves(c, st, p + 2);
      }
    }
  }

  lemma GrownPoolOwnsSame(st: State, p: int)
    requires p !in st.owner && p + 1 !in st.owner
    ensures Owned(Reserve(st, p).(pool := st.pool + [p])) == Owned(st)
  {
    PoolSnoc(st.pool, p);
  }

  lemma HintMoves(c: Config, st: State, next: int)
    requires Inv(c, st) && ScanStart(c) <= next && (c.evenOnly ==> next % 2 == 0)
    ensures Inv(c, st.(nextPort := next)) && Owned(st.(nextPort := next)) == Owned(st)
  {
    hide NoRepeat, PoolDistinct, Pooled;
  }

  lemma CleanKeeps(c: Config, st: State, now: int)
    requires Inv(c, st)
    ensures Inv(c, CleanReleased(c, st, now))
  {
    hide NoRepeat, PoolDistinct, Pooled;
    assert Owned(CleanReleased(c, st, now)) == Owned(st);
  }

  // ---- Releasing

  /** Without removes exactly the one occurrence of the port. */
  lemma {:induction false} WithoutRemoves(ports: seq<int>, port: int)
    requires NoRepeat(ports) && port in ports
    ensures NoRepeat(Without(ports, port)) && |Without(ports, port)| == |ports| - 1
    ensures forall q :: q in Without(ports, port) <==> q in ports && q != port
  {
    if ports[0] != port {
      assert ports == [ports[0]] + ports[1..];
      WithoutRemoves(ports[1..], port);
      var rest := Without(ports[1..], port);
      assert ports[0] !in ports[1..];
      assert NoRepeat([ports[0]] + rest) by {
        assert forall i :: 0 <= i < |rest| ==> rest[i] in rest;
      }
    } else {
      assert ports == [port] + ports[1..];
    }
  }

  /** What a caller can check: the port is not allocated, or belongs to a named session. */
  predicate Releasable(st: State, port: int) {
    port in st.owner ==> st.owner[port] != ""
  }

  lemma UntrackKeeps(st: State, port: int, now: int)
    requires Exclusive(st) && port in st.owner && st.owner[port] != ""
    ensures Exclusive(Release(st, port, now).0)
  {
    hide PoolDistinct;
    var sid := st.owner[port];
    assert !Pooled(st.pool, port);
    var ports := st.sessions[sid];
    WithoutRemoves(ports, port);
    hide NoRepeat, Without;
    var st' := Release(st, port, now).0;
    forall p | p in st'.owner && !Pooled(st'.pool, p)
      ensures st'.owner[p] in st'.sessions && p in st'.sessions[st'.owner[p]]
    {
      if st.owner[p] == sid {
        assert p in Without(ports, port);
      }
    }
  }

  lemma ReleaseKeeps(c: Config, st: State, port: int, now: int)
    requires Inv(c, st) && Releasable(st, port)
    ensures Inv(c, Release(st, port, now).0)
    ensures Owned(Release(st, port, now).0) == Owned(st) - {port}
  {
    hide Exclusive, Without;
    if port in st.owner {
      UntrackKeeps(st, port, now);
      NamedPortIsOwned(st, port);
      var sid := st.owner[port];
      WithoutRemoves(st.sessions[sid], port);
      var st' := Release(st, port, now).0;
      assert Owned(st') == Owned(st) - {port};
    }
  }

  lemma NamedPortIsOwned(st: State, port: int)
    requires Exclusive(st) && port in st.owner && st.owner[port] != ""
    ensures port in Owned(st) && st.owner[port] in st.sessions && port in st.sessions[st.owner[port]]
    ensures NoRepeat(st.sessions[st.owner[port]])
  {}

  /** Releasing keeps the invariant exactly when the port is releasable: a pooled port would stay in the
      pool while free, and a port of the nameless session would stay in its list. */
  lemma ReleaseKeepsIff(c: Config, st: State, port: int, now: int)
    requires Inv(c, st)
    ensures Inv(c, Release(st, port, now).0) <==> Releasable(st, port)
  {
    hide Untrack;
    if Releasable(st, port) {
      ReleaseKeeps(c, st, port, now);
    } else {
      var st' := Release(st, port, now).0;
      if Pooled(st.pool, port) {
        assert Pooled(st'.pool, port) && port !in st'.owner;
      } else {
        assert port in st'.sessions[""] && port !in st'.owner;
      }
    }
  }

  function PortSet(ports: seq<int>): set<int> {
    set p | p in ports
  }

  lemma PortSetSplit(ports: seq<int>)
    requires ports != []
    ensures PortSet(ports) == {ports[0]} + PortSet(ports[1..])
  {
    assert ports == [ports[0]] + ports[1..];
  }

  /** The reuse-delay map with these ports entered at this time. */
  function Stamped(released: map<int, int>, ports: set<int>, now: int): map<int, int> {
    map p | p in released.Keys + ports :: if p in ports then now else released[p]
  }

  lemma {:induction false} ReleaseAllKeeps(c: Config, st: State, ports: seq<int>, now: int)
    requires Inv(c, st) && NoRepeat(ports) && forall p <- ports :: p in st.owner && st.owner[p] != ""
    ensures Inv(c, ReleaseAll(st, ports, now))
    ensures Owned(ReleaseAll(st, ports, now)) == Owned(st) - PortSet(ports)
    decreases |ports|
  {
    hide Inv, Untrack, Owned, PortSet;
    if ports == [] {
      assert PortSet([]) == {} by { EmptyPortSet(); }
    } else {
      PortSetSplit(ports);
      ReleaseKeeps(c, st, ports[0], now);
      ReleaseAllKeeps(c, Release(st, ports[0], now).0, ports[1..], now);
    }
  }

  lemma EmptyPortSet()
    ensures PortSet([]) == {}
  {}

  lemma {:induction false} ReleaseAllFrees(st: State, ports: seq<int>, now: int)
    requires NoRepeat(ports) && forall p <- ports :: p in st.owner
    ensures ReleaseAll(st, ports, now).owner == st.owner - PortSet(ports)
    ensures ReleaseAll(st, ports, now).released == Stamped(st.released, PortSet(ports), now)
    decreases |ports|
  {
    hide Untrack, PortSet;
    if ports == [] {
      EmptyPortSet();
      assert st.owner - {} == st.owner;
    } else {
      PortSetSplit(ports);
      var st1 := Release(st, ports[0], now).0;
      ReleaseAllFrees(st1, ports[1..], now);
      assert (st.owner - {ports[0]}) - PortSet(ports[1..]) == st.owner - PortSet(ports);
      assert Stamped(st1.released, PortSet(ports[1..]), now) == Stamped(st.released, PortSet(ports), now);
    }
  }

  /** Releasing a named session frees exactly its ports and forgets the session. */
  lemma ReleaseSessionKeeps(c: Config, st: State, sid: string, now: int)
    requires Inv(c, st) && (sid == "" ==> sid !in st.sessions)
    ensures Inv(c, ReleaseSession(st, sid, now)) && sid !in ReleaseSession(st, sid, now).sessions
    ensures Owned(ReleaseSession(st, sid, now)) == Owned(st) - PortSet(SessionPorts(st, sid))
    ensures ReleaseSession(st, sid, now).released == Stamped(st.released, PortSet(SessionPorts(st, sid)), now)
  {
    hide ReleaseAll, PortSet, Stamped, PoolDistinct, Owned;
    var ports := SessionPorts(st, sid);
    NothingRepeats();
    ReleaseAllKeeps(c, st, ports, now);
    ReleaseAllFrees(st, ports, now);
    if sid in st.sessions {
      SessionIsGone(c, st, ReleaseSession(st, sid, now), sid);
    } else {
      NothingToRelease(st, now);
    }
  }

  lemma NothingToRelease(st: State, now: int)
    ensures ReleaseAll(st, [], now) == st
  {}

  lemma SessionIsGone(c: Config, st: State, st': State, sid: string)
    requires Inv(c, st) && Inv(c, st') && sid != ""
    requires st'.owner == st.owner - PortSet(SessionPorts(st, sid))
    ensures sid !in st'.sessions
  {
    hide PoolDistinct, NoRepeat, Counted, Aligned;
    forall p | p in st'.owner ensures st'.owner[p] != sid {
      if st.owner[p] == sid {
        NamedPortIsOwned(st, p);
      }
    }
    if sid in st'.sessions {
      SomePortNames(c, st', sid);
    }
  }

  lemma SomePortNames(c: Config, st: State, sid: string)
    requires Inv(c, st) && sid in st.sessions
    ensures exists p :: p in st.owner && st.owner[p] == sid
  {
    hide PoolDistinct, NoRepeat, Counted, Aligned;
    var p := st.sessions[sid][0];
    assert p in st.sessions[sid];
    assert p in st.owner && st.owner[p] == sid;
  }

  /** The nameless session can be released only when it holds nothing. */
  lemma ReleaseSessionKeepsIff(c: Config, st: State, sid: string, now: int)
    requires Inv(c, st)
    ensures Inv(c, ReleaseSession(st, sid, now)) <==> (sid == "" ==> sid !in st.sessions)
  {
    if sid == "" && sid in st.sessions {
      NamelessStays(st, st.sessions[""], now);
      var p := st.sessions[""][0];
      assert p in st.sessions[""];
    } else {
      ReleaseSessionKeeps(c, st, sid, now);
    }
  }

  /** A pair allocated for the nameless session, whose release leaves the session's list naming free ports. */
  lemma NamelessSessionLeaks()
    ensures var c := Config(10, 20, 0, 0, 4, true);
            var (st, r) := AllocatePair(c, New(c), "", _ => true);
            r == Some(10) && Inv(c, st) && !Inv(c, ReleaseSession(st, "", 0))
  {
    hide Inv, AllocatePair;
    var c := Config(10, 20, 0, 0, 4, true);
    var bindable: Network := _ => true;
    NewIsValid(c);
    FirstPair(c, "", bindable);
    AllocatePairKeeps(c, New(c), "", bindable);
    ReleaseSessionKeepsIff(c, AllocatePair(c, New(c), "", bindable).0, "", 0);
  }

  /** A new allocator whose ports can all be bound gives out its first pair. */
  lemma FirstPair(c: Config, sid: string, bindable: Network)
    requires c.maxAllocations >= 2 && ScanStart(c) < c.maxPort - 1 && forall p :: bindable(p)
    ensures AllocatePair(c, New(c), sid, bindable).1 == Some(ScanStart(c))
    ensures sid in AllocatePair(c, New(c), sid, bindable).0.sessions
  {
    hide ScanStart;
    assert PairFree(New(c), bindable, ScanStart(c));
    assert FindPair(c, New(c), bindable) == Some(ScanStart(c));
    hide FindPair;
  }

  lemma {:induction false} NamelessStays(st: State, ports: seq<int>, now: int)
    requires forall p <- ports :: p in st.owner ==> st.owner[p] == ""
    ensures ReleaseAll(st, ports, now).sessions == st.sessions
    ensures forall p <- ports :: p !in ReleaseAll(st, ports, now).owner
    ensures ReleaseAll(st, ports, now).owner.Keys <= st.owner.Keys
    decreases |ports|
  {
    if ports != [] {
      assert ports == [ports[0]] + ports[1..];
      NamelessStays(Release(st, ports[0], now).0, ports[1..], now);
    }
  }

  // ---- Runs

  datatype Event =
    | RefillEvent(bindable: Network)
    | PairEvent(sid: string, bindable: Network)
    | BoundEvent(sid: string, bindable: Network)
    | ReleaseEvent(port: int)
    | ReleaseSessionEvent(sid: string)
    | CleanEvent

  datatype Timed = Timed(at: int, e: Event)

  /** The state, the clock, and when each port was last released. */
  datatype Trace = Trace(st: State, clock: int, freedAt: map<int, int>)

  function Apply(c: Config, st: State, e: Event, now: int): State {
    match e
    case RefillEvent(bindable) => RefillPool(c, st, bindable)
    case PairEvent(sid, bindable) => AllocatePair(c, st, sid, bindable).0
    case BoundEvent(sid, bindable) => AllocateBound(c, st, sid, bindable).0
    case ReleaseEvent(port) => Release(st, port, now).0
    case ReleaseSessionEvent(sid) => ReleaseSession(st, sid, now)
    case CleanEvent => CleanReleased(c, st, now)
  }

  /** The ports an event hands to a session. */
  function Handed(c: Config, st: State, e: Event): set<int> {
    match e
    case PairEvent(sid, bindable) =>
      (match AllocatePair(c, st, sid, bindable).1 case Some(p) => {p, p + 1} case None => {})
    case BoundEvent(sid, bindable) =>
      (match AllocateBound(c, st, sid, bindable).1 case Some(p) => {p} case None => {})
    case _ => {}
  }

  /** The ports an event releases. */
  function Freed(st: State, e: Event): set<int> {
    match e
    case ReleaseEvent(port) => if port in st.owner then {port} else {}
    case ReleaseSessionEvent(sid) => PortSet(SessionPorts(st, sid))
    case _ => {}
  }

  function Step(c: Config, t: Trace, x: Timed): Trace {
    Trace(Apply(c, t.st, x.e, x.at), x.at, Stamped(t.freedAt, Freed(t.st, x.e), x.at))
  }

  function Run(c: Config, start: int, xs: seq<Timed>): Trace {
    if xs == [] then Trace(New(c), start, map[]) else Step(c, Run(c, start, xs[..|xs| - 1]), xs[|xs| - 1])
  }

  /** The releases of the run concern named sessions only. */
  predicate Safe(st: State, e: Event) {
    match e
    case ReleaseEvent(port) => Releasable(st, port)
    case ReleaseSessionEvent(sid) => sid != "" || sid !in st.sessions
    case _ => true
  }

  ghost predicate Proper(c: Config, start: int, xs: seq<Timed>) {
    xs != [] ==>
      var t := Run(c, start, xs[..|xs| - 1]);
      Proper(c, start, xs[..|xs| - 1]) && t.clock <= xs[|xs| - 1].at && Safe(t.st, xs[|xs| - 1].e)
  }

  /** A port once released is either still in the reuse-delay map with its release time, or its delay
      has passed. */
  ghost predicate Delayed(c: Config, t: Trace) {
    forall p <- t.freedAt ::
      if p in t.st.released then t.st.released[p] == t.freedAt[p] else t.clock - t.freedAt[p] >= c.reuseDelay
  }

  lemma ApplyKeeps(c: Config, st: State, e: Event, now: int)
    requires Inv(c, st) && Safe(st, e)
    ensures Inv(c, Apply(c, st, e, now))
    ensures !e.CleanEvent? ==> Apply(c, st, e, now).released == Stamped(st.released, Freed(st, e), now)
    ensures Handed(c, st, e) !! st.released.Keys && Handed(c, st, e) !! Owned(st)
    ensures Owned(Apply(c, st, e, now)) == Owned(st) + Handed(c, st, e) - Freed(st, e)
  {
    hide Inv, Refill, AllocatePair, AllocateBound, ReleaseAll, Untrack;
    match e
    case RefillEvent(bindable) =>
      if c.reserveCount > |st.pool| {
        RefillKeeps(c, st, bindable, c.reserveCount - |st.pool|);
      }
    case PairEvent(sid, bindable) =>
      AllocatePairKeeps(c, st, sid, bindable);
      PairOwned(c, st, sid, bindable);
    case BoundEvent(sid, bindable) =>
      AllocateBoundKeeps(c, st, sid, bindable);
      BoundOwned(c, st, sid, bindable);
    case ReleaseEvent(port) =>
      ReleaseKeeps(c, st, port, now);
      OwnedOfUnallocated(st, port);
    case ReleaseSessionEvent(sid) => ReleaseSessionKeeps(c, st, sid, now);
    case CleanEvent =>
      CleanKeeps(c, st, now);
      OwnedOfCleaned(c, st, now);
  }

  lemma OwnedOfUnallocated(st: State, port: int)
    ensures port !in st.owner ==> port !in Owned(st)
  {}

  lemma OwnedOfCleaned(c: Config, st: State, now: int)
    ensures Owned(CleanReleased(c, st, now)) == Owned(st)
  {}

  lemma PairOwned(c: Config, st: State, sid: string, bindable: Network)
    requires Inv(c, st)
    ensures var (st', r) := AllocatePair(c, st, sid, bindable);
            && st'.released == st.released
            && Owned(st') == Owned(st) + (match r case Some(p) => {p, p + 1} case None => {})
  {
    hide Exclusive, FindPair, Counted, Limited, Aligned, SessionPorts;
    if |SessionPorts(st, sid)| + 2 <= c.maxAllocations {
      if st.pool != [] {
        PoolMembers(st);
        PoolTail(st.pool);
      } else if FindPair(c, st, bindable).Some? {
        assert forall q :: !Pooled([], q);
      }
    }
  }

  lemma BoundOwned(c: Config, st: State, sid: string, bindable: Network)
    requires Inv(c, st)
    ensures var (st', r) := AllocateBound(c, st, sid, bindable);
            && st'.released == st.released
            && Owned(st') == Owned(st) + (match r case Some(p) => {p} case None => {})
  {
    hide Exclusive, ScanPorts, Counted, Limited, Aligned, SessionPorts;
    NoPortIffBlockedAbove(c, st, bindable);
    if ScanPorts(st, bindable, st.nextPort, c.maxPort, Stride(c)).Some? {
      BoundPortSettles(st, ScanPorts(st, bindable, st.nextPort, c.maxPort, Stride(c)).value, sid);
    }
  }

  lemma StepKeepsDelay(c: Config, t: Trace, x: Timed)
    requires Inv(c, t.st) && Safe(t.st, x.e) && Delayed(c, t) && t.clock <= x.at
    ensures Delayed(c, Step(c, t, x))
    ensures forall p <- Handed(c, t.st, x.e) :: p in t.freedAt ==> x.at - t.freedAt[p] >= c.reuseDelay
  {
    hide Inv, Apply, Handed, Freed, Owned;
    ApplyKeeps(c, t.st, x.e, x.at);
    if x.e.CleanEvent? {
      CleanEffect(c, t.st, x);
    }
  }

  lemma CleanEffect(c: Config, st: State, x: Timed)
    requires x.e.CleanEvent?
    ensures Apply(c, st, x.e, x.at).released == CleanReleased(c, st, x.at).released && Freed(st, x.e) == {}
  {}

  /** In every reachable state the invariant holds: pool and sessions partition the allocated ports, each
      owned port is in exactly one session's list, limits and counters are right, no allocated port is
      in its reuse delay; and released ports wait out their delay. */
  lemma {:induction false} RunKeepsInv(c: Config, start: int, xs: seq<Timed>)
    requires Proper(c, start, xs)
    ensures Inv(c, Run(c, start, xs).st) && Delayed(c, Run(c, start, xs))
  {
    hide Inv, Apply, Delayed;
    if xs == [] {
      NewIsValid(c);
      NothingDelayed(c, start);
    } else {
      var t := Run(c, start, xs[..|xs| - 1]);
      RunKeepsInv(c, start, xs[..|xs| - 1]);
      ApplyKeeps(c, t.st, xs[|xs| - 1].e, xs[|xs| - 1].at);
      StepKeepsDelay(c, t, xs[|xs| - 1]);
    }
  }

  lemma NothingDelayed(c: Config, start: int)
    ensures Delayed(c, Trace(New(c), start, map[]))
  {}

  /** Exclusivity: whatever the last event hands out was owned by nobody, is owned now, and if it was ever
      released, at least the reuse delay ago. */
  lemma HandedOutExclusively(c: Config, start: int, xs: seq<Timed>)
    requires xs != [] && Proper(c, start, xs)
    ensures var t := Run(c, start, xs[..|xs| - 1]);
            var x := xs[|xs| - 1];
            && Handed(c, t.st, x.e) !! Owned(t.st)
            && Owned(Run(c, start, xs).st) == Owned(t.st) + Handed(c, t.st, x.e) - Freed(t.st, x.e)
            && forall p <- Handed(c, t.st, x.e) :: p in t.freedAt ==> x.at - t.freedAt[p] >= c.reuseDelay
  {
    hide Inv, Apply, Delayed, Handed, Freed, Owned;
    var t := Run(c, start, xs[..|xs| - 1]);
    RunKeepsInv(c, start, xs[..|xs| - 1]);
    ApplyKeeps(c, t.st, xs[|xs| - 1].e, xs[|xs| - 1].at);
    StepKeepsDelay(c, t, xs[|xs| - 1]);
  }

  /** A concrete failure: releasing a port that still sits in the pool breaks exclusivity. */
  lemma ReleasingPooledPortBreaks()
    ensures var c := Config(10, 20, 1, 0, 4, true);
            var st := RefillPool(c, New(c), _ => true);
            st.pool == [10] && Inv(c, st) && !Inv(c, Release(st, 10, 0).0)
  {
    hide Inv;
    var c := Config(10, 20, 1, 0, 4, true);
    var bindable: Network := _ => true;
    NewIsValid(c);
    RefillKeeps(c, New(c), bindable, 1);
    assert FindPair(c, New(c), bindable) == Some(10);
    var st := Reserve(New(c), 10).(pool := [10]);
    assert New(c).pool + [10] == [10];
    assert Refill(c, New(c), bindable, 1) == Refill(c, st, bindable, 0) == st;
    ReleaseKeepsIff(c, st, 10, 0);
  }
}
