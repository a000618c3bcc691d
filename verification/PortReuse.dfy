/** The reuse delay and the number of threads: with orderly releases it is kept in every interleaving of at most one
    thread, and of more threads only if there is no delay. */
module PortReuse {
  import opened Basics
  import opened PortSpec
  import opened PortThreads
  import opened PortPlaces
  import opened PortReleases
  import opened PortDelays
  import PortAlone
  import PortRaces

  /** The last step of the run allocates no port within its reuse delay. */
  ghost predicate LastKeepsDelay(c: Config, threads: nat, start: int, es: seq<Move>, e: Move) {
    RestsDelay(c, Run(c, Start(c, threads), es), Run(c, Start(c, threads), es + [e]), Clock(start, es + [e]))
  }

  /** No orderly interleaving of so many threads ever allocates a port within its reuse delay. */
  ghost predicate AlwaysKeepsDelay(c: Config, threads: nat) {
    forall start, es, e :: AllOrderly(c, Start(c, threads), es + [e]) && Timely(start, es + [e]) ==>
      LastKeepsDelay(c, threads, start, es, e)
  }

  // ---- One thread

  lemma OneThreadDoesNotDisturb(m: Machine, e: Move)
    requires |m.threads| <= 1
    ensures !Disturbs(m, e)
  {
    hide Blocked;
    if e.Go? && e.i < |m.threads| {
      assert m.threads[e.i].Releasing? ==> Vetted(m.threads[e.i]) == {};
    }
  }

  lemma {:induction false} OneThreadIsCalm(c: Config, threads: nat, es: seq<Move>)
    requires threads <= 1
    ensures NeverDisturbed(c, Start(c, threads), es) && |Run(c, Start(c, threads), es).threads| == threads
  {
    hide Disturbs;
    if es == [] {
    } else {
      OneThreadIsCalm(c, threads, es[..|es| - 1]);
      var m := Run(c, Start(c, threads), es[..|es| - 1]);
      OneThreadDoesNotDisturb(m, es[|es| - 1]);
      hide Next;
      ThreadsStay(c, m, es[|es| - 1]);
    }
  }

  lemma ThreadsStay(c: Config, m: Machine, e: Move)
    ensures |Next(c, m, e).threads| == |m.threads|
  {
    hide Act, Begin, Moves, Blocked;
  }

  lemma OneThreadKeeps(c: Config, threads: nat, start: int, es: seq<Move>, e: Move)
    requires threads <= 1 && AllOrderly(c, Start(c, threads), es + [e]) && Timely(start, es + [e])
    ensures LastKeepsDelay(c, threads, start, es, e)
  {
    hide AllOrderly, NeverPremature, NeverDisturbed, ExclusivelyThroughout, Rightful, Next, Start;
    OrderlyIsExclusive(c, threads, es + [e]);
    OneThreadIsCalm(c, threads, es + [e]);
    DelayIsKept(c, threads, start, es, e);
  }

  // ---- No delay

  /** The released map agrees with the stamps, and no stamp lies ahead of the clock. */
  ghost predicate StampedInTime(m: Machine, clock: int) {
    && (forall p <- m.st.released :: p in m.stamps && m.stamps[p] == m.st.released[p])
    && (forall p <- m.stamps :: m.stamps[p] <= clock)
  }

  lemma ActStamps(c: Config, st: State, pc: Pc, now: int, bindable: bool)
    ensures Act(c, st, pc, now, bindable).0.released == if pc.Deleted? then st.released[pc.port := now] else st.released
  {
    hide SessionPorts, Untrack, Probe, Seek;
  }

  lemma MoveStamps(c: Config, m: Machine, e: Move, clock: int)
    requires StampedInTime(m, clock) && ClockAfter(clock, e) >= clock
    ensures StampedInTime(Next(c, m, e), ClockAfter(clock, e))
  {
    hide Act, Begin, Moves, Blocked;
    if e.Go? && e.i < |m.threads| {
      ActStamps(c, m.st, m.threads[e.i], e.now, e.bindable);
    }
  }

  lemma {:induction false} AlwaysStamped(c: Config, threads: nat, start: int, es: seq<Move>)
    requires Timely(start, es)
    ensures StampedInTime(Run(c, Start(c, threads), es), Clock(start, es))
  {
    if es == [] {
    } else {
      hide Next, StampedInTime;
      AlwaysStamped(c, threads, start, es[..|es| - 1]);
      MoveStamps(c, Run(c, Start(c, threads), es[..|es| - 1]), es[|es| - 1], Clock(start, es[..|es| - 1]));
    }
  }

  lemma NoDelayIsKept(c: Config, threads: nat, start: int, es: seq<Move>, e: Move)
    requires c.reuseDelay <= 0 && Timely(start, es + [e])
    ensures LastKeepsDelay(c, threads, start, es, e)
  {
    hide Run;
    assert (es + [e])[..|es|] == es;
    AlwaysStamped(c, threads, start, es);
  }

  // ---- Two threads and a delay

  lemma {:induction false} NoReleaseIsOrderly(c: Config, m: Machine, es: seq<Move>, more: seq<Move>)
    requires AllOrderly(c, m, es) && forall e <- more :: !e.ReleaseOne? && !e.ReleaseEach?
    ensures AllOrderly(c, m, es + more)
  {
    hide Run;
    if more == [] {
      assert es + more == es;
    } else {
      var k := |more| - 1;
      NoReleaseIsOrderly(c, m, es, more[..k]);
      assert !more[k].ReleaseOne? && !more[k].ReleaseEach?;
      OrderlyMore(c, m, es + more[..k], more[k]);
      assert es + more[..k] + [more[k]] == es + more;
    }
  }

  lemma OrderlyMore(c: Config, m: Machine, es: seq<Move>, e: Move)
    requires AllOrderly(c, m, es) && Orderly(Run(c, m, es), e)
    ensures AllOrderly(c, m, es + [e])
  {
    hide Run, Orderly;
    assert (es + [e])[..|es|] == es;
  }

  /** The allocator can give out a port. */
  predicate GivesPorts(c: Config) {
    c.maxAllocations >= 1 && ScanStart(c) <= c.maxPort
  }

  /** Thread 1 has looked the first port up and not found it in its delay; nothing else has happened. */
  ghost predicate LookedUp(c: Config, m: Machine, threads: nat) {
    && 2 <= threads == |m.threads| && m.threads[1] == Seeking("b", ScanStart(c), true) && m.cleaner == None
    && forall j :: 0 <= j < threads && j != 1 ==> m.threads[j] == Idle
  }

  function Lookup(): seq<Move> {
    [AskBound(1, "b"), Go(1, 0, true), Go(1, 0, true)]
  }

  lemma LooksUpFirst(c: Config, threads: nat)
    requires GivesPorts(c) && threads >= 2
    ensures var m := Run(c, Start(c, threads), Lookup()); LookedUp(c, m, threads) && m.st == New(c)
  {
    hide ScanStart, Moves, Run;
    var (m, step) := (Start(c, threads), Go(1, 0, true));
    var m1 := Next(c, m, AskBound(1, "b"));
    var m2 := Next(c, m1, step);
    RunAfter(c, m, AskBound(1, "b"), [step, step]);
    RunAfter(c, m1, step, [step]);
    PortRaces.RunOfOne(c, m2, step);
    assert [AskBound(1, "b")] + [step, step] == Lookup() && [step] + [step] == [step, step];
    PortAlone.NotBlocked(m1, 1);
    PortAlone.NotBlocked(m2, 1);
    hide Blocked;
    assert m1.threads[1] == Hunting("b");
    assert m2.threads[1] == Seeking("b", ScanStart(c), false) && m2.st == New(c);
  }

  lemma BindsFirst(c: Config)
    requires GivesPorts(c)
    ensures var q := ScanStart(c);
            AllocateBound(c, New(c), "a", PortRaces.ANY).0 ==
            State(map[q := "a"], [], map["a" := [q]], map[], q + Stride(c), 1, 0, 0, 1)
  {
    hide ScanStart;
    var (st, q) := (New(c), ScanStart(c));
    assert Free(st, PortRaces.ANY, q);
    assert ScanPorts(st, PortRaces.ANY, q, c.maxPort, Stride(c)) == Some(q);
    assert [] + [q] == [q];
  }

  lemma FreesFirst(st: State, q: int)
    requires st.owner == map[q := "a"] && st.released == map[]
    ensures Release(st, q, 0).0.owner == map[] && Release(st, q, 0).0.released == map[q := 0]
  {
    hide Untrack;
  }

  /** A port no call has in hand and no pool holds is listed. */
  lemma OwnedIsListed(m: Machine, q: int)
    requires Exclusively(m) && q in m.st.owner && m.st.pool == []
    requires forall j :: 0 <= j < |m.threads| ==> HandOf(m.threads[j]) == []
    ensures q in m.place && m.place[q].Listed?
  {
    hide ListPlaced, Names;
    assert !At(m.place, q, InPool) by { assert !Pooled(m.st.pool, q); }
    forall j: nat | j < |m.threads| ensures !At(m.place, q, InHand(j)) {
      assert HandPlaced(m.place, j, HandOf(m.threads[j]));
    }
  }

  ghost predicate AtZero(es: seq<Move>) {
    forall e <- es :: e.Go? || e.CleanRead? ==> e.now == 0
  }

  /** The port has been allocated since thread 1 looked it up. */
  lemma AllocatedSince(c: Config, threads: nat) returns (es: seq<Move>)
    requires GivesPorts(c) && threads >= 2
    ensures var (m, q) := (Run(c, Start(c, threads), es), ScanStart(c));
            LookedUp(c, m, threads) && m.st.owner == map[q := "a"] && m.st.released == map[] && m.st.pool == []
    ensures AllOrderly(c, Start(c, threads), es) && AtZero(es)
  {
    hide Run, Next, ScanStart, AllOrderly, Start;
    var start := Start(c, threads);
    LooksUpFirst(c, threads);
    var m := Run(c, start, Lookup());
    var more := PortAlone.CallAlone(c, 0, PortRaces.ANY, m, AskBound(0, "a"));
    BindsFirst(c);
    var ask := [AskBound(0, "a")] + more;
    es := Lookup() + ask;
    PortRaces.RunSplit(c, start, Lookup(), ask);
    OrderlyNothing(c, start);
    NoReleaseIsOrderly(c, start, [], es);
    assert [] + es == es;
  }

  /** The port has been allocated and released since thread 1 looked it up. */
  lemma ReleasedSince(c: Config, threads: nat) returns (es: seq<Move>)
    requires GivesPorts(c) && threads >= 2
    ensures var m := Run(c, Start(c, threads), es);
            LookedUp(c, m, threads) && m.st.owner == map[] && m.st.released == map[ScanStart(c) := 0]
    ensures AllOrderly(c, Start(c, threads), es) && AtZero(es)
  {
    hide Run, Next, ScanStart, AllOrderly, Start, Orderly;
    var (start, q) := (Start(c, threads), ScanStart(c));
    var before := AllocatedSince(c, threads);
    var (m, e) := (Run(c, start, before), ReleaseOne(0, q));
    OrderlyIsExclusive(c, threads, before);
    FirstIsListed(c, threads, before, m);
    var more := PortAlone.CallAlone(c, 0, PortRaces.ANY, m, e);
    FreesFirst(m.st, q);
    PortRaces.RunSplit(c, start, before, [e] + more);
    OrderlyMore(c, start, before, e);
    NoReleaseIsOrderly(c, start, before + [e], more);
    es := before + ([e] + more);
    assert before + [e] + more == es;
  }

  lemma OrderlyNothing(c: Config, m: Machine)
    ensures AllOrderly(c, m, [])
  {}

  lemma FirstIsListed(c: Config, threads: nat, es: seq<Move>, m: Machine)
    requires LookedUp(c, m, threads) && ExclusivelyThroughout(c, Start(c, threads), es)
    requires m == Run(c, Start(c, threads), es)
    requires ScanStart(c) in m.st.owner && m.st.pool == []
    ensures Orderly(m, ReleaseOne(0, ScanStart(c)))
  {
    hide Run, Start, ScanStart, Exclusively;
    OwnedIsListed(m, ScanStart(c));
  }

  /** Thread 1 takes the port it looked up. */
  lemma TakesStale(c: Config, m: Machine, threads: nat)
    requires LookedUp(c, m, threads) && m.st.owner == map[]
    ensures var m' := Next(c, m, Go(1, 0, true)); m'.st.owner == map[ScanStart(c) := "b"]
  {
    hide ScanStart, Moves;
    PortAlone.NotBlocked(m, 1);
    hide Blocked;
  }

  lemma DelayIsBroken(c: Config, threads: nat)
    requires GivesPorts(c) && threads >= 2 && c.reuseDelay > 0
    ensures !AlwaysKeepsDelay(c, threads)
  {
    var (start, q, e) := (Start(c, threads), ScanStart(c), Go(1, 0, true));
    var es := ReleasedSince(c, threads);
    hide ScanStart, Start, AllOrderly, Next;
    var m := Run(c, start, es);
    TakesStale(c, m, threads);
    PortRaces.RunSplit(c, start, es, [e]);
    PortRaces.RunOfOne(c, m, e);
    hide Run;
    NoReleaseIsOrderly(c, start, es, [e]);
    PortRaces.AllAtZero(es);
    PortRaces.AllAtZero(es + [e]);
    AlwaysStamped(c, threads, 0, es);
    var m' := Run(c, start, es + [e]);
    assert q in Allocates(m, m') && q in m.stamps && m.stamps[q] == 0;
    assert !RestsDelay(c, m, m', 0);
    assert !LastKeepsDelay(c, threads, 0, es, e);
  }

  /** For every allocator that can give out a port: with orderly releases the reuse delay is kept in every
      interleaving of so many threads, if and only if there is at most one or no delay is set. */
  lemma DelayIsKeptIff(c: Config, threads: nat)
    requires GivesPorts(c)
    ensures AlwaysKeepsDelay(c, threads) <==> threads <= 1 || c.reuseDelay <= 0
  {
    hide Run, Start, GivesPorts, AllOrderly, NeverPremature, NeverDisturbed, ExclusivelyThroughout, Rightful;
    if threads > 1 && c.reuseDelay > 0 {
      DelayIsBroken(c, threads);
    } else {
      forall start, es, e | AllOrderly(c, Start(c, threads), es + [e]) && Timely(start, es + [e])
        ensures LastKeepsDelay(c, threads, start, es, e)
      {
        if c.reuseDelay <= 0 {
          NoDelayIsKept(c, threads, start, es, e);
        } else {
          OneThreadKeeps(c, threads, start, es, e);
        }
      }
    }
  }
}
