/** Runs in which overlapping calls exceed the session limit, wait for each other for ever, reuse a port within its
    delay, or free a port that another call has in hand. */
module PortRaces {
  import opened Basics
  import opened PortSpec
  import opened PortThreads
  import opened PortPlaces
  import opened PortDelays
  import PortAlone

  const ANY: Network := _ => true

  lemma {:induction false} RunSplit(c: Config, m: Machine, es: seq<Move>, more: seq<Move>)
    ensures Run(c, m, es + more) == Run(c, Run(c, m, es), more)
  {
    hide Next;
    if more == [] {
      assert es + more == es;
    } else {
      RunSplit(c, m, es, more[..|more| - 1]);
      assert (es + more)[..|es + more| - 1] == es + more[..|more| - 1];
    }
  }

  // ---- The overshoot

  /** A range with a pair for each of so many threads, and a limit of one pair. */
  function Crowd(threads: nat): Config {
    Config(0, 2 * threads, 0, 0, 2, true)
  }

  /** All threads are past the check, and the first k have their pair. */
  ghost predicate Served(m: Machine, threads: nat, k: nat) {
    && |m.threads| == threads && k <= threads
    && (forall j :: 0 <= j < k ==> m.threads[j] == Idle)
    && (forall j :: k <= j < threads ==> m.threads[j] == Wanting("s"))
    && m.st.pool == [] && m.st.released == map[] && m.st.nextPort == 2 * k
    && (forall p <- m.st.owner :: p < 2 * k)
    && |SessionPorts(m.st, "s")| == 2 * k
  }

  lemma {:induction false} AllPassCheck(threads: nat, k: nat) returns (es: seq<Move>)
    requires k <= threads
    ensures var m := Run(Crowd(threads), Start(Crowd(threads), threads), es);
            && m.st == New(Crowd(threads)) && |m.threads| == threads
            && (forall j :: 0 <= j < k ==> m.threads[j] == Wanting("s"))
            && (forall j :: k <= j < threads ==> m.threads[j] == Idle)
  {
    if k == 0 {
      return [];
    } else {
      var c := Crowd(threads);
      var es' := AllPassCheck(threads, k - 1);
      RunSplit(c, Start(c, threads), es', [AskPair(k - 1, "s")]);
      var m := Run(c, Start(c, threads), es');
      RunAfter(c, m, AskPair(k - 1, "s"), []);
      return es' + [AskPair(k - 1, "s")];
    }
  }

  lemma ServeOne(m: Machine, threads: nat, k: nat) returns (es: seq<Move>)
    requires k < threads && Served(m, threads, k)
    ensures Served(Run(Crowd(threads), m, es), threads, k + 1)
  {
    var c := Crowd(threads);
    PortAlone.ObtainAlone(c, 0, ANY, m.st, "s");
    assert PairFree(m.st, ANY, 2 * k) && FindPair(c, m.st, ANY) == Some(2 * k);
    var goal := PortAlone.Obtain(c, m.st, "s", ANY);
    assert goal == RecordPair(Reserve(m.st, 2 * k), 2 * k, "s");
    var n: nat :| PortAlone.Solo(c, 0, ANY, m.st, Wanting("s"), n) == (goal, Idle);
    es := PortAlone.RunsAlone(c, 0, ANY, m, k, n);
  }

  /** For every number of threads there is a run that takes a session over its limit by a pair for each other
      thread: all pass the check before the first records. */
  lemma {:induction false} OvershootIsReached(threads: nat) returns (es: seq<Move>)
    requires threads > 0
    ensures var (c, m) := (Crowd(threads), Run(Crowd(threads), Start(Crowd(threads), threads), es));
            && |SessionPorts(m.st, "s")| == c.maxAllocations + 2 * (threads - 1)
            && (forall i :: 0 <= i < threads ==> i < |m.threads| && m.threads[i] == Idle)
  {
    var c := Crowd(threads);
    var start := Start(c, threads);
    es := AllPassCheck(threads, threads);
    assert Served(Run(c, start, es), threads, 0);
    for k := 0 to threads
      invariant Served(Run(c, start, es), threads, k)
    {
      var more := ServeOne(Run(c, start, es), threads, k);
      RunSplit(c, start, es, more);
      es := es + more;
    }
  }

  // ---- The ring of waiting calls

  /** The first sixteen threads each hold one shard lock and need the next. */
  ghost predicate Ringed(m: Machine) {
    |m.threads| >= 16 && forall k :: 0 <= k < 16 ==> m.threads[k].HalfLocked? && Shard(m.threads[k].port) == k
  }

  lemma RingIsBlocked(m: Machine, k: nat)
    requires Ringed(m) && k < 16
    ensures Blocked(m, k)
  {
    var next := if k == 15 then 0 else k + 1;
    assert Shard(m.threads[k].port + 1) == next;
    assert Holds(m.threads[next], next);
  }

  /** None of them ever moves again, whatever the others do. */
  lemma {:induction false} RingStays(c: Config, m: Machine, es: seq<Move>)
    requires Ringed(m)
    ensures Ringed(Run(c, m, es)) && forall k :: 0 <= k < 16 ==> Run(c, m, es).threads[k] == m.threads[k]
  {
    if es == [] {
    } else {
      RingStays(c, m, es[..|es| - 1]);
      var (mid, e) := (Run(c, m, es[..|es| - 1]), es[|es| - 1]);
      forall k | 0 <= k < 16
        ensures |Next(c, mid, e).threads| == |mid.threads| && Next(c, mid, e).threads[k] == mid.threads[k]
      {
        MoveIsOwn(c, mid, e, k);
        RingIsBlocked(mid, k);
        hide Blocked, Act, Begin, Moves;
      }
    }
  }

  const ODD := Config(16, 64, 0, 0, 100, false)

  function Looks(j: nat): Pc {
    Scanning(ForSession("a"), 16 + j, 16 + j, false, 2)
  }

  /** The first k threads have found their pair in no reuse delay, thread 16 has bound k ports. */
  ghost predicate Lined(m: Machine, k: nat) {
    && |m.threads| == 17 && k <= 16
    && (forall j :: 0 <= j < k ==> m.threads[j] == Looks(j))
    && (forall j :: k <= j < 17 ==> m.threads[j] == Idle)
    && m.st.pool == [] && m.st.released == map[] && m.st.nextPort == 16 + k
    && (forall p <- m.st.owner :: p < 16 + k)
    && SessionPorts(m.st, "a") == [] && |SessionPorts(m.st, "b")| == k
  }

  lemma FourSteps(st: State, k: nat)
    requires k < 16 && st.pool == [] && st.released == map[] && st.nextPort == 16 + k
    ensures PortAlone.Solo(ODD, 0, ANY, st, Wanting("a"), 4) == (st, Looks(k))
  {
    hide PortAlone.Solo;
    var job := ForSession("a");
    PortAlone.SoloStep(ODD, 0, ANY, st, Wanting("a"), st, Hinting(job), 3);
    PortAlone.SoloStep(ODD, 0, ANY, st, Hinting(job), st, Scanning(job, 16 + k, 16 + k, false, 0), 2);
    PortAlone.SoloStep(ODD, 0, ANY, st, Scanning(job, 16 + k, 16 + k, false, 0), st,
                       Scanning(job, 16 + k, 16 + k, false, 1), 1);
    PortAlone.SoloStep(ODD, 0, ANY, st, Scanning(job, 16 + k, 16 + k, false, 1), st, Looks(k), 0);
    PortAlone.SoloNothing(ODD, 0, ANY, st, Looks(k));
  }

  lemma LooksOn(m: Machine, k: nat) returns (es: seq<Move>)
    requires k < 16 && Lined(m, k)
    ensures var m' := Run(ODD, m, es); m'.st == m.st && m'.threads == m.threads[k := Looks(k)]
  {
    FourSteps(m.st, k);
    hide PortAlone.Solo, Act, Moves, Blocked;
    var m1 := Next(ODD, m, AskPair(k, "a"));
    assert m1 == m.(threads := m.threads[k := Wanting("a")]);
    es := PortAlone.RunsAlone(ODD, 0, ANY, m1, k, 4);
    RunAfter(ODD, m, AskPair(k, "a"), es);
    assert m.threads[k := Wanting("a")][k := Looks(k)] == m.threads[k := Looks(k)];
    es := [AskPair(k, "a")] + es;
  }

  lemma BindsNext(st: State, k: nat)
    requires k < 16
    requires st.released == map[] && st.nextPort == 16 + k && 16 + k !in st.owner && |SessionPorts(st, "b")| == k
    ensures AllocateBound(ODD, st, "b", ANY).0 == Record(st, 16 + k, "b").(nextPort := 17 + k)
  {
    assert Free(st, ANY, 16 + k);
    assert ScanPorts(st, ANY, 16 + k, 64, 1) == Some(16 + k);
  }

  lemma LineUp(m: Machine, k: nat) returns (es: seq<Move>)
    requires k < 16 && Lined(m, k)
    ensures Lined(Run(ODD, m, es), k + 1)
  {
    es := LooksOn(m, k);
    var m1 := Run(ODD, m, es);
    var more := PortAlone.CallAlone(ODD, 0, ANY, m1, AskBound(16, "b"));
    BindsNext(m.st, k);
    hide Run, AllocateBound;
    RunSplit(ODD, m, es, [AskBound(16, "b")] + more);
    es := es + ([AskBound(16, "b")] + more);
  }

  /** The first k threads have taken their first lock. */
  ghost predicate Locking(m: Machine, k: nat) {
    && |m.threads| == 17 && k <= 16
    && (forall j :: 0 <= j < k ==> m.threads[j] == HalfLocked(ForSession("a"), 16 + j, 16 + j, false))
    && (forall j :: k <= j < 16 ==> m.threads[j] == Looks(j))
    && m.threads[16] == Idle
  }

  lemma LocksNext(m: Machine, k: nat)
    requires k < 16 && Locking(m, k)
    ensures Locking(Run(ODD, m, [Go(k, 0, true)]), k + 1)
  {
    var e := Go(k, 0, true);
    RunAfter(ODD, m, e, []);
    assert [e] + [] == [e];
    assert !Blocked(m, k) by {
      assert Needs(m.threads[k]) == Some(k);
      forall j | 0 <= j < 17 ensures !Holds(m.threads[j], k) {
      }
    }
    hide Blocked, Moves;
  }

  lemma {:induction false} AllLinedUp() returns (es: seq<Move>)
    ensures Lined(Run(ODD, Start(ODD, 17), es), 16)
  {
    var start := Start(ODD, 17);
    es := [];
    assert Lined(start, 0);
    hide Start, Lined, Next;
    for k := 0 to 16
      invariant Lined(Run(ODD, start, es), k)
    {
      var more := LineUp(Run(ODD, start, es), k);
      RunSplit(ODD, start, es, more);
      es := es + more;
    }
  }

  lemma {:induction false} AllLocked(m: Machine) returns (es: seq<Move>)
    requires Locking(m, 0)
    ensures Locking(Run(ODD, m, es), 16)
  {
    hide Locking, Next;
    es := [];
    for k := 0 to 16
      invariant Locking(Run(ODD, m, es), k)
    {
      LocksNext(Run(ODD, m, es), k);
      RunSplit(ODD, m, es, [Go(k, 0, true)]);
      es := es + [Go(k, 0, true)];
    }
  }

  lemma LinedIsLocking(m: Machine)
    requires Lined(m, 16)
    ensures Locking(m, 0)
  {}

  lemma LockedIsRinged(m: Machine)
    requires Locking(m, 16)
    ensures Ringed(m)
  {}

  /** Without the even-port setting, sixteen calls can come to wait for each other in a ring: a run from the start
      after which none of them ever moves again, whatever else happens. */
  lemma CallsWaitForever() returns (es: seq<Move>)
    ensures !ODD.evenOnly && Ringed(Run(ODD, Start(ODD, 17), es))
    ensures forall k :: 0 <= k < 16 ==> Blocked(Run(ODD, Start(ODD, 17), es), k)
    ensures forall more :: Ringed(Run(ODD, Start(ODD, 17), es + more)) &&
              forall k :: 0 <= k < 16 ==>
                Run(ODD, Start(ODD, 17), es + more).threads[k] == Run(ODD, Start(ODD, 17), es).threads[k]
  {
    hide Run, Lined, Locking, Blocked, Start;
    var start := Start(ODD, 17);
    var first := AllLinedUp();
    LinedIsLocking(Run(ODD, start, first));
    var second := AllLocked(Run(ODD, start, first));
    RunSplit(ODD, start, first, second);
    es := first + second;
    var m := Run(ODD, start, es);
    LockedIsRinged(m);
    forall k: nat | k < 16 ensures Blocked(m, k) {
      RingIsBlocked(m, k);
    }
    forall more ensures Ringed(Run(ODD, start, es + more)) &&
              forall k :: 0 <= k < 16 ==> Run(ODD, start, es + more).threads[k] == m.threads[k]
    {
      RunSplit(ODD, start, es, more);
      RingStays(ODD, m, more);
    }
  }

  // ---- One port, a release and a reservation

  function Narrow(delay: int): Config {
    Config(10, 12, 0, delay, 4, true)
  }

  lemma BindsTen(delay: int)
    ensures AllocateBound(Narrow(delay), New(Narrow(delay)), "a", ANY).0 ==
            State(map[10 := "a"], [], map["a" := [10]], map[], 12, 1, 0, 0, 1)
  {
    var st := New(Narrow(delay));
    assert Free(st, ANY, 10);
    assert ScanPorts(st, ANY, 10, 12, 2) == Some(10);
    assert [] + [10] == [10];
  }

  /** Session a holds port 10 alone, and no call is under way. */
  ghost predicate HoldsTen(m: Machine) {
    && m.threads == [Idle, Idle] && m.cleaner == None
    && m.st.owner == map[10 := "a"] && m.st.sessions == map["a" := [10]] && m.st.released == map[]
    && m.st.pool == [] && m.st.nextPort == 12
  }

  lemma TenIsBound(delay: int) returns (es: seq<Move>)
    ensures HoldsTen(Run(Narrow(delay), Start(Narrow(delay), 2), es))
    ensures forall e <- es :: e.Go? || e.CleanRead? ==> e.now == 0
  {
    var c := Narrow(delay);
    var start := Start(c, 2);
    assert start.threads == [Idle, Idle];
    var more := PortAlone.CallAlone(c, 0, ANY, start, AskBound(0, "a"));
    BindsTen(delay);
    es := [AskBound(0, "a")] + more;
  }

  function Found(seen: nat): Pc {
    Scanning(ForSession("b"), 12, 10, true, seen)
  }

  lemma WrapsToTen(delay: int, st: State)
    requires st.pool == [] && st.nextPort == 12 && 10 !in st.released && 11 !in st.released
    ensures PortAlone.Solo(Narrow(delay), 0, ANY, st, Wanting("b"), 4) == (st, Found(2))
  {
    hide PortAlone.Solo;
    var (c, job) := (Narrow(delay), ForSession("b"));
    PortAlone.SoloStep(c, 0, ANY, st, Wanting("b"), st, Hinting(job), 3);
    PortAlone.SoloStep(c, 0, ANY, st, Hinting(job), st, Found(0), 2);
    PortAlone.SoloStep(c, 0, ANY, st, Found(0), st, Found(1), 1);
    PortAlone.SoloStep(c, 0, ANY, st, Found(1), st, Found(2), 0);
    PortAlone.SoloNothing(c, 0, ANY, st, Found(2));
  }

  /** Thread 1 looks the pair up and finds neither port in its delay. */
  lemma LooksTenUp(delay: int, m: Machine) returns (es: seq<Move>)
    requires |m.threads| == 2 && m.threads[1] == Idle && !m.threads[0].HalfLocked?
    requires m.st.pool == [] && m.st.nextPort == 12 && 10 !in m.st.released && 11 !in m.st.released
    requires SessionPorts(m.st, "b") == []
    ensures var m' := Run(Narrow(delay), m, es);
            m'.st == m.st && m'.threads == m.threads[1 := Found(2)] && m'.cleaner == m.cleaner
    ensures forall e <- es :: e.Go? || e.CleanRead? ==> e.now == 0
  {
    var c := Narrow(delay);
    WrapsToTen(delay, m.st);
    hide PortAlone.Solo, Act, Moves, Blocked;
    var m1 := Next(c, m, AskPair(1, "b"));
    assert m1 == m.(threads := m.threads[1 := Wanting("b")]);
    es := PortAlone.RunsAlone(c, 0, ANY, m1, 1, 4);
    RunAfter(c, m, AskPair(1, "b"), es);
    assert m.threads[1 := Wanting("b")][1 := Found(2)] == m.threads[1 := Found(2)];
    es := [AskPair(1, "b")] + es;
  }

  lemma RunOfNothing(c: Config, m: Machine)
    ensures Run(c, m, []) == m
  {}

  lemma RunOfOne(c: Config, m: Machine, e: Move)
    ensures Run(c, m, [e]) == Next(c, m, e)
  {
    hide Next;
    RunAfter(c, m, e, []);
    RunOfNothing(c, Next(c, m, e));
    assert [e] + [] == [e];
  }

  lemma LocksTen(delay: int, m: Machine)
    requires |m.threads| == 2 && m.threads[1] == Found(2) && !m.threads[0].HalfLocked?
    ensures var m' := Next(Narrow(delay), m, Go(1, 0, true));
            m'.st == m.st && m'.threads == m.threads[1 := HalfLocked(ForSession("b"), 12, 10, true)]
  {
    PortAlone.NotBlocked(m, 1);
    hide Blocked, Moves;
  }

  lemma MarksTen(delay: int, m: Machine)
    requires |m.threads| == 2 && m.threads[1] == HalfLocked(ForSession("b"), 12, 10, true) && !m.threads[0].HalfLocked?
    requires 10 !in m.st.owner && 11 !in m.st.owner
    ensures var m' := Next(Narrow(delay), m, Go(1, 0, true));
            m'.st == PortAlone.Marked(m.st, 10) && m'.threads == m.threads[1 := Reserved(ForSession("b"), 10)]
  {
    PortAlone.NotBlocked(m, 1);
    hide Blocked, Moves;
  }

  /** Thread 1 takes both locks and reserves the pair it looked up. */
  lemma ReservesTen(delay: int, m: Machine)
    requires |m.threads| == 2 && m.threads[1] == Found(2) && !m.threads[0].HalfLocked?
    requires 10 !in m.st.owner && 11 !in m.st.owner
    ensures var mid := Run(Narrow(delay), m, [Go(1, 0, true)]);
            mid.st == m.st && mid.threads == m.threads[1 := HalfLocked(ForSession("b"), 12, 10, true)]
    ensures var m' := Run(Narrow(delay), m, [Go(1, 0, true), Go(1, 0, true)]);
            m'.st == PortAlone.Marked(m.st, 10) && m'.threads == m.threads[1 := Reserved(ForSession("b"), 10)]
  {
    hide Run, Next;
    var (c, step) := (Narrow(delay), Go(1, 0, true));
    var m1 := Next(c, m, step);
    LocksTen(delay, m);
    MarksTen(delay, m1);
    RunOfOne(c, m, step);
    RunAfter(c, m, step, [step]);
    RunOfOne(c, m1, step);
    assert [step] + [step] == [step, step];
  }

  lemma {:induction false} AllAtZero(es: seq<Move>)
    requires forall e <- es :: e.Go? || e.CleanRead? ==> e.now == 0
    ensures Timely(0, es) && Clock(0, es) == 0
  {
    if es == [] {
    } else {
      AllAtZero(es[..|es| - 1]);
    }
  }

  /** Thread 1 has looked the pair up, and port 10 has been released since. */
  lemma ReleasedSinceLookup(delay: int) returns (es: seq<Move>)
    ensures var m := Run(Narrow(delay), Start(Narrow(delay), 2), es);
            m.threads == [Idle, Found(2)] && m.st.owner == map[] && m.st.released == map[10 := 0]
    ensures forall e <- es :: e.Go? || e.CleanRead? ==> e.now == 0
  {
    var c := Narrow(delay);
    var start := Start(c, 2);
    hide Start, Next, Run;
    var es0 := TenIsBound(delay);
    var m := Run(c, start, es0);
    var es1 := LooksTenUp(delay, m);
    RunSplit(c, start, es0, es1);
    var m1 := Run(c, start, es0 + es1);
    var es2 := PortAlone.CallAlone(c, 0, ANY, m1, ReleaseOne(0, 10));
    RunSplit(c, start, es0 + es1, [ReleaseOne(0, 10)] + es2);
    es := es0 + es1 + ([ReleaseOne(0, 10)] + es2);
    TenReleased(m1.st);
  }

  lemma TenReleased(st: State)
    requires st.owner == map[10 := "a"] && st.released == map[]
    ensures Release(st, 10, 0).0.owner == map[] && Release(st, 10, 0).0.released == map[10 := 0]
  {
    hide Untrack;
  }

  /** However long the reuse delay, a port can be reserved at the very time of its release: the lookup comes before
      the release, the reservation after it. */
  lemma StaleLookup(delay: int) returns (es: seq<Move>, e: Move)
    requires delay > 0
    ensures var (c, m, m') := (Narrow(delay), Run(Narrow(delay), Start(Narrow(delay), 2), es),
                               Run(Narrow(delay), Start(Narrow(delay), 2), es + [e]));
            && Timely(0, es + [e]) && Clock(0, es + [e]) == 0
            && 10 in Allocates(m, m') && 10 in m.st.released && 0 - m.st.released[10] < c.reuseDelay
  {
    var c := Narrow(delay);
    var start := Start(c, 2);
    hide Start, Next, Run;
    var before := ReleasedSinceLookup(delay);
    ReservesTen(delay, Run(c, start, before));
    e := Go(1, 0, true);
    RunSplit(c, start, before, [e]);
    RunSplit(c, start, before, [e, e]);
    es := before + [e];
    assert before + [e, e] == es + [e];
    AllAtZero(es + [e]);
  }

  /** Thread 0 has copied session a's list, and thread 1 has released its port since. */
  lemma ReleasedSinceCopy() returns (es: seq<Move>)
    ensures var m := Run(Narrow(0), Start(Narrow(0), 2), es);
            && m.threads == [Releasing([10]), Idle] && m.cleaner == None && m.st.owner == map[] &&
               m.st.released == map[10 := 0]
            && m.st.pool == [] && m.st.nextPort == 12 && SessionPorts(m.st, "b") == []
  {
    var c := Narrow(0);
    var start := Start(c, 2);
    hide Start, Run;
    var es0 := TenIsBound(0);
    var m := Run(c, start, es0);
    var copy := ReleaseEach(0, "a");
    RunOfOne(c, m, copy);
    RunSplit(c, start, es0, [copy]);
    var m1 := Run(c, start, es0 + [copy]);
    CopiesTen(m);
    hide Next;
    var es1 := PortAlone.CallAlone(c, 0, ANY, m1, ReleaseOne(1, 10));
    RunSplit(c, start, es0 + [copy], [ReleaseOne(1, 10)] + es1);
    es := es0 + [copy] + ([ReleaseOne(1, 10)] + es1);
    TenReleased(m1.st);
  }

  lemma CopiesTen(m: Machine)
    requires HoldsTen(m)
    ensures Next(Narrow(0), m, ReleaseEach(0, "a")) == m.(threads := [Releasing([10]), Idle])
  {}

  /** The cleaner forgets port 10, as no delay is set. */
  lemma TenIsForgotten(m: Machine)
    requires m.cleaner == None && m.st.released == map[10 := 0]
    ensures Run(Narrow(0), m, [CleanRead(10, 0), CleanDelete]) == m.(st := m.st.(released := map[]))
  {
    var c := Narrow(0);
    RunAfter(c, m, CleanRead(10, 0), [CleanDelete]);
    assert [CleanRead(10, 0)] + [CleanDelete] == [CleanRead(10, 0), CleanDelete];
    var m1 := Next(c, m, CleanRead(10, 0));
    RunAfter(c, m1, CleanDelete, []);
    assert [CleanDelete] + [] == [CleanDelete];
    assert map[10 := 0] - {10} == map[];
  }

  /** Two releases of one port, one through a session list copied before the other: a call then has the port in
      hand, and the allocator holds it for free. */
  lemma DoubleRelease() returns (es: seq<Move>)
    ensures var m := Run(Narrow(0), Start(Narrow(0), 2), es);
            m.threads == [Deleted(10, "", []), Reserved(ForSession("b"), 10)] && 10 !in m.st.owner && !Exclusively(m)
  {
    var c := Narrow(0);
    var start := Start(c, 2);
    hide Start, Run, Next, Exclusively;
    var es0 := ReleasedSinceCopy();
    var clean := [CleanRead(10, 0), CleanDelete];
    TenIsForgotten(Run(c, start, es0));
    RunSplit(c, start, es0, clean);
    var m1 := Run(c, start, es0 + clean);
    SameSessions(Run(c, start, es0).st, m1.st);
    var es1 := LooksTenUp(0, m1);
    RunSplit(c, start, es0 + clean, es1);
    var m2 := Run(c, start, es0 + clean + es1);
    ReservesTen(0, m2);
    var locks := [Go(1, 0, true), Go(1, 0, true)];
    RunSplit(c, start, es0 + clean + es1, locks);
    var m3 := Run(c, start, es0 + clean + es1 + locks);
    DeletesTen(m3);
    RunSplit(c, start, es0 + clean + es1 + locks, [Go(0, 0, true)]);
    es := es0 + clean + es1 + locks + [Go(0, 0, true)];
  }

  lemma SameSessions(st: State, st': State)
    requires st.sessions == st'.sessions
    ensures SessionPorts(st, "b") == SessionPorts(st', "b")
  {}

  lemma DeletesTen(m: Machine)
    requires m.threads == [Releasing([10]), Reserved(ForSession("b"), 10)] && 10 in m.st.owner && m.st.owner[10] == ""
    ensures var m' := Run(Narrow(0), m, [Go(0, 0, true)]);
            m'.threads == [Deleted(10, "", []), Reserved(ForSession("b"), 10)] && 10 !in m'.st.owner && !Exclusively(m')
  {
    var (c, step) := (Narrow(0), Go(0, 0, true));
    PortAlone.NotBlocked(m, 0);
    RunOfOne(c, m, step);
    hide Blocked;
    assert [10][1..] == [];
    var m' := Next(c, m, step);
    assert m'.threads == [Deleted(10, "", []), Reserved(ForSession("b"), 10)];
    hide Next;
    assert 10 in HandOf(m'.threads[1]);
    assert HandPlaced(m'.place, 1, HandOf(m'.threads[1])) ==> At(m'.place, 10, InHand(1));
  }
}
