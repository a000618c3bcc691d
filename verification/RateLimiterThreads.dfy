/** The rate limiter called by many threads: every section that holds a lock is a step of its own, and so is
    every atomic counter update. */
module RateLimiterThreads {
  import opened Basics
  import opened TokenBuckets
  import R = RateLimiting

  /** Where a call of Allow stands: total counted; a block read; that block found to have run out; past
      isBlocked; past the global and the address bucket; verdict known but not counted; verdict counted but
      maybeBlockIP still to run. */
  datatype Pc =
    | Idle
    | Entered(ip: string, call: string)
    | Found(ip: string, call: string, at: real)
    | Lifting(ip: string, call: string)
    | Cleared(ip: string, call: string)
    | PastGlobal(ip: string, call: string)
    | PastAddress(ip: string, call: string)
    | Decided(ip: string, call: string, verdict: R.Verdict)
    | Judging(ip: string)

  datatype Machine = Machine(st: R.State, threads: seq<Pc>)

  datatype Step =
    | Enter(i: nat, ip: string, call: string)
    | ReadBlock(i: nat) | JudgeBlock(i: nat, now: real) | Lift(i: nat)
    | AskGlobal(i: nat, now: real) | AskAddress(i: nat, now: real) | AskCall(i: nat, now: real)
    | CountVerdict(i: nat) | Judge(i: nat, now: real)
    | BlockStep(ip: string, now: real) | UnblockStep(ip: string) | CleanupStep(now: real)

  function New(c: R.Config, start: real, threads: nat): Machine {
    Machine(R.New(c, start), seq(threads, _ => Idle))
  }

  function Goes(m: Machine, i: nat, pc: Pc): Machine
    requires i < |m.threads|
  {
    m.(threads := m.threads[i := pc])
  }

  /** isBlocked deletes and counts without looking again whether the block is still there. */
  function LiftNow(st: R.State, ip: string): R.State {
    st.(blocked := st.blocked - {ip}, stats := st.stats.(blockedIPs := st.stats.blockedIPs - 1))
  }

  function AddTotal(st: R.State): R.State {
    st.(stats := st.stats.(total := st.stats.total + 1))
  }

  function AddVerdict(st: R.State, v: R.Verdict): R.State {
    st.(stats := st.stats.(verdicts := st.stats.verdicts[v := R.Tally(st.stats.verdicts, v) + 1]))
  }

  /** A step that is not enabled changes nothing. */
  function Next(c: R.Config, m: Machine, e: Step): Machine {
    match e
    case BlockStep(ip, now) => m.(st := R.Block(m.st, ip, now))
    case UnblockStep(ip) => m.(st := R.Unblock(m.st, ip))
    case CleanupStep(now) => m.(st := R.Cleanup(c, m.st, now))
    case _ => if e.i >= |m.threads| then m else Move(c, m, e)
  }

  predicate OfThread(e: Step) {
    !e.BlockStep? && !e.UnblockStep? && !e.CleanupStep?
  }

  function Move(c: R.Config, m: Machine, e: Step): Machine
    requires OfThread(e) && e.i < |m.threads|
  {
    var pc := m.threads[e.i];
    match e
    case Enter(i, ip, call) => if pc != Idle then m else Goes(m, i, Entered(ip, call)).(st := AddTotal(m.st))
    case ReadBlock(i) =>
      if !pc.Entered? then m
      else Goes(m, i, if pc.ip in m.st.blocked then Found(pc.ip, pc.call, m.st.blocked[pc.ip])
                else Cleared(pc.ip, pc.call))
    case JudgeBlock(i, now) =>
      if !pc.Found? then m
      else Goes(m, i, if now - pc.at > c.blockDuration then Lifting(pc.ip, pc.call)
                else Decided(pc.ip, pc.call, R.RejectedBlocked))
    case Lift(i) => if !pc.Lifting? then m else Goes(m, i, Cleared(pc.ip, pc.call)).(st := LiftNow(m.st, pc.ip))
    case AskGlobal(i, now) =>
      if !pc.Cleared? then m
      else
        var (st, ok) := R.PassGlobal(c, m.st, now);
        Goes(m, i, if ok then PastGlobal(pc.ip, pc.call) else Decided(pc.ip, pc.call, R.RejectedGlobal)).(st := st)
    case AskAddress(i, now) =>
      if !pc.PastGlobal? then m
      else
        var (st, ok) := R.PassIp(c, m.st, pc.ip, now);
        Goes(m, i, if ok then PastAddress(pc.ip, pc.call) else Decided(pc.ip, pc.call, R.RejectedPerIP)).(st := st)
    case AskCall(i, now) =>
      if !pc.PastAddress? then m
      else
        var (st, ok) := R.PassCall(c, m.st, pc.call, now);
        Goes(m, i, Decided(pc.ip, pc.call, if ok then R.Allowed else R.RejectedPerCall)).(st := st)
    case CountVerdict(i) =>
      if !pc.Decided? then m
      else Goes(m, i, if pc.verdict == R.RejectedPerIP then Judging(pc.ip)
                else Idle).(st := AddVerdict(m.st, pc.verdict))
    case Judge(i, now) => if !pc.Judging? then m else Goes(m, i, Idle).(st := R.MaybeBlock(m.st, pc.ip, now))
  }

  function Run(c: R.Config, m: Machine, es: seq<Step>): Machine {
    if es == [] then m else Next(c, Run(c, m, es[..|es| - 1]), es[|es| - 1])
  }

  // ---- What survives every interleaving

  /** Counted in total, not yet under a verdict. */
  predicate Undecided(pc: Pc) {
    !pc.Idle? && !pc.Judging?
  }

  /** Every request is counted under one verdict or on its way to one, and the two gauges of buckets are
      exact. */
  ghost predicate Counted(m: Machine) {
    && m.st.stats.total == R.Sum(m.st.stats.verdicts) + CountIf(m.threads, Undecided)
    && m.st.stats.activeIPs == |m.st.ips|
    && m.st.stats.activeCalls == |m.st.calls|
  }

  /** Nothing but its buckets, and their gauges with them. */
  ghost predicate SameCounts(st: R.State, st': R.State) {
    && st'.stats.total == st.stats.total && st'.stats.verdicts == st.stats.verdicts
    && st'.stats.activeIPs - |st'.ips| == st.stats.activeIPs - |st.ips|
    && st'.stats.activeCalls - |st'.calls| == st.stats.activeCalls - |st.calls|
  }

  ghost predicate SameBlocks(st: R.State, st': R.State) {
    st'.blocked == st.blocked && st'.stats.blockedIPs == st.stats.blockedIPs
  }

  lemma PassEffects(c: R.Config, st: R.State, ip: string, call: string, now: real)
    ensures SameCounts(st, R.PassGlobal(c, st, now).0) && SameBlocks(st, R.PassGlobal(c, st, now).0)
    ensures SameCounts(st, R.PassIp(c, st, ip, now).0) && SameBlocks(st, R.PassIp(c, st, ip, now).0)
    ensures SameCounts(st, R.PassCall(c, st, call, now).0) && SameBlocks(st, R.PassCall(c, st, call, now).0)
  {
    hide Check, TokenBuckets.Allow;
    R.CheckGrows(c.ip, st.ips, ip, now);
    R.CheckGrows(c.call, st.calls, call, now);
  }

  lemma MoveKeepsCounted(c: R.Config, m: Machine, e: Step)
    requires OfThread(e) && e.i < |m.threads| && Counted(m)
    ensures Counted(Move(c, m, e))
  {
    hide R.PassGlobal, R.PassIp, R.PassCall, R.Sum, R.Tally;
    var m', pc := Move(c, m, e), m.threads[e.i];
    CountUpdate(m.threads, Undecided, e.i, m'.threads[e.i]);
    if e.AskGlobal? || e.AskAddress? || e.AskCall? {
      PassEffects(c, m.st, if pc.PastGlobal? then pc.ip else "", if pc.PastAddress? then pc.call else "", e.now);
    }
    if e.CountVerdict? && pc.Decided? {
      VerdictAdds(m.st, pc.verdict);
    }
  }

  lemma VerdictAdds(st: R.State, v: R.Verdict)
    ensures R.Sum(AddVerdict(st, v).stats.verdicts) == R.Sum(st.stats.verdicts) + 1
  {}

  lemma {:induction false} CountersSurvive(c: R.Config, start: real, threads: nat, es: seq<Step>)
    ensures Counted(Run(c, New(c, start, threads), es))
  {
    hide CountIf;
    if es == [] {
      CountNone(New(c, start, threads).threads, Undecided);
    } else {
      var m, e := Run(c, New(c, start, threads), es[..|es| - 1]), es[|es| - 1];
      CountersSurvive(c, start, threads, es[..|es| - 1]);
      if OfThread(e) {
        if e.i < |m.threads| {
          hide Counted, Move;
          MoveKeepsCounted(c, m, e);
        }
      } else {
        hide R.Sum, Evict, R.LiveBlocks;
      }
    }
  }

  // ---- The gauge of blocked addresses

  ghost predicate GaugeExact(m: Machine) {
    m.st.stats.blockedIPs == |m.st.blocked|
  }

  /** maybeBlockIP would block. */
  predicate Punishes(st: R.State, ip: string) {
    ip in st.ips && st.ips[ip].requests > 10 && 2 * st.ips[ip].rejected > st.ips[ip].requests
  }

  /** The call acts on what it read of its address earlier, but that has changed: the block to lift is gone,
      or the address to block is blocked already. */
  predicate Stale(m: Machine, e: Step) {
    OfThread(e) && e.i < |m.threads| &&
    var pc := m.threads[e.i];
    || (e.Lift? && pc.Lifting? && pc.ip !in m.st.blocked)
    || (e.Judge? && pc.Judging? && Punishes(m.st, pc.ip) && pc.ip in m.st.blocked)
  }

  lemma MoveKeepsGaugeIff(c: R.Config, m: Machine, e: Step)
    requires GaugeExact(m) && OfThread(e) && e.i < |m.threads|
    ensures GaugeExact(Move(c, m, e)) <==> !Stale(m, e)
  {
    hide R.PassGlobal, R.PassIp, R.PassCall, R.Tally;
    var pc := m.threads[e.i];
    if e.AskGlobal? || e.AskAddress? || e.AskCall? {
      PassEffects(c, m.st, if pc.PastGlobal? then pc.ip else "", if pc.PastAddress? then pc.call else "", e.now);
    }
    if e.Lift? && pc.Lifting? {
      BlockedWithout(m.st.blocked, pc.ip);
    }
  }

  /** A step keeps the gauge exact if and only if it is not stale. */
  lemma StepKeepsGaugeIff(c: R.Config, m: Machine, e: Step)
    requires GaugeExact(m)
    ensures GaugeExact(Next(c, m, e)) <==> !Stale(m, e)
  {
    hide Move, Evict, R.LiveBlocks;
    if OfThread(e) {
      if e.i < |m.threads| {
        MoveKeepsGaugeIff(c, m, e);
      }
    } else if e.UnblockStep? {
      BlockedWithout(m.st.blocked, e.ip);
    }
  }

  lemma BlockedWithout(blocked: map<string, real>, ip: string)
    ensures |blocked - {ip}| == |blocked| - if ip in blocked then 1 else 0
  {
    if ip in blocked {
      assert (blocked - {ip})[ip := blocked[ip]] == blocked;
    } else {
      assert blocked - {ip} == blocked;
    }
  }

  /** Throughout the run. */
  ghost predicate GaugeExactThroughout(c: R.Config, m: Machine, es: seq<Step>) {
    GaugeExact(Run(c, m, es)) && (es != [] ==> GaugeExactThroughout(c, m, es[..|es| - 1]))
  }

  ghost predicate NeverStale(c: R.Config, m: Machine, es: seq<Step>) {
    es != [] ==> NeverStale(c, m, es[..|es| - 1]) && !Stale(Run(c, m, es[..|es| - 1]), es[|es| - 1])
  }

  /** In every interleaving: the count of blocked addresses is right all along, if and only if no call lifts a
      block that is gone and none blocks an address that is blocked already. */
  lemma {:induction false} GaugeExactIff(c: R.Config, m: Machine, es: seq<Step>)
    requires GaugeExact(m)
    ensures GaugeExactThroughout(c, m, es) <==> NeverStale(c, m, es)
  {
    hide GaugeExact, Stale, Next;
    if es == [] {
    } else {
      var k := |es| - 1;
      GaugeExactIff(c, m, es[..k]);
      if GaugeExactThroughout(c, m, es[..k]) {
        StepKeepsGaugeIff(c, Run(c, m, es[..k]), es[k]);
      }
    }
  }

  // ---- Calls for one address that do not overlap

  predicate BusyWith(pc: Pc, ip: string) {
    !pc.Idle? && pc.ip == ip
  }

  /** The step starts no call for an address another call is about, and changes no block of an address that a
      call is about. */
  ghost predicate Apart(m: Machine, e: Step) {
    match e
    case Enter(i, ip, _) => forall j :: 0 <= j < |m.threads| && j != i ==> !BusyWith(m.threads[j], ip)
    case BlockStep(ip, _) => forall j :: 0 <= j < |m.threads| ==> !BusyWith(m.threads[j], ip)
    case UnblockStep(ip) => forall j :: 0 <= j < |m.threads| ==> !BusyWith(m.threads[j], ip)
    case CleanupStep(_) => forall j :: 0 <= j < |m.threads| ==> m.threads[j] == Idle
    case _ => true
  }

  /** What a call knows of its address is still so. */
  predicate UpToDate(st: R.State, pc: Pc) {
    && (pc.Found? || pc.Lifting? ==> pc.ip in st.blocked)
    && (pc.Cleared? || pc.PastGlobal? || pc.PastAddress? || (pc.Decided? && pc.verdict == R.RejectedPerIP) ||
        pc.Judging? ==>
          pc.ip !in st.blocked)
  }

  ghost predicate Tidy(m: Machine) {
    && (forall j :: 0 <= j < |m.threads| ==> UpToDate(m.st, m.threads[j]))
    && (forall j, k :: 0 <= j < k < |m.threads| && !m.threads[j].Idle? ==> !BusyWith(m.threads[k], m.threads[j].ip))
  }

  lemma ApartKeepsTidy(c: R.Config, m: Machine, e: Step)
    requires Tidy(m) && Apart(m, e)
    ensures Tidy(Next(c, m, e)) && !Stale(m, e)
  {
    hide Check, TokenBuckets.Allow, R.Sum, R.Tally, Evict, R.LiveBlocks, R.Cleanup;
    if OfThread(e) && e.i < |m.threads| {
      MoveTouchesOwn(c, m, e);
      var m' := Move(c, m, e);
      hide Move;
      forall j | 0 <= j < |m.threads| && j != e.i ensures UpToDate(m'.st, m'.threads[j]) {
      }
    }
  }

  /** A thread's step moves only that thread and changes at most the block of its own address. */
  lemma MoveTouchesOwn(c: R.Config, m: Machine, e: Step)
    requires OfThread(e) && e.i < |m.threads|
    ensures var (m', pc) := (Move(c, m, e), m.threads[e.i]);
            && |m'.threads| == |m.threads|
            && (forall j :: 0 <= j < |m.threads| && j != e.i ==> m'.threads[j] == m.threads[j])
            && (pc.Idle? ==>
                  && m'.st.blocked == m.st.blocked
                  && (m'.threads[e.i] == Idle || (e.Enter? && m'.threads[e.i] == Entered(e.ip, e.call))))
            && (!pc.Idle? ==> (m'.threads[e.i] == Idle || m'.threads[e.i].ip == pc.ip) &&
                              forall ip :: ip != pc.ip ==> (ip in m'.st.blocked <==> ip in m.st.blocked))
            && (UpToDate(m.st, pc) ==> UpToDate(m'.st, m'.threads[e.i]) && !Stale(m, e))
  {
    hide Check, TokenBuckets.Allow, R.Sum, R.Tally;
  }

  ghost predicate AllApart(c: R.Config, m: Machine, es: seq<Step>) {
    es != [] ==> AllApart(c, m, es[..|es| - 1]) && Apart(Run(c, m, es[..|es| - 1]), es[|es| - 1])
  }

  /** When calls for one address never overlap, with each other or with blocking, unblocking and cleanup,
      the count of blocked addresses is right all along. */
  lemma {:induction false} ApartIsExact(c: R.Config, start: real, threads: nat, es: seq<Step>)
    requires AllApart(c, New(c, start, threads), es)
    ensures Tidy(Run(c, New(c, start, threads), es)) && NeverStale(c, New(c, start, threads), es)
    ensures GaugeExactThroughout(c, New(c, start, threads), es)
  {
    var m, k := New(c, start, threads), |es| - 1;
    assert Tidy(m) && GaugeExact(m);
    hide Stale, Next, Apart, Tidy, GaugeExact, New;
    if es == [] {
    } else {
      ApartIsExact(c, start, threads, es[..k]);
      ApartKeepsTidy(c, Run(c, m, es[..k]), es[k]);
    }
    GaugeExactIff(c, m, es);
  }

  // ---- A call that nothing overlaps

  function Turn(i: nat, ip: string, call: string, now: real): seq<Step> {
    [Enter(i, ip, call), ReadBlock(i), JudgeBlock(i, now), Lift(i), AskGlobal(i, now), AskAddress(i, now),
     AskCall(i, now), CountVerdict(i), Judge(i, now)]
  }

  lemma RunTwo(c: R.Config, m: Machine, a: Step, b: Step)
    ensures Run(c, m, [a, b]) == Next(c, Next(c, m, a), b)
  {
    hide Next;
    assert [a, b][..1] == [a] && [a][..0] == [];
    assert Run(c, m, [a]) == Next(c, m, a);
  }

  lemma {:induction false} RunConcat(c: R.Config, m: Machine, a: seq<Step>, b: seq<Step>)
    ensures Run(c, m, a + b) == Run(c, Run(c, m, a), b)
  {
    hide Next;
    if b == [] {
      assert a + b == a;
    } else {
      assert (a + b)[..|a + b| - 1] == a + b[..|b| - 1];
      RunConcat(c, m, a, b[..|b| - 1]);
    }
  }

  function EndOf(m: Machine, i: nat, st: R.State, pc: Pc): Machine
    requires i < |m.threads|
  {
    Machine(st, m.threads[i := pc])
  }

  lemma FirstPart(c: R.Config, m: Machine, i: nat, ip: string, call: string, now: real)
    requires i < |m.threads| && m.threads[i] == Idle
    ensures Run(c, m, [Enter(i, ip, call), ReadBlock(i), JudgeBlock(i, now), Lift(i)]) ==
              if R.Blocked(c, m.st, ip, now) then EndOf(m, i, AddTotal(m.st), Decided(ip, call, R.RejectedBlocked))
              else EndOf(m, i, AddTotal(R.LiftBlock(c, m.st, ip, now)), Cleared(ip, call))
  {
    var (a, b) := ([Enter(i, ip, call), ReadBlock(i)], [JudgeBlock(i, now), Lift(i)]);
    assert a + b == [Enter(i, ip, call), ReadBlock(i), JudgeBlock(i, now), Lift(i)];
    RunConcat(c, m, a, b);
    RunTwo(c, m, a[0], a[1]);
    RunTwo(c, Run(c, m, a), b[0], b[1]);
    var at := if ip in m.st.blocked then Found(ip, call, m.st.blocked[ip]) else Cleared(ip, call);
    assert Run(c, m, a).threads == m.threads[i := at];
  }

  /** What the three bucket checks decide from a state past isBlocked. */
  function Asked(c: R.Config, st: R.State, ip: string, call: string, now: real): (R.State, R.Verdict) {
    var (st1, global) := R.PassGlobal(c, st, now);
    if !global then (st1, R.RejectedGlobal)
    else
      var (st2, address) := R.PassIp(c, st1, ip, now);
      if !address then (st2, R.RejectedPerIP)
      else
        var (st3, perCall) := R.PassCall(c, st2, call, now);
        (st3, if perCall then R.Allowed else R.RejectedPerCall)
  }

  lemma SecondPart(c: R.Config, m: Machine, i: nat, now: real)
    requires i < |m.threads| && (m.threads[i].Cleared? || m.threads[i].Decided?)
    ensures var pc := m.threads[i];
            Run(c, m, [AskGlobal(i, now), AskAddress(i, now), AskCall(i, now)]) ==
              if pc.Decided? then m
              else
                var (st, v) := Asked(c, m.st, pc.ip, pc.call, now);
                EndOf(m, i, st, Decided(pc.ip, pc.call, v))
  {
    hide R.PassGlobal, R.PassIp, R.PassCall;
    var (e1, e2, e3) := (AskGlobal(i, now), AskAddress(i, now), AskCall(i, now));
    assert [e1, e2, e3][..2] == [e1, e2];
    RunTwo(c, m, e1, e2);
    var m1 := Next(c, m, e1);
    var m2 := Next(c, m1, e2);
    var m3 := Next(c, m2, e3);
    assert Run(c, m, [e1, e2, e3]) == m3;
    if m.threads[i].Cleared? {
      var (ip, call) := (m.threads[i].ip, m.threads[i].call);
      assert m1.threads == m.threads[i := m1.threads[i]];
      assert m2.threads == m.threads[i := m2.threads[i]];
      assert m3.threads == m.threads[i := m3.threads[i]];
    }
  }

  lemma ThirdPart(c: R.Config, m: Machine, i: nat, now: real)
    requires i < |m.threads| && m.threads[i].Decided?
    ensures var pc := m.threads[i];
            Run(c, m, [CountVerdict(i), Judge(i, now)]) ==
              var st := AddVerdict(m.st, pc.verdict);
              EndOf(m, i, if pc.verdict == R.RejectedPerIP then R.MaybeBlock(st, pc.ip, now) else st, Idle)
  {
    hide R.MaybeBlock;
    RunTwo(c, m, CountVerdict(i), Judge(i, now));
    var m1 := Next(c, m, CountVerdict(i));
    assert Next(c, m1, Judge(i, now)).threads == m.threads[i := Idle];
  }

  /** Counting the total first or last makes no difference to the checks. */
  lemma AskedIgnoresTotal(c: R.Config, st: R.State, ip: string, call: string, now: real)
    ensures Asked(c, AddTotal(st), ip, call, now) ==
              (AddTotal(Asked(c, st, ip, call, now).0), Asked(c, st, ip, call, now).1)
  {
    hide R.PassGlobal, R.PassIp, R.PassCall, AddTotal;
    PassesIgnoreTotal(c, st, ip, call, now);
    var st1 := R.PassGlobal(c, st, now).0;
    PassesIgnoreTotal(c, st1, ip, call, now);
    PassesIgnoreTotal(c, R.PassIp(c, st1, ip, now).0, ip, call, now);
  }

  lemma PassesIgnoreTotal(c: R.Config, st: R.State, ip: string, call: string, now: real)
    ensures R.PassGlobal(c, AddTotal(st), now) == (AddTotal(R.PassGlobal(c, st, now).0), R.PassGlobal(c, st, now).1)
    ensures R.PassIp(c, AddTotal(st), ip, now) == (AddTotal(R.PassIp(c, st, ip, now).0), R.PassIp(c, st, ip, now).1)
    ensures R.PassCall(c, AddTotal(st), call, now) == (AddTotal(R.PassCall(c, st, call, now).0),
                                                       R.PassCall(c, st, call, now).1)
  {
    hide Check, TokenBuckets.Allow;
  }

  lemma CountingCommutes(st: R.State, v: R.Verdict, ip: string, now: real)
    ensures R.MaybeBlock(AddVerdict(AddTotal(st), v), ip, now) == R.Counted(R.MaybeBlock(st, ip, now), v)
    ensures AddVerdict(AddTotal(st), v) == R.Counted(st, v)
  {}

  /** A call that nothing overlaps does what Allow of the specification does. */
  lemma TurnIsAllow(c: R.Config, m: Machine, i: nat, ip: string, call: string, now: real)
    requires i < |m.threads| && m.threads[i] == Idle
    ensures Run(c, m, Turn(i, ip, call, now)) == m.(st := R.Allow(c, m.st, ip, call, now).0)
  {
    hide Run, R.PassGlobal, R.PassIp, R.PassCall, R.MaybeBlock, R.Counted, R.LiftBlock, R.Blocked, AddTotal, AddVerdict;
    var a := [Enter(i, ip, call), ReadBlock(i), JudgeBlock(i, now), Lift(i)];
    var b := [AskGlobal(i, now), AskAddress(i, now), AskCall(i, now)];
    var d := [CountVerdict(i), Judge(i, now)];
    assert Turn(i, ip, call, now) == a + b + d;
    RunConcat(c, m, a + b, d);
    RunConcat(c, m, a, b);
    FirstPart(c, m, i, ip, call, now);
    var m1 := Run(c, m, a);
    SecondPart(c, m1, i, now);
    var m2 := Run(c, m1, b);
    ThirdPart(c, m2, i, now);
    if R.Blocked(c, m.st, ip, now) {
      CountingCommutes(m.st, R.RejectedBlocked, ip, now);
    } else {
      var lifted := R.LiftBlock(c, m.st, ip, now);
      AskedIgnoresTotal(c, lifted, ip, call, now);
      var (st, v) := Asked(c, lifted, ip, call, now);
      CountingCommutes(st, v, ip, now);
    }
    assert m.threads[i := Idle] == m.threads;
    assert Run(c, m2, d).threads == m.threads;
  }

  // ---- Runs that break the gauge

  /** Two threads and nothing else; blocks and their count as given. */
  ghost predicate Two(m: Machine, a: Pc, b: Pc, blocked: map<string, real>, gauge: int) {
    m.threads == [a, b] && m.st.blocked == blocked && m.st.stats.blockedIPs == gauge
  }

  /** Two calls find the same block at a time t when it has expired, and both lift it. */
  function TwoLifts(ip: string, t: real): seq<Step> {
    [BlockStep(ip, 0.0), Enter(0, ip, "")] + [Enter(1, ip, ""), ReadBlock(0)] + [ReadBlock(1), JudgeBlock(0, t)] +
    [JudgeBlock(1, t), Lift(0)] + [Lift(1), Lift(1)]
  }

  lemma LiftsStart(c: R.Config, ip: string)
    ensures Two(Run(c, New(c, 0.0, 2), [BlockStep(ip, 0.0), Enter(0, ip, "")] + [Enter(1, ip, ""), ReadBlock(0)]),
                Found(ip, "", 0.0), Entered(ip, ""), map[ip := 0.0], 1)
  {
    var m0 := New(c, 0.0, 2);
    var (a, b) := ([BlockStep(ip, 0.0), Enter(0, ip, "")], [Enter(1, ip, ""), ReadBlock(0)]);
    RunConcat(c, m0, a, b);
    RunTwo(c, m0, a[0], a[1]);
    var m1 := Run(c, m0, a);
    assert Two(m1, Entered(ip, ""), Idle, map[ip := 0.0], 1);
    RunTwo(c, m1, b[0], b[1]);
  }

  lemma LiftsEnd(c: R.Config, m: Machine, ip: string, t: real)
    requires t > c.blockDuration && Two(m, Found(ip, "", 0.0), Entered(ip, ""), map[ip := 0.0], 1)
    ensures Two(Run(c, m, [ReadBlock(1), JudgeBlock(0, t)] + [JudgeBlock(1, t), Lift(0)]),
                Cleared(ip, ""), Lifting(ip, ""), map[], 0)
  {
    var (a, b) := ([ReadBlock(1), JudgeBlock(0, t)], [JudgeBlock(1, t), Lift(0)]);
    RunConcat(c, m, a, b);
    RunTwo(c, m, a[0], a[1]);
    var m1 := Run(c, m, a);
    assert Two(m1, Lifting(ip, ""), Found(ip, "", 0.0), map[ip := 0.0], 1);
    RunTwo(c, m1, b[0], b[1]);
    assert map[ip := 0.0] - {ip} == map[];
  }

  /** The count of blocked addresses goes below zero, at any time after the block duration. */
  lemma TwoLiftsMiscount(c: R.Config, ip: string, t: real)
    requires t > c.blockDuration
    ensures Two(Run(c, New(c, 0.0, 2), TwoLifts(ip, t)), Cleared(ip, ""), Cleared(ip, ""), map[], -1)
  {
    hide Run;
    var m0 := New(c, 0.0, 2);
    var a := [BlockStep(ip, 0.0), Enter(0, ip, "")] + [Enter(1, ip, ""), ReadBlock(0)];
    var (b, d) := ([ReadBlock(1), JudgeBlock(0, t)] + [JudgeBlock(1, t), Lift(0)], [Lift(1), Lift(1)]);
    assert TwoLifts(ip, t) == a + b + d;
    RunConcat(c, m0, a + b, d);
    RunConcat(c, m0, a, b);
    LiftsStart(c, ip);
    LiftsEnd(c, Run(c, m0, a), ip, t);
    var m2 := Run(c, m0, a + b);
    RunTwo(c, m2, d[0], d[1]);
    assert m2.st.blocked - {ip} == map[];
  }

  /** Two calls that are both over the threshold and past isBlocked: both block, and the count is one too
      high ever after. */
  lemma TwoBlocksMiscount(c: R.Config, m: Machine, ip: string, now: real)
    requires |m.threads| >= 2 && m.threads[0] == Judging(ip) && m.threads[1] == Judging(ip)
    requires GaugeExact(m) && Punishes(m.st, ip) && ip !in m.st.blocked
    ensures var m' := Run(c, m, [Judge(0, now), Judge(1, now)]); m'.st.stats.blockedIPs == |m'.st.blocked| + 1
  {
    RunTwo(c, m, Judge(0, now), Judge(1, now));
    assert m.st.blocked[ip := now][ip := now] == m.st.blocked[ip := now];
  }

  // ---- Reaching that state: an address that is always refused

  const OFF := Limit(0, 0)

  /** Every address has a burst of zero; nothing else is limited. */
  const STRICT := R.Config(OFF, Limit(0, 1), OFF, 1.0, 1.0)

  ghost predicate Refused(st: R.State, ip: string, n: nat) {
    && st.blocked == map[] && st.stats.blockedIPs == 0
    && st.ips == if n == 0 then map[] else map[ip := Entry(Bucket(0.0, 0.0), 0.0, n, n)]
  }

  lemma RefusesOnce(st: R.State, ip: string, n: nat)
    requires Refused(st, ip, n)
    ensures !R.PassIp(STRICT, st, ip, 0.0).1 && Refused(R.PassIp(STRICT, st, ip, 0.0).0, ip, n + 1)
  {
    NoGain(STRICT.ip, 0.0);
    hide Gain;
    assert TokenBuckets.Allow(STRICT.ip, Bucket(0.0, 0.0), 0.0) == (Bucket(0.0, 0.0), false);
  }

  lemma {:induction false} RefusesTen(ip: string, n: nat) returns (es: seq<Step>)
    requires n <= 10
    ensures var m := Run(STRICT, New(STRICT, 0.0, 2), es); m.threads == [Idle, Idle] && Refused(m.st, ip, n)
  {
    hide Next, R.PassIp;
    if n == 0 {
      es := [];
    } else {
      var before := RefusesTen(ip, n - 1);
      var m := Run(STRICT, New(STRICT, 0.0, 2), before);
      es := before + Turn(0, ip, "", 0.0);
      RunConcat(STRICT, New(STRICT, 0.0, 2), before, Turn(0, ip, "", 0.0));
      TurnIsAllow(STRICT, m, 0, ip, "", 0.0);
      RefusesOnce(m.st, ip, n - 1);
    }
  }

  lemma BothClear(m: Machine, ip: string, n: nat)
    requires m.threads == [Idle, Idle] && Refused(m.st, ip, n)
    ensures var m' := Run(STRICT, m, [Enter(0, ip, ""), Enter(1, ip, "")] + [ReadBlock(0), ReadBlock(1)]);
            m'.threads == [Cleared(ip, ""), Cleared(ip, "")] && Refused(m'.st, ip, n)
  {
    var (a, b) := ([Enter(0, ip, ""), Enter(1, ip, "")], [ReadBlock(0), ReadBlock(1)]);
    RunConcat(STRICT, m, a, b);
    RunTwo(STRICT, m, a[0], a[1]);
    RunTwo(STRICT, Run(STRICT, m, a), b[0], b[1]);
  }

  lemma BothPass(m: Machine, ip: string, n: nat)
    requires m.threads == [Cleared(ip, ""), Cleared(ip, "")] && Refused(m.st, ip, n)
    ensures var m' := Run(STRICT, m, [AskGlobal(0, 0.0), AskGlobal(1, 0.0)]);
            m'.threads == [PastGlobal(ip, ""), PastGlobal(ip, "")] && Refused(m'.st, ip, n)
  {
    RunTwo(STRICT, m, AskGlobal(0, 0.0), AskGlobal(1, 0.0));
  }

  lemma BothAsk(m: Machine, ip: string, n: nat)
    requires m.threads == [PastGlobal(ip, ""), PastGlobal(ip, "")] && Refused(m.st, ip, n)
    ensures var m' := Run(STRICT, m, [AskAddress(0, 0.0), AskAddress(1, 0.0)]);
            m'.threads == [Decided(ip, "", R.RejectedPerIP), Decided(ip, "", R.RejectedPerIP)] &&
              Refused(m'.st, ip, n + 2)
  {
    hide R.PassIp, Refused, Run;
    RunTwo(STRICT, m, AskAddress(0, 0.0), AskAddress(1, 0.0));
    RefusesOnce(m.st, ip, n);
    RefusesOnce(Next(STRICT, m, AskAddress(0, 0.0)).st, ip, n + 1);
  }

  lemma BothCount(m: Machine, ip: string, n: nat)
    requires m.threads == [Decided(ip, "", R.RejectedPerIP), Decided(ip, "", R.RejectedPerIP)] && Refused(m.st, ip, n)
    ensures var m' := Run(STRICT, m, [CountVerdict(0), CountVerdict(1)]);
            m'.threads == [Judging(ip), Judging(ip)] && Refused(m'.st, ip, n)
  {
    RunTwo(STRICT, m, CountVerdict(0), CountVerdict(1));
  }

  /** A whole run from the start after which one address is blocked and two are counted. */
  lemma OverlapMiscounts(ip: string) returns (es: seq<Step>)
    ensures var m := Run(STRICT, New(STRICT, 0.0, 2), es); m.st.stats.blockedIPs == |m.st.blocked| + 1
  {
    hide Run, Next;
    var before := RefusesTen(ip, 10);
    var m0 := New(STRICT, 0.0, 2);
    var m1 := Run(STRICT, m0, before);
    var a := [Enter(0, ip, ""), Enter(1, ip, "")] + [ReadBlock(0), ReadBlock(1)];
    var (b, d) := ([AskGlobal(0, 0.0), AskGlobal(1, 0.0)], [AskAddress(0, 0.0), AskAddress(1, 0.0)]);
    var (e, f) := ([CountVerdict(0), CountVerdict(1)], [Judge(0, 0.0), Judge(1, 0.0)]);
    es := before + a + b + d + e + f;
    RunConcat(STRICT, m0, before, a);
    RunConcat(STRICT, m0, before + a, b);
    RunConcat(STRICT, m0, before + a + b, d);
    RunConcat(STRICT, m0, before + a + b + d, e);
    RunConcat(STRICT, m0, before + a + b + d + e, f);
    BothClear(m1, ip, 10);
    BothPass(Run(STRICT, m1, a), ip, 10);
    var m2 := Run(STRICT, Run(STRICT, m1, a), b);
    BothAsk(m2, ip, 10);
    BothCount(Run(STRICT, m2, d), ip, 12);
    TwoBlocksMiscount(STRICT, Run(STRICT, Run(STRICT, m2, d), e), ip, 0.0);
  }

  // ---- The rate bound in every interleaving

  /** A step and when it happens; the steps that read the clock read this time. */
  datatype Timed = Timed(e: Step, at: real)

  predicate ReadsClock(x: Timed) {
    match x.e
    case JudgeBlock(_, now) => now == x.at
    case AskGlobal(_, now) => now == x.at
    case AskAddress(_, now) => now == x.at
    case AskCall(_, now) => now == x.at
    case Judge(_, now) => now == x.at
    case BlockStep(_, now) => now == x.at
    case CleanupStep(now) => now == x.at
    case _ => true
  }

  function Steps(xs: seq<Timed>): seq<Step> {
    if xs == [] then [] else Steps(xs[..|xs| - 1]) + [xs[|xs| - 1].e]
  }

  ghost predicate OnTime(xs: seq<Timed>) {
    && (forall i :: 0 <= i < |xs| ==> ReadsClock(xs[i]))
    && (forall i, j :: 0 <= i < j < |xs| ==> xs[i].at <= xs[j].at)
  }

  /** The step takes a token from the bucket in question. */
  predicate Takes(c: R.Config, m: Machine, e: Step, who: R.Who) {
    OfThread(e) && e.i < |m.threads| &&
    var pc := m.threads[e.i];
    match who
    case Everyone =>
      e.AskGlobal? && pc.Cleared? && c.global.rate > 0 && R.PassGlobal(c, m.st, e.now).1
    case Address(ip) =>
      e.AskAddress? && pc.PastGlobal? && pc.ip == ip && c.ip.rate > 0 && R.PassIp(c, m.st, ip, e.now).1
    case Call(call) =>
      && e.AskCall? && pc.PastAddress? && pc.call == call && call != "" && c.call.rate > 0
      && R.PassCall(c, m.st, call, e.now).1
  }

  /** The buckets are sound, and this one did not gain. */
  ghost predicate Spent(c: R.Config, st: R.State, st': R.State, who: R.Who, now: real, taken: bool) {
    var was, left := R.LevelOf(c, st, who, now), R.LevelOf(c, st', who, now);
    R.Sound(c, st', now) && left + (if taken then 1.0 else 0.0) <= was && (taken || was >= 0.0 ==> left >= 0.0)
  }

  lemma GlobalSpends(c: R.Config, st: R.State, now: real, who: R.Who)
    requires R.Enforced(c, who) && R.Sound(c, st, now)
    ensures var (st', ok) := R.PassGlobal(c, st, now); Spent(c, st, st', who, now, who.Everyone? && ok)
  {
    hide Gain, Ok, Level, RefillsWithin;
    if c.global.rate > 0 {
      AllowKeeps(c.global, st.global, now);
      GainGrows(c.global, st.global.last, now);
    }
  }

  lemma AddressSpends(c: R.Config, st: R.State, ip: string, now: real, who: R.Who)
    requires R.Enforced(c, who) && R.Sound(c, st, now)
    ensures var (st', ok) := R.PassIp(c, st, ip, now); Spent(c, st, st', who, now, who == R.Address(ip) && ok)
  {
    hide Check, Ok, Level, Refill, BucketOk, RefillsWithin;
    if c.ip.rate > 0 {
      CheckTakesOne(c.ip, st.ips, ip, now, if who.Address? then who.ip else ip);
    }
  }

  lemma CallSpends(c: R.Config, st: R.State, call: string, now: real, who: R.Who)
    requires R.Enforced(c, who) && R.Sound(c, st, now)
    ensures var (st', ok) := R.PassCall(c, st, call, now);
            Spent(c, st, st', who, now, who == R.Call(call) && call != "" && ok)
  {
    hide Check, Ok, Level, Refill, BucketOk, RefillsWithin;
    if c.call.rate > 0 && call != "" {
      CheckTakesOne(c.call, st.calls, call, now, if who.Call? then who.call else call);
    }
  }

  lemma CleanupSpends(c: R.Config, st: R.State, now: real, who: R.Who)
    requires R.Enforced(c, who) && R.Sound(c, st, now)
    ensures Spent(c, st, R.Cleanup(c, st, now), who, now, false)
  {
    hide Ok, Level, Refill, BucketOk, RefillsWithin, Evict;
    if c.ip.rate > 0 {
      EvictLevel(c.ip, c.ttl, st.ips, now, if who.Address? then who.ip else "");
    }
    if c.call.rate > 0 {
      EvictLevel(c.call, c.ttl, st.calls, now, if who.Call? then who.call else "");
    }
  }

  lemma SameBuckets(c: R.Config, st: R.State, st': R.State, who: R.Who, now: real)
    requires R.Sound(c, st, now) && st'.global == st.global && st'.ips == st.ips && st'.calls == st.calls
    ensures Spent(c, st, st', who, now, false)
  {
    hide Ok, Level, Refill, BucketOk;
  }

  /** Every step of the machine spends at most the token it takes. */
  lemma StepSpends(c: R.Config, m: Machine, x: Timed, who: R.Who)
    requires R.Enforced(c, who) && R.Sound(c, m.st, x.at) && ReadsClock(x)
    ensures Spent(c, m.st, Next(c, m, x.e).st, who, x.at, Takes(c, m, x.e, who))
  {
    hide Spent, R.Sound, R.PassGlobal, R.PassIp, R.PassCall, R.Cleanup, R.MaybeBlock, R.Enforced;
    SameBuckets(c, m.st, m.st, who, x.at);
    if x.e.CleanupStep? {
      CleanupSpends(c, m.st, x.at, who);
    } else if x.e.BlockStep? || x.e.UnblockStep? {
      SameBuckets(c, m.st, Next(c, m, x.e).st, who, x.at);
    } else if x.e.i < |m.threads| {
      MoveSpends(c, m, x, who);
    }
  }

  lemma MoveSpends(c: R.Config, m: Machine, x: Timed, who: R.Who)
    requires R.Enforced(c, who) && R.Sound(c, m.st, x.at) && ReadsClock(x) && OfThread(x.e) && x.e.i < |m.threads|
    ensures Spent(c, m.st, Move(c, m, x.e).st, who, x.at, Takes(c, m, x.e, who))
  {
    hide Spent, R.Sound, R.PassGlobal, R.PassIp, R.PassCall;
    var pc := m.threads[x.e.i];
    SameBuckets(c, m.st, m.st, who, x.at);
    if x.e.AskGlobal? && pc.Cleared? {
      GlobalSpends(c, m.st, x.at, who);
    } else if x.e.AskAddress? && pc.PastGlobal? {
      AddressSpends(c, m.st, pc.ip, x.at, who);
    } else if x.e.AskCall? && pc.PastAddress? {
      CallSpends(c, m.st, pc.call, x.at, who);
    } else {
      SameBuckets(c, m.st, Move(c, m, x.e).st, who, x.at);
    }
  }

  /** How many tokens the run takes from the bucket. */
  function Taken(c: R.Config, m: Machine, xs: seq<Timed>, who: R.Who): nat {
    if xs == [] then 0
    else
      var k := |xs| - 1;
      Taken(c, m, xs[..k], who) + if Takes(c, Run(c, m, Steps(xs[..k])), xs[k].e, who) then 1 else 0
  }

  lemma StepsSnoc(c: R.Config, m: Machine, xs: seq<Timed>)
    requires xs != []
    ensures Run(c, m, Steps(xs)) == Next(c, Run(c, m, Steps(xs[..|xs| - 1])), xs[|xs| - 1].e)
  {
    hide Next;
    assert Steps(xs)[..|Steps(xs)| - 1] == Steps(xs[..|xs| - 1]);
  }

  lemma {:induction false} TakenPlusLevel(c: R.Config, m: Machine, xs: seq<Timed>, who: R.Who)
    requires xs != [] && OnTime(xs) && R.Enforced(c, who) && R.Sound(c, m.st, xs[0].at)
    ensures var n, last := Taken(c, m, xs, who), xs[|xs| - 1].at; var st := Run(c, m, Steps(xs)).st;
            var level := R.LevelOf(c, st, who, last);
            && R.Sound(c, st, last)
            && n as real + level <= R.LevelOf(c, m.st, who, xs[0].at) + Gain(R.LimitOf(c, who), xs[0].at, last)
            && (n > 0 ==> level >= 0.0)
  {
    hide Next, R.LevelOf, R.Enforced, R.Sound, Gain, Takes, Run, Steps;
    R.EnforcedIsOn(c, who);
    var k := |xs| - 1;
    var l, x := R.LimitOf(c, who), xs[k];
    var before := Run(c, m, Steps(xs[..k]));
    StepsSnoc(c, m, xs);
    if k == 0 {
      NoGain(l, x.at);
      NoSteps(c, m, xs);
      StepSpends(c, before, x, who);
    } else {
      TakenPlusLevel(c, m, xs[..k], who);
      R.SoundLater(c, before.st, xs[k - 1].at, x.at);
      R.LevelOfGrows(c, before.st, who, xs[k - 1].at, x.at);
      GainSplits(l, xs[0].at, xs[k - 1].at, x.at);
      StepSpends(c, before, x, who);
    }
  }

  lemma NoSteps(c: R.Config, m: Machine, xs: seq<Timed>)
    ensures Run(c, m, Steps(xs[..0])) == m
  {}

  lemma {:induction false} RunIsSound(c: R.Config, start: real, threads: nat, xs: seq<Timed>, now: real, who: R.Who)
    requires OnTime(xs) && R.Enforced(c, who) && (xs != [] ==> start <= xs[0].at && xs[|xs| - 1].at <= now)
    requires start <= now
    ensures R.Sound(c, Run(c, New(c, start, threads), Steps(xs)).st, now)
  {
    if xs == [] {
    } else {
      hide Next, R.Enforced, Run, Steps;
      var m := New(c, start, threads);
      R.RunIsSound(c, start, [], xs[0].at);
      assert R.Sound(c, m.st, xs[0].at) by { R.RunOfNothing(c, R.New(c, start), who); }
      hide R.Sound;
      TakenPlusLevel(c, m, xs, who);
      R.SoundLater(c, Run(c, m, Steps(xs)).st, xs[|xs| - 1].at, now);
    }
  }

  lemma OnTimeParts(past: seq<Timed>, window: seq<Timed>)
    requires OnTime(past + window) && window != []
    ensures OnTime(past) && OnTime(window) && (past + window)[0].at <= window[0].at
    ensures past != [] ==> past[0] == (past + window)[0] && past[|past| - 1].at <= window[0].at
  {
    var all := past + window;
    assert forall i :: 0 <= i < |past| ==> past[i] == all[i];
    assert forall i :: 0 <= i < |window| ==> window[i] == all[|past| + i];
  }

  /** In every window of every interleaving of any number of threads, at most the burst plus what the window
      gains is taken from each bucket. */
  lemma BoundInEveryInterleaving(c: R.Config, start: real, threads: nat, past: seq<Timed>, window: seq<Timed>,
                                 who: R.Who)
    requires R.Enforced(c, who) && window != [] && OnTime(past + window) && start <= (past + window)[0].at
    ensures var n := Taken(c, Run(c, New(c, start, threads), Steps(past)), window, who); var l := R.LimitOf(c, who);
            n == 0 || n as real <= l.burst as real + Gain(l, window[0].at, window[|window| - 1].at)
  {
    hide R.LevelOf, R.Enforced, R.Sound, Run, OnTime, Gain, Steps, Taken;
    var m, first := Run(c, New(c, start, threads), Steps(past)), window[0].at;
    OnTimeParts(past, window);
    RunIsSound(c, start, threads, past, first, who);
    R.EnforcedIsOn(c, who);
    TakenPlusLevel(c, m, window, who);
    R.LevelOfGrows(c, m.st, who, first, first);
  }

  // ---- Allowed requests in every interleaving

  /** The call has taken the bucket's token and has not been refused since. */
  predicate Carries(who: R.Who, pc: Pc) {
    match who
    case Everyone => pc.PastGlobal? || pc.PastAddress? || (pc.Decided? && pc.verdict == R.Allowed)
    case Address(ip) => (pc.PastAddress? || (pc.Decided? && pc.verdict == R.Allowed)) && pc.ip == ip
    case Call(call) => pc.Decided? && pc.verdict == R.Allowed && pc.call == call
  }

  /** The step counts a request of this address, of this call or of anyone as allowed. */
  predicate Allows(m: Machine, e: Step, who: R.Who) {
    e.CountVerdict? && e.i < |m.threads| && m.threads[e.i].Decided? && m.threads[e.i].verdict == R.Allowed &&
    Carries(who, m.threads[e.i])
  }

  function AllowedIn(c: R.Config, m: Machine, xs: seq<Timed>, who: R.Who): nat {
    if xs == [] then 0
    else
      var k := |xs| - 1;
      AllowedIn(c, m, xs[..k], who) + if Allows(Run(c, m, Steps(xs[..k])), xs[k].e, who) then 1 else 0
  }

  function Carriers(threads: seq<Pc>, who: R.Who): (n: nat)
    ensures n <= |threads|
  {
    if threads == [] then 0
    else Carriers(threads[..|threads| - 1], who) + if Carries(who, threads[|threads| - 1]) then 1 else 0
  }

  lemma {:induction false} CarriersUpdate(threads: seq<Pc>, who: R.Who, i: nat, pc: Pc)
    requires i < |threads|
    ensures Carriers(threads[i := pc], who) ==
            Carriers(threads, who) - (if Carries(who, threads[i]) then 1 else 0) + (if Carries(who, pc) then 1 else 0)
  {
    hide Carries;
    var k := |threads| - 1;
    if i == k {
      assert threads[i := pc][..k] == threads[..k];
    } else {
      assert threads[i := pc][..k] == threads[..k][i := pc];
      CarriersUpdate(threads[..k], who, i, pc);
    }
  }

  /** A call carries a token only by taking it, and is allowed only while it carries it. */
  lemma MoveCarries(c: R.Config, m: Machine, e: Step, who: R.Who)
    requires R.Enforced(c, who) && OfThread(e) && e.i < |m.threads|
    ensures var m' := Move(c, m, e);
            && |m'.threads| == |m.threads| && m'.threads == m.threads[e.i := m'.threads[e.i]]
            && (Carries(who, m'.threads[e.i]) && !Carries(who, m.threads[e.i]) ==> Takes(c, m, e, who))
            && (Allows(m, e, who) ==> Carries(who, m.threads[e.i]) && !Carries(who, m'.threads[e.i]))
  {
    hide R.PassGlobal, R.PassIp, R.PassCall, R.MaybeBlock;
  }

  lemma StepCarries(c: R.Config, m: Machine, e: Step, who: R.Who)
    requires R.Enforced(c, who)
    ensures (if Allows(m, e, who) then 1 else 0) + Carriers(Next(c, m, e).threads, who) <=
            Carriers(m.threads, who) + if Takes(c, m, e, who) then 1 else 0
    ensures |Next(c, m, e).threads| == |m.threads|
  {
    hide Move, Takes, Carries;
    if OfThread(e) && e.i < |m.threads| {
      MoveCarries(c, m, e, who);
      CarriersUpdate(m.threads, who, e.i, Move(c, m, e).threads[e.i]);
    }
  }

  lemma {:induction false} AllowedWereTaken(c: R.Config, m: Machine, xs: seq<Timed>, who: R.Who)
    requires R.Enforced(c, who)
    ensures AllowedIn(c, m, xs, who) + Carriers(Run(c, m, Steps(xs)).threads, who) <=
            Carriers(m.threads, who) + Taken(c, m, xs, who)
    ensures |Run(c, m, Steps(xs)).threads| == |m.threads|
  {
    hide Next, Takes, Allows, R.Enforced, Run, Steps, Carriers;
    if xs == [] {
      NoSteps(c, m, xs);
    } else {
      AllowedWereTaken(c, m, xs[..|xs| - 1], who);
      StepsSnoc(c, m, xs);
      StepCarries(c, Run(c, m, Steps(xs[..|xs| - 1])), xs[|xs| - 1].e, who);
    }
  }

  /** In every window of every interleaving of T threads, at most the burst plus what the window gains plus T
      requests are allowed: each thread may bring one token it took before. */
  lemma AllowedInEveryInterleaving(c: R.Config, start: real, threads: nat, past: seq<Timed>, window: seq<Timed>,
                                   who: R.Who)
    requires R.Enforced(c, who) && window != [] && OnTime(past + window) && start <= (past + window)[0].at
    ensures var n := AllowedIn(c, Run(c, New(c, start, threads), Steps(past)), window, who);
            var l := R.LimitOf(c, who);
            n <= threads || n as real <= l.burst as real + Gain(l, window[0].at, window[|window| - 1].at) +
              threads as real
  {
    hide R.LevelOf, R.Enforced, R.Sound, Run, OnTime, Gain, Steps, Taken, AllowedIn;
    var m := Run(c, New(c, start, threads), Steps(past));
    AllowedWereTaken(c, New(c, start, threads), past, who);
    AllowedWereTaken(c, m, window, who);
    BoundInEveryInterleaving(c, start, threads, past, window, who);
  }
}
