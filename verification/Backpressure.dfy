/** The backpressure controller as T threads whose loads, checks and adds interleave freely. */
module Backpressure {

  datatype Strategy = Block | Drop | DropOldest | Reject

  datatype Config = Config(maxSize: int, strategy: Strategy)

  /** Where a thread is: between calls, past the closed flag, with a loaded size, past the check, between its two
      adds, waiting for space, just woken, or between the parts of a release. */
  datatype Pc = Idle | Entered | Loaded(size: int) | Past | Added | Waiting | Woken | Subtracted | Signalling

  /** `held` counts slots acquired and not yet given back; a release needs one. */
  datatype State = State(
    queueSize: int, enqueued: nat, dequeued: nat, dropped: nat, rejected: nat, held: nat,
    space: bool, closed: bool, threads: seq<Pc>)

  datatype Step =
    | Enter(i: nat) | Load(i: nat) | Check(i: nat) | Add(i: nat) | CountAdd(i: nat)
    | Subtract(i: nat) | CountSubtract(i: nat) | Signal(i: nat)
    | Wake(i: nat) | GiveUp(i: nat, timedOut: bool) | Close

  function New(threads: nat): State {
    State(0, 0, 0, 0, 0, 0, false, false, seq(threads, _ => Idle))
  }

  function At(st: State, i: nat): Pc {
    if i < |st.threads| then st.threads[i] else Idle
  }

  function Goes(st: State, i: nat, pc: Pc): State {
    if i < |st.threads| then st.(threads := st.threads[i := pc]) else st
  }

  predicate Passes(c: Config, size: int) {
    c.strategy == DropOldest || size < c.maxSize
  }

  function Refuse(c: Config, st: State, i: nat): State {
    match c.strategy
    case Block => Goes(st, i, Waiting)
    case Drop => Goes(st, i, Idle).(dropped := st.dropped + 1)
    case _ => Goes(st, i, Idle).(rejected := st.rejected + 1)
  }

  /** A step that is not enabled changes nothing. */
  function Next(c: Config, st: State, e: Step): State {
    if e.Close? then st.(closed := true)
    else if e.i >= |st.threads| then st
    else
      var pc := st.threads[e.i];
      match e
      case Enter(i) => if pc == Idle && !st.closed then Goes(st, i, Entered) else st
      case Load(i) => if pc == Entered || pc == Woken then Goes(st, i, Loaded(st.queueSize)) else st
      case Check(i) =>
        if !pc.Loaded? then st
        else if Passes(c, pc.size) then Goes(st, i, Past)
        else Refuse(c, st, i)
      case Add(i) => if pc != Past then st else Goes(st, i, Added).(queueSize := st.queueSize + 1)
      case CountAdd(i) =>
        if pc != Added then st else Goes(st, i, Idle).(enqueued := st.enqueued + 1, held := st.held + 1)
      case Subtract(i) =>
        if pc != Idle || st.held == 0 then st
        else Goes(st, i, Subtracted).(queueSize := st.queueSize - 1, held := st.held - 1)
      case CountSubtract(i) => if pc != Subtracted then st else Goes(st, i, Signalling).(dequeued := st.dequeued + 1)
      case Signal(i) => if pc != Signalling then st else Goes(st, i, Idle).(space := true)
      case Wake(i) => if pc != Waiting || !st.space then st else Goes(st, i, Woken).(space := false)
      case GiveUp(i, timedOut) =>
        if pc != Waiting then st else Goes(st, i, Idle).(rejected := st.rejected + if timedOut then 1 else 0)
  }

  function Run(c: Config, st: State, es: seq<Step>): State {
    if es == [] then st else Next(c, Run(c, st, es[..|es| - 1]), es[|es| - 1])
  }

  // ---- Counting threads

  /** Which threads to count: between their two adds, in the middle of a release, or committed to add:
      past the check, or certain to pass it. */
  datatype Group = AddedOnes | SubtractedOnes | PastOnes | CommittedOnes(c: Config)

  function One(g: Group, pc: Pc): (n: nat)
    ensures n <= 1
  {
    match g
    case AddedOnes => if pc == Added then 1 else 0
    case SubtractedOnes => if pc == Subtracted then 1 else 0
    case PastOnes => if pc == Past then 1 else 0
    case CommittedOnes(c) => if pc == Past || (pc.Loaded? && Passes(c, pc.size)) then 1 else 0
  }

  function Total(g: Group, s: seq<Pc>): (n: nat)
    ensures n <= |s|
  {
    if s == [] then 0 else Total(g, s[..|s| - 1]) + One(g, s[|s| - 1])
  }

  lemma {:induction false} TotalUpdate(g: Group, s: seq<Pc>, i: nat, pc: Pc)
    requires i < |s|
    ensures Total(g, s[i := pc]) == Total(g, s) - One(g, s[i]) + One(g, pc)
    ensures Total(g, s) - One(g, s[i]) <= |s| - 1
  {
    hide One;
    var k := |s| - 1;
    if i == k {
      assert s[i := pc][..k] == s[..k];
    } else {
      assert s[i := pc][..k] == s[..k][i := pc];
      TotalUpdate(g, s[..k], i, pc);
    }
  }

  /** A step of thread i changes no other thread. */
  lemma StepMovesOne(c: Config, st: State, e: Step)
    ensures var st' := Next(c, st, e);
            |st'.threads| == |st.threads| &&
            (!e.Close? && e.i < |st.threads| ==> st'.threads == st.threads[e.i := st'.threads[e.i]]) &&
            (e.Close? || e.i >= |st.threads| ==> st'.threads == st.threads)
  {}

  /** The queue size is the difference of the counters, give or take the calls that are under way. */
  ghost predicate Balanced(st: State) {
    && st.queueSize == st.enqueued - st.dequeued + Total(AddedOnes, st.threads) - Total(SubtractedOnes, st.threads)
    && st.queueSize == st.held + Total(AddedOnes, st.threads)
  }

  lemma StepKeepsBalance(c: Config, st: State, e: Step)
    requires Balanced(st)
    ensures Balanced(Next(c, st, e))
  {
    hide Total;
    StepMovesOne(c, st, e);
    if !e.Close? && e.i < |st.threads| {
      var pc := Next(c, st, e).threads[e.i];
      TotalUpdate(AddedOnes, st.threads, e.i, pc);
      TotalUpdate(SubtractedOnes, st.threads, e.i, pc);
    }
  }

  /** The queue and all who are committed to join it exceed the maximum by less than the number of threads. */
  ghost predicate Bounded(c: Config, st: State) {
    var sum := st.queueSize + Total(CommittedOnes(c), st.threads);
    sum == 0 || sum <= c.maxSize + |st.threads| - 1
  }

  lemma StepKeepsBound(c: Config, st: State, e: Step)
    requires c.strategy != DropOldest && Bounded(c, st) && Balanced(st)
    ensures Bounded(c, Next(c, st, e))
  {
    hide Total;
    StepMovesOne(c, st, e);
    if !e.Close? && e.i < |st.threads| {
      TotalUpdate(CommittedOnes(c), st.threads, e.i, Next(c, st, e).threads[e.i]);
    }
  }

  lemma {:induction false} RunKeepsBound(c: Config, threads: nat, es: seq<Step>)
    ensures Balanced(Run(c, New(threads), es)) && |Run(c, New(threads), es).threads| == threads
    ensures c.strategy != DropOldest ==> Bounded(c, Run(c, New(threads), es))
  {
    if es == [] {
      AllIdle(AddedOnes, threads);
      AllIdle(SubtractedOnes, threads);
      AllIdle(CommittedOnes(c), threads);
    } else {
      hide Balanced, Bounded, Next;
      var st, e := Run(c, New(threads), es[..|es| - 1]), es[|es| - 1];
      RunKeepsBound(c, threads, es[..|es| - 1]);
      StepMovesOne(c, st, e);
      StepKeepsBalance(c, st, e);
      if c.strategy != DropOldest {
        StepKeepsBound(c, st, e);
      }
    }
  }

  lemma {:induction false} AllIdle(g: Group, threads: nat)
    ensures Total(g, New(threads).threads) == 0
  {
    if threads == 0 {
    } else {
      assert New(threads).threads[..threads - 1] == New(threads - 1).threads;
      AllIdle(g, threads - 1);
    }
  }

  lemma {:induction false} PastIsCommitted(c: Config, s: seq<Pc>)
    ensures Total(PastOnes, s) <= Total(CommittedOnes(c), s)
  {
    if s == [] {
    } else {
      PastIsCommitted(c, s[..|s| - 1]);
    }
  }

  lemma {:induction false} NoneUnderWay(g: Group, s: seq<Pc>)
    requires forall i :: 0 <= i < |s| ==> One(g, s[i]) == 0
    ensures Total(g, s) == 0
  {
    if s == [] {
    } else {
      NoneUnderWay(g, s[..|s| - 1]);
    }
  }

  /** In every interleaving of T threads the queue plus the threads past the check is at most
      MaxQueueSize + T - 1, the size is never negative, and between calls it is enqueued - dequeued. */
  lemma AdmissionBound(c: Config, threads: nat, es: seq<Step>)
    ensures var st := Run(c, New(threads), es); var sum := st.queueSize + Total(PastOnes, st.threads);
            && 0 <= st.queueSize
            && (c.strategy != DropOldest ==> sum == 0 || sum <= c.maxSize + threads - 1)
            && ((forall i :: 0 <= i < |st.threads| ==> st.threads[i] == Idle) ==>
                st.queueSize == st.enqueued - st.dequeued == st.held)
  {
    hide Total, Run;
    RunKeepsBound(c, threads, es);
    var st := Run(c, New(threads), es);
    PastIsCommitted(c, st.threads);
    if forall i :: 0 <= i < |st.threads| ==> st.threads[i] == Idle {
      NoneUnderWay(AddedOnes, st.threads);
      NoneUnderWay(SubtractedOnes, st.threads);
    }
  }

  // ---- The bound is reached

  /** One undisturbed Acquire of thread 0. */
  function Acquire0(): seq<Step> {
    [Enter(0), Load(0), Check(0), Add(0), CountAdd(0)]
  }

  function Fill(n: nat): seq<Step> {
    if n == 0 then [] else Fill(n - 1) + Acquire0()
  }

  function Loads(n: nat): seq<Step> {
    if n == 0 then [] else Loads(n - 1) + [Enter(n - 1), Load(n - 1)]
  }

  function Checks(n: nat): seq<Step> {
    if n == 0 then [] else Checks(n - 1) + [Check(n - 1)]
  }

  function Adds(n: nat): seq<Step> {
    if n == 0 then [] else Adds(n - 1) + [Add(n - 1)]
  }

  /** Fill the queue to one below the maximum, then let every thread load before any adds. */
  function Rush(c: Config, threads: nat): seq<Step>
    requires c.maxSize >= 1
  {
    Fill(c.maxSize - 1) + Loads(threads) + Checks(threads) + Adds(threads)
  }

  function Split(threads: nat, n: nat, a: Pc, b: Pc): (s: seq<Pc>)
    ensures |s| == threads
  {
    seq(threads, i => if i < n then a else b)
  }

  lemma SplitMoves(threads: nat, n: nat, a: Pc, b: Pc)
    requires 0 < n <= threads
    ensures Split(threads, n, a, b) == Split(threads, n - 1, a, b)[n - 1 := a]
    ensures Split(threads, n - 1, a, b)[n - 1] == b
  {}

  lemma RunNothing(c: Config, st: State)
    ensures Run(c, st, []) == st
  {}

  lemma RunSnoc(c: Config, st: State, es: seq<Step>, e: Step)
    ensures Run(c, st, es + [e]) == Next(c, Run(c, st, es), e)
  {
    hide Next;
    assert (es + [e])[..|es|] == es;
  }

  lemma {:induction false} RunConcat(c: Config, st: State, a: seq<Step>, b: seq<Step>)
    ensures Run(c, st, a + b) == Run(c, Run(c, st, a), b)
  {
    hide Next;
    if b == [] {
      assert a + b == a;
    } else {
      assert (a + b)[..|a + b| - 1] == a + b[..|b| - 1];
      RunConcat(c, st, a, b[..|b| - 1]);
    }
  }

  /** The state with n slots taken and nobody under way. */
  function Quiet(threads: nat, n: nat): State {
    New(threads).(queueSize := n, enqueued := n, held := n)
  }

  lemma AcquiresOne(c: Config, threads: nat, n: nat)
    requires threads >= 1 && n < c.maxSize
    ensures Run(c, Quiet(threads, n), Acquire0()) == Quiet(threads, n + 1)
  {
    var st := Quiet(threads, n);
    hide Run;
    RunAfter(c, st, Enter(0), [Load(0), Check(0), Add(0), CountAdd(0)]);
    var st1 := Next(c, st, Enter(0));
    RunAfter(c, st1, Load(0), [Check(0), Add(0), CountAdd(0)]);
    var st2 := Next(c, st1, Load(0));
    Joins(c, st2, 0);
    assert Acquire0() == [Enter(0)] + [Load(0), Check(0), Add(0), CountAdd(0)];
    assert [Load(0), Check(0), Add(0), CountAdd(0)] == [Load(0)] + [Check(0), Add(0), CountAdd(0)];
    assert st2.threads[0 := Idle] == st.threads;
  }

  /** A thread that has loaded a size below the maximum, and its three last steps. */
  lemma Joins(c: Config, st: State, i: nat)
    requires i < |st.threads| && st.threads[i].Loaded? && Passes(c, st.threads[i].size)
    ensures Run(c, st, [Check(i), Add(i), CountAdd(i)]) ==
            st.(threads := st.threads[i := Idle], queueSize := st.queueSize + 1, enqueued := st.enqueued + 1,
                held := st.held + 1)
  {
    hide Run;
    var st1 := st.(threads := st.threads[i := Past]);
    var st2 := st.(threads := st.threads[i := Added], queueSize := st.queueSize + 1);
    RunAfter(c, st, Check(i), [Add(i), CountAdd(i)]);
    RunAfter(c, st1, Add(i), [CountAdd(i)]);
    RunAfter(c, st2, CountAdd(i), []);
    RunNothing(c, Next(c, st2, CountAdd(i)));
    assert [Check(i)] + [Add(i), CountAdd(i)] == [Check(i), Add(i), CountAdd(i)];
    assert [Add(i)] + [CountAdd(i)] == [Add(i), CountAdd(i)] && [CountAdd(i)] + [] == [CountAdd(i)];
    assert Next(c, st, Check(i)) == st1;
    assert st1.threads[i := Added] == st2.threads && Next(c, st1, Add(i)) == st2;
    assert st2.threads[i := Idle] == st.threads[i := Idle];
  }

  lemma {:induction false} RunAfter(c: Config, st: State, e: Step, es: seq<Step>)
    ensures Run(c, st, [e] + es) == Run(c, Next(c, st, e), es)
  {
    hide Next;
    RunSnoc(c, st, [], e);
    assert [] + [e] == [e];
    RunConcat(c, st, [e], es);
  }

  lemma {:induction false} Fills(c: Config, threads: nat, n: nat)
    requires threads >= 1 && n <= c.maxSize
    ensures Run(c, New(threads), Fill(n)) == Quiet(threads, n)
  {
    hide Acquire0, Next;
    if n == 0 {
    } else {
      Fills(c, threads, n - 1);
      RunConcat(c, New(threads), Fill(n - 1), Acquire0());
      AcquiresOne(c, threads, n - 1);
    }
  }

  lemma {:induction false} AllLoad(c: Config, st: State, n: nat)
    requires n <= |st.threads| && !st.closed && st.threads == Split(|st.threads|, 0, Loaded(st.queueSize), Idle)
    ensures Run(c, st, Loads(n)) == st.(threads := Split(|st.threads|, n, Loaded(st.queueSize), Idle))
  {
    hide Split, Run;
    if n == 0 {
      RunNothing(c, st);
    } else {
      AllLoad(c, st, n - 1);
      RunSnoc(c, st, Loads(n - 1), Enter(n - 1));
      RunSnoc(c, st, Loads(n - 1) + [Enter(n - 1)], Load(n - 1));
      assert Loads(n - 1) + [Enter(n - 1), Load(n - 1)] == Loads(n - 1) + [Enter(n - 1)] + [Load(n - 1)];
      SplitMoves(|st.threads|, n, Loaded(st.queueSize), Idle);
    }
  }

  lemma {:induction false} AllCheck(c: Config, st: State, n: nat, size: int)
    requires n <= |st.threads| && Passes(c, size) && st.threads == Split(|st.threads|, 0, Past, Loaded(size))
    ensures Run(c, st, Checks(n)) == st.(threads := Split(|st.threads|, n, Past, Loaded(size)))
  {
    hide Split, Run;
    if n == 0 {
      RunNothing(c, st);
    } else {
      AllCheck(c, st, n - 1, size);
      RunSnoc(c, st, Checks(n - 1), Check(n - 1));
      SplitMoves(|st.threads|, n, Past, Loaded(size));
    }
  }

  lemma {:induction false} AllAdd(c: Config, st: State, n: nat)
    requires n <= |st.threads| && st.threads == Split(|st.threads|, 0, Added, Past)
    ensures Run(c, st, Adds(n)) == st.(threads := Split(|st.threads|, n, Added, Past), queueSize := st.queueSize + n)
  {
    hide Split, Run;
    if n == 0 {
      RunNothing(c, st);
    } else {
      AllAdd(c, st, n - 1);
      RunSnoc(c, st, Adds(n - 1), Add(n - 1));
      SplitMoves(|st.threads|, n, Added, Past);
    }
  }

  /** For every maximum and every number of threads some interleaving reaches the bound exactly. */
  lemma BoundIsReached(c: Config, threads: nat)
    requires c.maxSize >= 1 && threads >= 1
    ensures Run(c, New(threads), Rush(c, threads)).queueSize == c.maxSize + threads - 1
  {
    hide Next, Loads, Checks, Adds, Fill, Run;
    var q, t := c.maxSize - 1, threads;
    var a, b := Fill(q) + Loads(t), Fill(q) + Loads(t) + Checks(t);
    RunConcat(c, New(t), Fill(q), Loads(t));
    RunConcat(c, New(t), a, Checks(t));
    RunConcat(c, New(t), b, Adds(t));
    Fills(c, t, q);
    var st := Quiet(t, q);
    assert st.threads == Split(t, 0, Loaded(q), Idle);
    AllLoad(c, st, t);
    assert Split(t, t, Loaded(q), Idle) == Split(t, 0, Past, Loaded(q));
    AllCheck(c, st.(threads := Split(t, t, Loaded(q), Idle)), t, q);
    assert Split(t, t, Past, Loaded(q)) == Split(t, 0, Added, Past);
    AllAdd(c, st.(threads := Split(t, t, Past, Loaded(q))), t);
  }

  // ---- Waking waiters

  /** The thread waits for space, or is bound to. */
  predicate Stalls(c: Config, pc: Pc) {
    pc == Waiting || (c.strategy == Block && pc.Loaded? && !Passes(c, pc.size))
  }

  predicate Releasing(pc: Pc) {
    pc == Subtracted || pc == Signalling
  }

  ghost predicate SomeStalls(c: Config, st: State) {
    exists i :: 0 <= i < |st.threads| && Stalls(c, st.threads[i])
  }

  ghost predicate SomeReleases(st: State) {
    exists i :: 0 <= i < |st.threads| && Releasing(st.threads[i])
  }

  /** If a thread waits though there is room, a token is there to wake it or a release is about to put one. */
  ghost predicate Heard(c: Config, st: State) {
    SomeStalls(c, st) && st.queueSize < c.maxSize ==> st.space || SomeReleases(st)
  }

  /** A waiter takes the only token while another waits, there is room, and no release is under way. */
  ghost predicate Robs(c: Config, st: State, e: Step) {
    && e.Wake? && e.i < |st.threads| && st.threads[e.i] == Waiting && st.space
    && st.queueSize < c.maxSize && !SomeReleases(st)
    && exists j :: 0 <= j < |st.threads| && j != e.i && Stalls(c, st.threads[j])
  }

  /** What one step does to the thread that takes it. */
  lemma StepOfThread(c: Config, st: State, e: Step)
    requires !e.Close? && e.i < |st.threads|
    ensures var st' := Next(c, st, e);
            && |st'.threads| == |st.threads|
            && var (pc, pc') := (st.threads[e.i], st'.threads[e.i]);
               && (Releasing(pc) && !Releasing(pc') ==> st'.space)
               && (Stalls(c, pc') && !Stalls(c, pc) ==> st'.queueSize >= c.maxSize)
               && (st'.queueSize < st.queueSize ==> Releasing(pc'))
               && (st.space && !st'.space ==> e.Wake? && pc == Waiting && pc' == Woken && st'.queueSize == st.queueSize)
  {}

  lemma StepKeepsHeardIff(c: Config, st: State, e: Step)
    requires Heard(c, st)
    ensures Heard(c, Next(c, st, e)) <==> !Robs(c, st, e)
  {
    StepMovesOne(c, st, e);
    var st' := Next(c, st, e);
    if !e.Close? && e.i < |st.threads| {
      StepOfThread(c, st, e);
      var (pc, pc') := (st.threads[e.i], st'.threads[e.i]);
      assert e.Wake? && pc == Waiting && st.space ==> pc' == Woken && !st'.space && st'.queueSize == st.queueSize;
      assert forall j :: 0 <= j < |st.threads| && j != e.i ==> st'.threads[j] == st.threads[j];
      hide Next;
      if Robs(c, st, e) {
        var j :| 0 <= j < |st.threads| && j != e.i && Stalls(c, st.threads[j]);
        assert Stalls(c, st'.threads[j]);
        assert !Releasing(pc');
      } else if Releasing(pc') {
        assert SomeReleases(st');
      } else if SomeReleases(st) && !Releasing(pc) {
        var j :| 0 <= j < |st.threads| && Releasing(st.threads[j]);
        assert Releasing(st'.threads[j]);
      }
    }
  }

  ghost predicate HeardThroughout(c: Config, st: State, es: seq<Step>) {
    Heard(c, Run(c, st, es)) && (es != [] ==> HeardThroughout(c, st, es[..|es| - 1]))
  }

  ghost predicate NeverRobs(c: Config, st: State, es: seq<Step>) {
    es != [] ==> NeverRobs(c, st, es[..|es| - 1]) && !Robs(c, Run(c, st, es[..|es| - 1]), es[|es| - 1])
  }

  /** In every interleaving: a waiter for whom there is room has a wake-up coming throughout, if and only if no
      waiter takes the only token from another. */
  lemma {:induction false} HeardIff(c: Config, threads: nat, es: seq<Step>)
    ensures HeardThroughout(c, New(threads), es) <==> NeverRobs(c, New(threads), es)
  {
    if es == [] {
    } else {
      hide Heard, Robs, Next;
      HeardIff(c, threads, es[..|es| - 1]);
      var st := Run(c, New(threads), es[..|es| - 1]);
      if HeardThroughout(c, New(threads), es[..|es| - 1]) {
        StepKeepsHeardIff(c, st, es[|es| - 1]);
      }
    }
  }

  ghost predicate OneStalls(c: Config, st: State) {
    forall i, j :: 0 <= i < j < |st.threads| ==> !Stalls(c, st.threads[i]) || !Stalls(c, st.threads[j])
  }

  ghost predicate OneStallsThroughout(c: Config, st: State, es: seq<Step>) {
    OneStalls(c, Run(c, st, es)) && (es != [] ==> OneStallsThroughout(c, st, es[..|es| - 1]))
  }

  /** So a waiter that is never one of two has a wake-up coming whenever there is room. */
  lemma {:induction false} LoneWaiterIsWoken(c: Config, threads: nat, es: seq<Step>)
    requires OneStallsThroughout(c, New(threads), es)
    ensures HeardThroughout(c, New(threads), es)
  {
    LoneNeverRobs(c, New(threads), es);
    HeardIff(c, threads, es);
  }

  lemma {:induction false} LoneNeverRobs(c: Config, st: State, es: seq<Step>)
    requires OneStallsThroughout(c, st, es)
    ensures NeverRobs(c, st, es)
  {
    hide Next;
    if es == [] {
    } else {
      LoneNeverRobs(c, st, es[..|es| - 1]);
      assert OneStalls(c, Run(c, st, es[..|es| - 1]));
    }
  }

  // ---- A stranded waiter

  lemma ComesToWait(c: Config, st: State, i: nat)
    requires c.strategy == Block && st.queueSize >= c.maxSize && !st.closed && i < |st.threads| && st.threads[i] == Idle
    ensures Run(c, st, [Enter(i), Load(i), Check(i)]) == st.(threads := st.threads[i := Waiting])
  {
    hide Run;
    var st1 := st.(threads := st.threads[i := Entered]);
    var st2 := st.(threads := st.threads[i := Loaded(st.queueSize)]);
    RunAfter(c, st, Enter(i), [Load(i), Check(i)]);
    RunAfter(c, st1, Load(i), [Check(i)]);
    RunAfter(c, st2, Check(i), []);
    RunNothing(c, Next(c, st2, Check(i)));
    assert [Enter(i)] + [Load(i), Check(i)] == [Enter(i), Load(i), Check(i)];
    assert [Load(i)] + [Check(i)] == [Load(i), Check(i)] && [Check(i)] + [] == [Check(i)];
    assert st1.threads[i := Loaded(st.queueSize)] == st2.threads && Next(c, st1, Load(i)) == st2;
    assert st2.threads[i := Waiting] == st.threads[i := Waiting];
  }

  lemma GivesBack(c: Config, st: State, i: nat)
    requires i < |st.threads| && st.threads[i] == Idle && st.held > 0
    ensures Run(c, st, [Subtract(i), CountSubtract(i), Signal(i)]) ==
            st.(queueSize := st.queueSize - 1, dequeued := st.dequeued + 1, held := st.held - 1, space := true)
  {
    hide Run;
    var st1 := st.(threads := st.threads[i := Subtracted], queueSize := st.queueSize - 1, held := st.held - 1);
    var st2 := st1.(threads := st.threads[i := Signalling], dequeued := st.dequeued + 1);
    RunAfter(c, st, Subtract(i), [CountSubtract(i), Signal(i)]);
    RunAfter(c, st1, CountSubtract(i), [Signal(i)]);
    RunAfter(c, st2, Signal(i), []);
    RunNothing(c, Next(c, st2, Signal(i)));
    assert [Subtract(i)] + [CountSubtract(i), Signal(i)] == [Subtract(i), CountSubtract(i), Signal(i)];
    assert [CountSubtract(i)] + [Signal(i)] == [CountSubtract(i), Signal(i)] && [Signal(i)] + [] == [Signal(i)];
    assert st1.threads[i := Signalling] == st2.threads && Next(c, st1, CountSubtract(i)) == st2;
    assert st2.threads[i := Idle] == st.threads;
  }

  lemma WakesAndJoins(c: Config, st: State, i: nat)
    requires i < |st.threads| && st.threads[i] == Waiting && st.space && st.queueSize < c.maxSize
    ensures Run(c, st, [Wake(i), Load(i)] + [Check(i), Add(i), CountAdd(i)]) ==
            st.(threads := st.threads[i := Idle], space := false, queueSize := st.queueSize + 1,
                enqueued := st.enqueued + 1, held := st.held + 1)
  {
    hide Run;
    var st1 := st.(threads := st.threads[i := Woken], space := false);
    var st2 := st.(threads := st.threads[i := Loaded(st.queueSize)], space := false);
    RunConcat(c, st, [Wake(i), Load(i)], [Check(i), Add(i), CountAdd(i)]);
    RunAfter(c, st, Wake(i), [Load(i)]);
    RunAfter(c, st1, Load(i), []);
    RunNothing(c, Next(c, st1, Load(i)));
    assert [Wake(i)] + [Load(i)] == [Wake(i), Load(i)] && [Load(i)] + [] == [Load(i)];
    assert st1.threads[i := Loaded(st.queueSize)] == st2.threads && Next(c, st1, Load(i)) == st2;
    Joins(c, st2, i);
    assert st2.threads[i := Idle] == st.threads[i := Idle];
  }

  /** Threads 1 and 2 wait on a full queue, two slots are given back, and thread 1 takes the one token. */
  function Strand(c: Config): seq<Step>
    requires c.maxSize >= 0
  {
    Fill(c.maxSize) + [Enter(1), Load(1), Check(1)] + [Enter(2), Load(2), Check(2)] +
    [Subtract(0), CountSubtract(0), Signal(0)] + [Subtract(0), CountSubtract(0), Signal(0)] +
    ([Wake(1), Load(1)] + [Check(1), Add(1), CountAdd(1)])
  }

  /** For every maximum of at least two, a blocking waiter can be left waiting though there is room, no token and no
      call under way: the channel holds one token, and two releases came before the first waiter woke. */
  lemma WaiterIsStranded(c: Config)
    requires c.strategy == Block && c.maxSize >= 2
    ensures var st := Run(c, New(3), Strand(c));
            st.threads == [Idle, Idle, Waiting] && st.queueSize == c.maxSize - 1 && !st.space && !st.closed
  {
    hide Run, Next, Fill;
    var n := c.maxSize;
    var first := Quiet(3, n);
    Fills(c, 3, n);
    assert first.threads == [Idle, Idle, Idle];
    ComesToWait(c, first, 1);
    var st1 := first.(threads := [Idle, Waiting, Idle]);
    ComesToWait(c, st1, 2);
    var st2 := first.(threads := [Idle, Waiting, Waiting]);
    GivesBack(c, st2, 0);
    var st3 := st2.(queueSize := n - 1, dequeued := 1, held := n - 1, space := true);
    GivesBack(c, st3, 0);
    var st4 := st3.(queueSize := n - 2, dequeued := 2, held := n - 2);
    WakesAndJoins(c, st4, 1);
    assert first.threads[1 := Waiting] == st1.threads && st1.threads[2 := Waiting] == st2.threads;
    assert st4.threads[1 := Idle] == [Idle, Idle, Waiting];
    var (w1, w2, r, j) := ([Enter(1), Load(1), Check(1)], [Enter(2), Load(2), Check(2)],
                           [Subtract(0), CountSubtract(0), Signal(0)],
                           [Wake(1), Load(1)] + [Check(1), Add(1), CountAdd(1)]);
    RunConcat(c, New(3), Fill(n), w1);
    RunConcat(c, New(3), Fill(n) + w1, w2);
    RunConcat(c, New(3), Fill(n) + w1 + w2, r);
    RunConcat(c, New(3), Fill(n) + w1 + w2 + r, r);
    RunConcat(c, New(3), Fill(n) + w1 + w2 + r + r, j);
    assert Run(c, New(3), Fill(n) + w1 + w2) == st2;
    assert Run(c, New(3), Fill(n) + w1 + w2 + r + r) == st4;
  }
}
