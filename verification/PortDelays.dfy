/** The reuse delay in every interleaving of calls to the port allocator. */
module PortDelays {
  import opened Basics
  import opened PortSpec
  import opened PortThreads
  import opened PortPlaces

  /** The ports a call has looked up in the released map and not found there. */
  function Vetted(pc: Pc): set<int> {
    match pc
    case Scanning(_, _, port, _, seen) => if seen == 0 then {} else if seen == 1 then {port} else {port, port + 1}
    case HalfLocked(_, _, port, _) => {port, port + 1}
    case Seeking(_, port, vetted) => if vetted then {port} else {}
    case _ => {}
  }

  /** The port has been deleted by a release that has not stamped it yet. */
  ghost predicate Unstamped(m: Machine, p: int) {
    exists j :: 0 <= j < |m.threads| && m.threads[j].Deleted? && m.threads[j].port == p
  }

  /** What was looked up is still neither in its delay nor about to be. */
  ghost predicate Calm(m: Machine) {
    forall i, p :: 0 <= i < |m.threads| && p in Vetted(m.threads[i]) ==> p !in m.st.released && !Unstamped(m, p)
  }

  /** Allocated ports, ports in their delay and ports between the two are apart. */
  ghost predicate Separate(m: Machine) {
    && m.st.owner.Keys !! m.st.released.Keys
    && (forall j :: 0 <= j < |m.threads| && m.threads[j].Deleted? ==>
        m.threads[j].port !in m.st.owner && m.threads[j].port !in m.st.released)
    && (forall j, k :: 0 <= j < k < |m.threads| && m.threads[j].Deleted? && m.threads[k].Deleted? ==>
        m.threads[j].port != m.threads[k].port)
  }

  /** The port a call looks up next. */
  function LooksUp(pc: Pc): Option<int> {
    match pc
    case Scanning(_, _, port, _, seen) => if seen < 2 then Some(port + seen) else None
    case Seeking(_, port, vetted) => if vetted then None else Some(port)
    case _ => None
  }

  /** A release deletes a port that a call has looked up, or a call looks up a port between its deletion and its
      stamp. */
  ghost predicate Disturbs(m: Machine, e: Move) {
    && e.Go? && e.i < |m.threads| && !Blocked(m, e.i)
    && var pc := m.threads[e.i];
       || (Deletes(m, e) && exists i :: 0 <= i < |m.threads| && pc.todo[0] in Vetted(m.threads[i]))
       || (LooksUp(pc).Some? && LooksUp(pc).value !in m.st.released && Unstamped(m, LooksUp(pc).value))
  }

  lemma SeekingVets(c: Config, st: State, pc: Pc, bindable: bool)
    requires !pc.Recording? && !pc.Listing? && !pc.Tallying? && !pc.Using? && !pc.Deleted?
    ensures var (st', pc') := ActSeeking(c, st, pc, bindable);
            && st'.released == st.released && !pc'.Deleted?
            && st'.owner.Keys <= st.owner.Keys + Vetted(pc)
            && (LooksUp(pc).Some? && LooksUp(pc).value !in st.released ==>
                Vetted(pc') == Vetted(pc) + {LooksUp(pc).value})
            && (LooksUp(pc).None? || LooksUp(pc).value in st.released ==> Vetted(pc') <= Vetted(pc))
  {
    hide ScanStart;
  }

  lemma RecordingVetsNothing(st: State, pc: Pc)
    requires pc.Recording? || pc.Listing? || pc.Tallying? || pc.Using?
    requires pc.Recording? && pc.todo != [] ==> pc.todo[0] in st.owner
    ensures var (st', pc') := ActRecording(st, pc);
            st'.released == st.released && !pc'.Deleted? && st'.owner.Keys == st.owner.Keys && Vetted(pc') == {}
  {
    hide SessionPorts;
  }

  lemma ReleasingVetsNothing(st: State, pc: Pc, now: int)
    requires pc.Releasing? || pc.Deleted? || pc.Stamped? || pc.Unlisted? || pc.Unused?
    ensures var (st', pc') := ActReleasing(st, pc, now);
            && st'.released == (if pc.Deleted? then st.released[pc.port := now] else st.released)
            && (pc'.Deleted? <==> pc.Releasing? && pc.todo != [] && pc.todo[0] in st.owner)
            && (pc'.Deleted? ==> pc'.port == pc.todo[0] && st'.owner == st.owner - {pc'.port})
            && (!pc'.Deleted? ==> st'.owner == st.owner) && Vetted(pc') == {}
  {
    hide Untrack;
  }

  /** What a step of a call makes of the lookups, the released map and the allocated ports. */
  lemma ActVets(c: Config, st: State, pc: Pc, now: int, bindable: bool)
    requires pc.Recording? && pc.todo != [] ==> pc.todo[0] in st.owner
    ensures var (st', pc') := Act(c, st, pc, now, bindable);
            && st'.released == (if pc.Deleted? then st.released[pc.port := now] else st.released)
            && (pc'.Deleted? <==> pc.Releasing? && pc.todo != [] && pc.todo[0] in st.owner)
            && (pc'.Deleted? ==> pc'.port == pc.todo[0] && st'.owner == st.owner - {pc'.port})
            && st'.owner.Keys <= st.owner.Keys + Vetted(pc)
            && (LooksUp(pc).Some? && LooksUp(pc).value !in st.released ==>
                Vetted(pc') == Vetted(pc) + {LooksUp(pc).value})
            && (LooksUp(pc).None? || LooksUp(pc).value in st.released ==> Vetted(pc') <= Vetted(pc))
  {
    hide ActSeeking, ActRecording, ActReleasing;
    if pc.Releasing? || pc.Deleted? || pc.Stamped? || pc.Unlisted? || pc.Unused? {
      ReleasingVetsNothing(st, pc, now);
    } else if pc.Recording? || pc.Listing? || pc.Tallying? || pc.Using? {
      RecordingVetsNothing(st, pc);
    } else {
      SeekingVets(c, st, pc, bindable);
    }
  }

  ghost predicate HeadOwned(m: Machine, i: nat)
    requires i < |m.threads|
  {
    var pc := m.threads[i]; pc.Recording? && pc.todo != [] ==> pc.todo[0] in m.st.owner
  }

  lemma HandIsOwned(m: Machine, i: nat)
    requires Exclusively(m) && i < |m.threads|
    ensures HeadOwned(m, i)
  {
    hide PoolPlaced, ListPlaced, Names;
    var pc := m.threads[i];
    assert HandPlaced(m.place, i, HandOf(pc));
    if pc.Recording? && pc.todo != [] {
      assert pc.todo[0] in HandOf(pc);
      assert At(m.place, pc.todo[0], InHand(i));
    }
  }

  lemma StepKeepsSeparate(c: Config, m: Machine, i: nat, now: int, bindable: bool)
    requires i < |m.threads| && HeadOwned(m, i) && Separate(m) && Calm(m)
    ensures Separate(Steps(c, m, i, now, bindable))
  {
    var (pc, m') := (m.threads[i], Steps(c, m, i, now, bindable));
    ActVets(c, m.st, pc, now, bindable);
    hide Act, Moves;
    assert pc.Deleted? ==> Vetted(pc) == {} && LooksUp(pc).None?;
    forall j | 0 <= j < |m'.threads| && m'.threads[j].Deleted?
      ensures m'.threads[j].port !in m'.st.owner && m'.threads[j].port !in m'.st.released
    {
      if j != i {
        assert Unstamped(m, m.threads[j].port);
      }
    }
  }

  lemma UndisturbedIsCalm(c: Config, m: Machine, i: nat, now: int, bindable: bool)
    requires i < |m.threads| && !Blocked(m, i) && HeadOwned(m, i) && Calm(m) && !Disturbs(m, Go(i, now, bindable))
    ensures Calm(Steps(c, m, i, now, bindable))
  {
    var (pc, m') := (m.threads[i], Steps(c, m, i, now, bindable));
    ActVets(c, m.st, pc, now, bindable);
    hide Act, Moves, Blocked;
    var pc' := m'.threads[i];
    assert pc.Deleted? || pc.Releasing? ==> Vetted(pc) == {} && LooksUp(pc).None?;
    forall j, p | 0 <= j < |m'.threads| && p in Vetted(m'.threads[j])
      ensures p !in m'.st.released && !Unstamped(m', p)
    {
      if j == i {
        assert p in Vetted(pc) || (LooksUp(pc).Some? && p == LooksUp(pc).value && p !in m.st.released);
        assert p !in m.st.released && !Unstamped(m, p);
      } else {
        assert p in Vetted(m.threads[j]);
        if pc.Deleted? {
          assert Unstamped(m, pc.port);
        }
      }
      assert forall k :: 0 <= k < |m'.threads| && k != i ==> m'.threads[k] == m.threads[k];
    }
  }

  lemma DisturbedIsNotCalm(c: Config, m: Machine, i: nat, now: int, bindable: bool)
    requires i < |m.threads| && HeadOwned(m, i) && Disturbs(m, Go(i, now, bindable))
    ensures !Calm(Steps(c, m, i, now, bindable))
  {
    var (pc, m') := (m.threads[i], Steps(c, m, i, now, bindable));
    ActVets(c, m.st, pc, now, bindable);
    hide Act, Moves, Blocked;
    if pc.Releasing? {
      var j :| 0 <= j < |m.threads| && pc.todo[0] in Vetted(m.threads[j]);
      assert m'.threads[i].Deleted? && m'.threads[i].port == pc.todo[0];
      assert Unstamped(m', pc.todo[0]) && pc.todo[0] in Vetted(m'.threads[j]);
    } else {
      var q := LooksUp(pc).value;
      var k :| 0 <= k < |m.threads| && m.threads[k].Deleted? && m.threads[k].port == q;
      assert m'.threads[k] == m.threads[k];
      assert Unstamped(m', q) && q in Vetted(m'.threads[i]);
    }
  }

  lemma BeginKeepsCalm(c: Config, m: Machine, e: Move)
    requires !e.Go? && !OfCleaner(e) && e.i < |m.threads| && m.threads[e.i] == Idle && Calm(m) && Separate(m)
    ensures var m' := m.(threads := m.threads[e.i := Begin(c, m.st, e)]); Calm(m') && Separate(m')
  {
    var (pc, m') := (Begin(c, m.st, e), m.(threads := m.threads[e.i := Begin(c, m.st, e)]));
    assert Vetted(pc) == {} && !pc.Deleted?;
    hide Begin;
    forall i, p | 0 <= i < |m'.threads| && p in Vetted(m'.threads[i])
      ensures p !in m'.st.released && !Unstamped(m', p)
    {
      assert p in Vetted(m.threads[i]) && !Unstamped(m, p);
    }
  }

  lemma CleanKeepsCalm(c: Config, m: Machine, e: Move)
    requires OfCleaner(e) && Calm(m) && Separate(m)
    ensures Calm(Clean(c, m, e)) && Separate(Clean(c, m, e))
  {
    var m' := Clean(c, m, e);
    forall i, p | 0 <= i < |m'.threads| && p in Vetted(m'.threads[i])
      ensures p !in m'.st.released && !Unstamped(m', p)
    {
      assert p in Vetted(m.threads[i]) && !Unstamped(m, p);
    }
  }

  /** What calls have looked up stays out of the reuse delay after a step, if and only if the step does not disturb. */
  lemma MoveKeepsCalmIff(c: Config, m: Machine, e: Move)
    requires Exclusively(m) && Calm(m) && Separate(m)
    ensures Calm(Next(c, m, e)) <==> !Disturbs(m, e)
    ensures Separate(Next(c, m, e))
  {
    hide Exclusively, Blocked, Begin, Steps, Clean, Calm, Separate;
    if OfCleaner(e) {
      CleanKeepsCalm(c, m, e);
    } else if e.i < |m.threads| {
      if e.Go? {
        HandIsOwned(m, e.i);
        if !Blocked(m, e.i) {
          StepKeepsSeparate(c, m, e.i, e.now, e.bindable);
          if Disturbs(m, e) {
            DisturbedIsNotCalm(c, m, e.i, e.now, e.bindable);
          } else {
            UndisturbedIsCalm(c, m, e.i, e.now, e.bindable);
          }
        }
      } else if m.threads[e.i] == Idle {
        BeginKeepsCalm(c, m, e);
      }
    }
  }

  // ---- Time

  function ClockAfter(clock: int, e: Move): int {
    if e.Go? || e.CleanRead? then e.now else clock
  }

  function Clock(start: int, es: seq<Move>): int {
    if es == [] then start else ClockAfter(Clock(start, es[..|es| - 1]), es[|es| - 1])
  }

  /** The clock never goes back. */
  predicate Timely(start: int, es: seq<Move>) {
    es != [] ==> Timely(start, es[..|es| - 1]) && Clock(start, es) >= Clock(start, es[..|es| - 1])
  }

  /** Every stamp is in the released map or older than the delay; so is the one the cleaner is about to delete. */
  ghost predicate Stamps(c: Config, m: Machine, clock: int) {
    && (forall p <- m.stamps ::
          (p in m.st.released && m.st.released[p] == m.stamps[p]) || clock - m.stamps[p] >= c.reuseDelay)
    && m.st.released.Keys <= m.stamps.Keys
    && (forall p <- m.st.released :: m.st.released[p] == m.stamps[p])
    && (m.cleaner.Some? ==> m.cleaner.value in m.st.released && clock - m.st.released[m.cleaner.value] >= c.reuseDelay)
  }

  lemma StepKeepsStamps(c: Config, m: Machine, i: nat, now: int, bindable: bool, clock: int)
    requires i < |m.threads| && HeadOwned(m, i) && Separate(m) && Stamps(c, m, clock) && now >= clock
    ensures Stamps(c, Steps(c, m, i, now, bindable), now)
  {
    ActVets(c, m.st, m.threads[i], now, bindable);
    hide Act, Moves;
  }

  lemma MoveKeepsStamps(c: Config, m: Machine, e: Move, clock: int)
    requires Exclusively(m) && Separate(m) && Stamps(c, m, clock) && ClockAfter(clock, e) >= clock
    ensures Stamps(c, Next(c, m, e), ClockAfter(clock, e))
  {
    hide Exclusively, Blocked, Begin, Steps, Separate;
    if e.Go? && e.i < |m.threads| {
      HandIsOwned(m, e.i);
      StepKeepsStamps(c, m, e.i, e.now, e.bindable, clock);
    }
  }

  ghost predicate NeverDisturbed(c: Config, m: Machine, es: seq<Move>) {
    es != [] ==> NeverDisturbed(c, m, es[..|es| - 1]) && !Disturbs(Run(c, m, es[..|es| - 1]), es[|es| - 1])
  }

  ghost predicate CalmThroughout(c: Config, m: Machine, es: seq<Move>) {
    Calm(Run(c, m, es)) && (es != [] ==> CalmThroughout(c, m, es[..|es| - 1]))
  }

  /** In every interleaving without premature deletion: what calls have looked up stays out of the delay throughout,
      if and only if no step disturbs; and then allocated ports are never in the released map. */
  lemma {:induction false} CalmIff(c: Config, threads: nat, es: seq<Move>)
    requires NeverPremature(c, Start(c, threads), es)
    ensures CalmThroughout(c, Start(c, threads), es) <==> NeverDisturbed(c, Start(c, threads), es)
    ensures CalmThroughout(c, Start(c, threads), es) ==> Separate(Run(c, Start(c, threads), es))
  {
    var start := Start(c, threads);
    StartsExclusively(c, threads);
    if es == [] {
      StartsCalm(c, threads);
    } else {
      hide Exclusively, Calm, Separate, Disturbs, Premature, Next, Start;
      var before := es[..|es| - 1];
      CalmIff(c, threads, before);
      ExclusivelyIff(c, start, before);
      if CalmThroughout(c, start, before) {
        MoveKeepsCalmIff(c, Run(c, start, before), es[|es| - 1]);
      }
    }
  }

  lemma StartsCalm(c: Config, threads: nat)
    ensures Calm(Start(c, threads)) && Separate(Start(c, threads))
    ensures forall clock :: Stamps(c, Start(c, threads), clock)
  {}

  lemma {:induction false} StampsThroughout(c: Config, threads: nat, start: int, es: seq<Move>)
    requires NeverPremature(c, Start(c, threads), es) && NeverDisturbed(c, Start(c, threads), es) && Timely(start, es)
    ensures Stamps(c, Run(c, Start(c, threads), es), Clock(start, es))
  {
    StartsExclusively(c, threads);
    StartsCalm(c, threads);
    if es == [] {
    } else {
      hide Exclusively, Separate, Disturbs, Premature, Next, Start, Stamps;
      var before := es[..|es| - 1];
      StampsThroughout(c, threads, start, before);
      CalmIff(c, threads, before);
      ExclusivelyIff(c, Start(c, threads), before);
      MoveKeepsStamps(c, Run(c, Start(c, threads), before), es[|es| - 1], Clock(start, before));
    }
  }

  /** The ports a step allocates. */
  ghost function Allocates(m: Machine, m': Machine): set<int> {
    m'.st.owner.Keys - m.st.owner.Keys
  }

  /** The step from m to m' allocates no port within its reuse delay. */
  ghost predicate RestsDelay(c: Config, m: Machine, m': Machine, clock: int) {
    forall p <- Allocates(m, m') :: p in m.stamps ==> clock - m.stamps[p] >= c.reuseDelay
  }

  /** In every such interleaving a port is allocated again only when its last release is the reuse delay ago. */
  lemma DelayIsKept(c: Config, threads: nat, start: int, es: seq<Move>, e: Move)
    requires NeverPremature(c, Start(c, threads), es + [e]) && NeverDisturbed(c, Start(c, threads), es + [e])
    requires Timely(start, es + [e])
    ensures RestsDelay(c, Run(c, Start(c, threads), es), Run(c, Start(c, threads), es + [e]), Clock(start, es + [e]))
  {
    assert (es + [e])[..|es|] == es;
    StartsExclusively(c, threads);
    ExclusivelyIff(c, Start(c, threads), es);
    CalmIff(c, threads, es);
    StampsThroughout(c, threads, start, es);
    var m := Run(c, Start(c, threads), es);
    hide Next, Start, Exclusively, NeverPremature, NeverDisturbed, Calm, Separate;
    AllocatesOutOfDelay(c, m, e);
  }

  lemma AllocatesOutOfDelay(c: Config, m: Machine, e: Move)
    requires Exclusively(m) && Calm(m)
    ensures forall p <- Allocates(m, Next(c, m, e)) :: p !in m.st.released
  {
    var m' := Next(c, m, e);
    if e.Go? && e.i < |m.threads| && !Blocked(m, e.i) {
      HandIsOwned(m, e.i);
      ActVets(c, m.st, m.threads[e.i], e.now, e.bindable);
      hide Act, Moves, Blocked, Exclusively;
      forall p | p in Allocates(m, m') ensures p !in m.st.released {
        assert p in Vetted(m.threads[e.i]);
      }
    } else {
      hide Blocked, Exclusively, Calm, Begin, Act;
      assert m'.st.owner == m.st.owner;
    }
  }
}
