/** Releases that do not get in each other's way, and the counters, in every interleaving of calls to the port
    allocator. */
module PortReleases {
  import opened Basics
  import opened PortSpec
  import opened PortThreads
  import opened PortPlaces

  /** The ports a release still has to delete. */
  function Todo(pc: Pc): seq<int> {
    if pc.Releasing? || pc.Deleted? || pc.Stamped? || pc.Unlisted? || pc.Unused? then pc.todo else []
  }

  ghost predicate ListedIn(place: map<int, Place>, ports: seq<int>) {
    forall p <- ports :: p in place && place[p].Listed?
  }

  ghost predicate Apart(ports: seq<int>, others: seq<int>) {
    forall p <- ports :: p !in others
  }

  /** Each release under way still has to delete listed ports, and none that another has. */
  ghost predicate Rightful(m: Machine) {
    && (forall i :: 0 <= i < |m.threads| ==> NoRepeat(Todo(m.threads[i])) && ListedIn(m.place, Todo(m.threads[i])))
    && (forall i, j :: 0 <= i < |m.threads| && 0 <= j < |m.threads| && i != j ==>
        Apart(Todo(m.threads[i]), Todo(m.threads[j])))
  }

  /** A release begins only for ports that are listed, each once, and that no release under way has to delete. */
  ghost predicate Orderly(m: Machine, e: Move) {
    e.ReleaseOne? || e.ReleaseEach? ==>
      var ports := if e.ReleaseOne? then [e.port] else SessionPorts(m.st, e.sid);
      NoRepeat(ports) && ListedIn(m.place, ports) &&
      forall j :: 0 <= j < |m.threads| ==> Apart(ports, Todo(m.threads[j])) && Apart(Todo(m.threads[j]), ports)
  }

  lemma RightfulIsMature(m: Machine, e: Move)
    requires Rightful(m)
    ensures !Premature(m, e)
  {
    if Deletes(m, e) {
      assert m.threads[e.i].todo[0] in Todo(m.threads[e.i]);
    }
  }

  lemma SeekingKeepsListed(c: Config, st: State, place: map<int, Place>, i: nat, pc: Pc, bindable: bool, p: int)
    requires !pc.Recording? && !pc.Listing? && !pc.Tallying? && !pc.Using?
    requires !pc.Releasing? && !pc.Deleted? && !pc.Stamped? && !pc.Unlisted? && !pc.Unused?
    requires place.Keys == st.owner.Keys && HandPlaced(place, i, HandOf(pc)) && PoolPlaced(place, st.pool)
    requires p in place && place[p].Listed?
    ensures var pc' := ActSeeking(c, st, pc, bindable).1;
            var place' := Moves(place, i, pc, pc');
            p in place' && place'[p].Listed? && Todo(pc') == []
  {
    var sid := place[p].sid;
    SeekingKeepsLists(c, st, place, i, pc, bindable, sid, p);
    SeekingReleasesNothing(c, st, pc, bindable);
    hide HandPlaced, PoolPlaced, ActSeeking, Moves, HandOf;
    assert At(place, p, Listed(sid));
  }

  lemma SeekingReleasesNothing(c: Config, st: State, pc: Pc, bindable: bool)
    requires !pc.Releasing? && !pc.Deleted? && !pc.Stamped? && !pc.Unlisted? && !pc.Unused?
    ensures Todo(ActSeeking(c, st, pc, bindable).1) == []
  {
    hide ScanStart;
  }

  lemma RecordingReleasesNothing(st: State, pc: Pc)
    requires pc.Recording? || pc.Listing? || pc.Tallying? || pc.Using?
    ensures Todo(ActRecording(st, pc).1) == []
  {
    hide SessionPorts;
  }

  /** What is left to delete is a tail of what was, and only its head has gone. */
  lemma ReleasingTakesHead(st: State, pc: Pc, now: int)
    requires pc.Releasing? || pc.Deleted? || pc.Stamped? || pc.Unlisted? || pc.Unused?
    ensures var pc' := ActReleasing(st, pc, now).1;
            Todo(pc') == if pc.Releasing? && pc.todo != [] then pc.todo[1..] else pc.todo
  {
    hide Untrack;
    if pc.Releasing? && pc.todo != [] && pc.todo[1..] == [] {
    }
  }

  /** Listed ports stay listed, but for the one a release deletes. */
  lemma ActKeepsListed(c: Config, st: State, place: map<int, Place>, i: nat, pc: Pc, now: int, bindable: bool, p: int)
    requires place.Keys == st.owner.Keys && HandPlaced(place, i, HandOf(pc)) && PoolPlaced(place, st.pool)
    requires p in place && place[p].Listed? && !(pc.Releasing? && pc.todo != [] && pc.todo[0] == p)
    ensures var place' := Moves(place, i, pc, Act(c, st, pc, now, bindable).1); p in place' && place'[p].Listed?
  {
    if pc.Releasing? || pc.Deleted? || pc.Stamped? || pc.Unlisted? || pc.Unused? {
      hide HandPlaced, PoolPlaced, Untrack;
    } else if pc.Recording? || pc.Listing? || pc.Tallying? || pc.Using? {
      hide PoolPlaced, SessionPorts;
    } else {
      SeekingKeepsListed(c, st, place, i, pc, bindable, p);
      hide HandPlaced, PoolPlaced, ActSeeking, Moves;
    }
  }

  lemma ActShrinksTodo(c: Config, st: State, pc: Pc, now: int, bindable: bool)
    ensures var todo := Todo(Act(c, st, pc, now, bindable).1);
            todo == if pc.Releasing? && pc.todo != [] then pc.todo[1..] else Todo(pc)
  {
    hide ActSeeking, ActRecording, ActReleasing;
    if pc.Releasing? || pc.Deleted? || pc.Stamped? || pc.Unlisted? || pc.Unused? {
      ReleasingTakesHead(st, pc, now);
    } else if pc.Recording? || pc.Listing? || pc.Tallying? || pc.Using? {
      RecordingReleasesNothing(st, pc);
    } else {
      SeekingReleasesNothing(c, st, pc, bindable);
    }
  }

  lemma TailOf(ports: seq<int>)
    requires ports != [] && NoRepeat(ports)
    ensures NoRepeat(ports[1..]) && ports[0] !in ports[1..] && forall p <- ports[1..] :: p in ports
  {}

  lemma StepKeepsRightful(c: Config, m: Machine, i: nat, now: int, bindable: bool)
    requires Exclusively(m) && Rightful(m) && i < |m.threads|
    ensures Rightful(Steps(c, m, i, now, bindable))
  {
    var (pc, m') := (m.threads[i], Steps(c, m, i, now, bindable));
    ActShrinksTodo(c, m.st, pc, now, bindable);
    assert HandPlaced(m.place, i, HandOf(pc));
    if pc.Releasing? && pc.todo != [] {
      TailOf(pc.todo);
    }
    forall j | 0 <= j < |m'.threads| ensures NoRepeat(Todo(m'.threads[j])) && ListedIn(m'.place, Todo(m'.threads[j])) {
      forall p | p in Todo(m'.threads[j]) ensures p in m'.place && m'.place[p].Listed? {
        assert p in Todo(m.threads[j]);
        StillListed(m, i, j, p);
        hide Act, Moves, Exclusively, HandPlaced, NoRepeat;
        ActKeepsListed(c, m.st, m.place, i, pc, now, bindable, p);
      }
    }
    hide Act, Moves, Exclusively, HandPlaced, NoRepeat, ListedIn;
  }

  /** The port another release has still to delete is not the one this deletes. */
  lemma StillListed(m: Machine, i: nat, j: nat, p: int)
    requires Rightful(m) && i < |m.threads| && j < |m.threads| && p in Todo(m.threads[j])
    requires m.place.Keys == m.st.owner.Keys
    ensures p in m.place && m.place[p].Listed?
    ensures j != i ==> p !in Todo(m.threads[i])
  {
    assert ListedIn(m.place, Todo(m.threads[j]));
    if j != i {
      assert Apart(Todo(m.threads[j]), Todo(m.threads[i]));
    }
  }

  lemma BeginKeepsRightful(c: Config, m: Machine, e: Move)
    requires Rightful(m) && Orderly(m, e) && !e.Go? && !OfCleaner(e) && e.i < |m.threads| && m.threads[e.i] == Idle
    ensures Rightful(m.(threads := m.threads[e.i := Begin(c, m.st, e)]))
  {
    var (pc, m') := (Begin(c, m.st, e), m.(threads := m.threads[e.i := Begin(c, m.st, e)]));
    assert Todo(pc) == if e.ReleaseOne? then [e.port] else if e.ReleaseEach? then SessionPorts(m.st, e.sid) else [];
    hide Begin, SessionPorts, NoRepeat, ListedIn;
    NothingToDo(m.place);
    forall i, j | 0 <= i < |m'.threads| && 0 <= j < |m'.threads| && i != j
      ensures Apart(Todo(m'.threads[i]), Todo(m'.threads[j]))
    {
    }
  }

  lemma NothingToDo(place: map<int, Place>)
    ensures NoRepeat<int>([]) && ListedIn(place, [])
  {}

  lemma MoveKeepsRightful(c: Config, m: Machine, e: Move)
    requires Exclusively(m) && Rightful(m) && Orderly(m, e)
    ensures Rightful(Next(c, m, e))
  {
    hide Exclusively, Rightful, Orderly, Blocked, Begin, Steps;
    if OfCleaner(e) {
      CleanKeepsRightful(c, m, e);
    } else if e.i < |m.threads| {
      if e.Go? {
        StepKeepsRightful(c, m, e.i, e.now, e.bindable);
      } else if m.threads[e.i] == Idle {
        BeginKeepsRightful(c, m, e);
      }
    }
  }

  lemma CleanKeepsRightful(c: Config, m: Machine, e: Move)
    requires Rightful(m) && OfCleaner(e)
    ensures Rightful(Clean(c, m, e))
  {
    hide NoRepeat, ListedIn, Apart;
  }

  ghost predicate AllOrderly(c: Config, m: Machine, es: seq<Move>) {
    es != [] ==> AllOrderly(c, m, es[..|es| - 1]) && Orderly(Run(c, m, es[..|es| - 1]), es[|es| - 1])
  }

  /** In every interleaving in which releases begin only for listed ports that no other release under way has to
      delete, every allocated port is in one place throughout. */
  lemma {:induction false} OrderlyIsExclusive(c: Config, threads: nat, es: seq<Move>)
    requires AllOrderly(c, Start(c, threads), es)
    ensures NeverPremature(c, Start(c, threads), es) && ExclusivelyThroughout(c, Start(c, threads), es)
    ensures Rightful(Run(c, Start(c, threads), es))
  {
    var start := Start(c, threads);
    StartsExclusively(c, threads);
    if es == [] {
      StartsRightful(c, threads);
    } else {
      hide Exclusively, Rightful, Orderly, Premature, Next, Start;
      OrderlyIsExclusive(c, threads, es[..|es| - 1]);
      var m := Run(c, start, es[..|es| - 1]);
      RightfulIsMature(m, es[|es| - 1]);
      MoveKeepsRightful(c, m, es[|es| - 1]);
    }
    ExclusivelyIff(c, start, es);
  }

  lemma StartsRightful(c: Config, threads: nat)
    ensures Rightful(Start(c, threads))
  {}

  // ---- Counters

  predicate Counting(pc: Pc) { pc.Tallying? }
  predicate Adding(pc: Pc) { pc.Using? }
  predicate Leaving(pc: Pc) { pc.Deleted? || pc.Stamped? || pc.Unlisted? }
  predicate Subtracting(pc: Pc) { pc.Unused? }

  ghost predicate IsListed(place: map<int, Place>, p: int) {
    p in place && place[p].Listed?
  }

  ghost function Handed(place: map<int, Place>): set<int> {
    set p | p in place && IsListed(place, p)
  }

  /** The gauge is the difference of the totals, but for calls between two counters. */
  ghost predicate GaugeBalanced(m: Machine) {
    m.st.currentInUse + CountIf(m.threads, Adding) == m.st.totalAllocated - m.st.totalReleased +
      CountIf(m.threads, Subtracting)
  }

  /** The difference of the totals is the number of listed ports, but for calls that have not counted yet. */
  ghost predicate TotalsBalanced(m: Machine) {
    m.st.totalAllocated + CountIf(m.threads, Counting) ==
      m.st.totalReleased + CountIf(m.threads, Leaving) + |Handed(m.place)|
  }

  lemma ActKeepsGauge(c: Config, st: State, pc: Pc, now: int, bindable: bool)
    ensures var (st', pc') := Act(c, st, pc, now, bindable);
            st'.currentInUse - st.currentInUse + One(Adding(pc')) - One(Adding(pc)) ==
            (st'.totalAllocated - st.totalAllocated) - (st'.totalReleased - st.totalReleased) +
              One(Subtracting(pc')) - One(Subtracting(pc))
  {
    hide SessionPorts, Untrack, ScanStart;
  }

  lemma HandedChange(place: map<int, Place>, place': map<int, Place>, port: int)
    requires forall p :: p != port ==> (IsListed(place', p) <==> IsListed(place, p))
    ensures |Handed(place')| + One(IsListed(place, port)) == |Handed(place)| + One(IsListed(place', port))
  {
    var (a, b) := (Handed(place) - {port}, Handed(place') - {port});
    hide IsListed;
    forall p ensures p in a <==> p in b {
      ListedIsPlaced(place, p);
      ListedIsPlaced(place', p);
    }
    assert a == b;
    ListedIsPlaced(place, port);
    ListedIsPlaced(place', port);
    assert |Handed(place)| == |a| + One(port in Handed(place));
    assert |Handed(place')| == |b| + One(port in Handed(place'));
  }

  lemma ListedIsPlaced(place: map<int, Place>, p: int)
    ensures IsListed(place, p) ==> p in place
  {}

  lemma SeekingHandsNothing(c: Config, st: State, place: map<int, Place>, i: nat, pc: Pc, bindable: bool)
    requires !pc.Recording? && !pc.Listing? && !pc.Tallying? && !pc.Using?
    requires !pc.Releasing? && !pc.Deleted? && !pc.Stamped? && !pc.Unlisted? && !pc.Unused?
    requires place.Keys == st.owner.Keys && HandPlaced(place, i, HandOf(pc)) && PoolPlaced(place, st.pool)
    ensures Handed(Moves(place, i, pc, ActSeeking(c, st, pc, bindable).1)) == Handed(place)
  {
    var place' := Moves(place, i, pc, ActSeeking(c, st, pc, bindable).1);
    hide HandPlaced, PoolPlaced, ActSeeking, Moves, HandOf;
    forall p ensures IsListed(place', p) <==> IsListed(place, p) {
      if p in place' && place'[p].Listed? {
        SeekingKeepsLists(c, st, place, i, pc, bindable, place'[p].sid, p);
      }
      if p in place && place[p].Listed? {
        SeekingKeepsLists(c, st, place, i, pc, bindable, place[p].sid, p);
      }
    }
  }

  lemma SeekingCountsNothing(c: Config, st: State, pc: Pc, bindable: bool)
    requires !pc.Recording? && !pc.Listing? && !pc.Tallying? && !pc.Using?
    requires !pc.Releasing? && !pc.Deleted? && !pc.Stamped? && !pc.Unlisted? && !pc.Unused?
    ensures var (st', pc') := ActSeeking(c, st, pc, bindable);
            st'.totalAllocated == st.totalAllocated && st'.totalReleased == st.totalReleased && !Counting(pc') &&
              !Leaving(pc')
  {
    hide ScanStart;
  }

  ghost predicate TotalsFollow(st: State, st': State, pc: Pc, pc': Pc,
                               place: map<int, Place>, place': map<int, Place>) {
    st'.totalAllocated - st.totalAllocated + One(Counting(pc')) - One(Counting(pc)) ==
    st'.totalReleased - st.totalReleased + One(Leaving(pc')) - One(Leaving(pc)) + |Handed(place')| - |Handed(place)|
  }

  lemma RecordingKeepsTotals(st: State, place: map<int, Place>, i: nat, pc: Pc)
    requires pc.Recording? || pc.Listing? || pc.Tallying? || pc.Using?
    requires HandPlaced(place, i, HandOf(pc))
    ensures var (st', pc') := ActRecording(st, pc); TotalsFollow(st, st', pc, pc', place, Moves(place, i, pc, pc'))
  {
    hide SessionPorts, Handed;
    if pc.Listing? {
      assert pc.port in HandOf(pc);
      assert At(place, pc.port, InHand(i));
      hide HandPlaced;
      HandedChange(place, place[pc.port := Listed(pc.sid)], pc.port);
    }
    hide HandPlaced;
  }

  lemma ReleasingKeepsTotals(st: State, place: map<int, Place>, i: nat, pc: Pc, now: int)
    requires pc.Releasing? || pc.Deleted? || pc.Stamped? || pc.Unlisted? || pc.Unused?
    requires place.Keys == st.owner.Keys
    requires pc.Releasing? && pc.todo != [] && pc.todo[0] in place ==> place[pc.todo[0]].Listed?
    ensures var (st', pc') := ActReleasing(st, pc, now); TotalsFollow(st, st', pc, pc', place, Moves(place, i, pc, pc'))
  {
    hide Untrack, Handed;
    if pc.Releasing? && pc.todo != [] && pc.todo[0] in place {
      HandedChange(place, place - {pc.todo[0]}, pc.todo[0]);
    }
  }

  lemma ActKeepsTotals(c: Config, st: State, place: map<int, Place>, i: nat, pc: Pc, now: int, bindable: bool)
    requires place.Keys == st.owner.Keys && HandPlaced(place, i, HandOf(pc)) && PoolPlaced(place, st.pool)
    requires pc.Releasing? && pc.todo != [] && pc.todo[0] in place ==> place[pc.todo[0]].Listed?
    ensures var (st', pc') := Act(c, st, pc, now, bindable);
            TotalsFollow(st, st', pc, pc', place, Moves(place, i, pc, pc'))
  {
    hide HandPlaced, PoolPlaced, Handed, Moves, ActSeeking, ActRecording, ActReleasing;
    if pc.Releasing? || pc.Deleted? || pc.Stamped? || pc.Unlisted? || pc.Unused? {
      hide TotalsFollow;
      ReleasingKeepsTotals(st, place, i, pc, now);
    } else if pc.Recording? || pc.Listing? || pc.Tallying? || pc.Using? {
      hide TotalsFollow;
      RecordingKeepsTotals(st, place, i, pc);
    } else {
      SeekingHandsNothing(c, st, place, i, pc, bindable);
      SeekingCountsNothing(c, st, pc, bindable);
    }
  }

  lemma StepKeepsBalance(c: Config, m: Machine, i: nat, now: int, bindable: bool)
    requires Exclusively(m) && i < |m.threads|
    requires var pc := m.threads[i]; pc.Releasing? && pc.todo != [] && pc.todo[0] in m.place ==>
               m.place[pc.todo[0]].Listed?
    ensures TotalsBalanced(m) ==> TotalsBalanced(Steps(c, m, i, now, bindable))
  {
    var pc := m.threads[i];
    assert HandPlaced(m.place, i, HandOf(pc));
    hide Exclusively, HandPlaced, Act, Moves, Handed, Counting, Leaving;
    ActKeepsTotals(c, m.st, m.place, i, pc, now, bindable);
    var pc' := Act(c, m.st, pc, now, bindable).1;
    CountUpdate(m.threads, Counting, i, pc');
    CountUpdate(m.threads, Leaving, i, pc');
  }

  lemma StepKeepsGauge(c: Config, m: Machine, i: nat, now: int, bindable: bool)
    requires i < |m.threads| && GaugeBalanced(m)
    ensures GaugeBalanced(Steps(c, m, i, now, bindable))
  {
    var pc := m.threads[i];
    hide Act, Moves, Adding, Subtracting;
    ActKeepsGauge(c, m.st, pc, now, bindable);
    var pc' := Act(c, m.st, pc, now, bindable).1;
    CountUpdate(m.threads, Adding, i, pc');
    CountUpdate(m.threads, Subtracting, i, pc');
  }

  lemma BeginKeepsBalance(c: Config, m: Machine, e: Move)
    requires !e.Go? && !OfCleaner(e) && e.i < |m.threads| && m.threads[e.i] == Idle
    ensures var m' := m.(threads := m.threads[e.i := Begin(c, m.st, e)]);
            (GaugeBalanced(m) <==> GaugeBalanced(m')) && (TotalsBalanced(m) <==> TotalsBalanced(m'))
  {
    var pc' := Begin(c, m.st, e);
    assert !Counting(pc') && !Leaving(pc') && !Adding(pc') && !Subtracting(pc');
    hide Begin;
    CountUpdate(m.threads, Counting, e.i, pc');
    CountUpdate(m.threads, Leaving, e.i, pc');
    CountUpdate(m.threads, Adding, e.i, pc');
    CountUpdate(m.threads, Subtracting, e.i, pc');
  }

  lemma MoveKeepsBalance(c: Config, m: Machine, e: Move)
    requires Exclusively(m) && !Premature(m, e) && GaugeBalanced(m) && TotalsBalanced(m)
    ensures GaugeBalanced(Next(c, m, e)) && TotalsBalanced(Next(c, m, e))
  {
    assert m.place.Keys == m.st.owner.Keys;
    hide Exclusively, GaugeBalanced, TotalsBalanced, Blocked, Begin, Steps;
    if OfCleaner(e) {
      CleanKeepsBalance(c, m, e);
    } else if e.i < |m.threads| {
      if e.Go? {
        if !Blocked(m, e.i) {
          StepKeepsBalance(c, m, e.i, e.now, e.bindable);
          StepKeepsGauge(c, m, e.i, e.now, e.bindable);
        }
      } else if m.threads[e.i] == Idle {
        BeginKeepsBalance(c, m, e);
      }
    }
  }

  lemma CleanKeepsBalance(c: Config, m: Machine, e: Move)
    requires OfCleaner(e) && GaugeBalanced(m) && TotalsBalanced(m)
    ensures GaugeBalanced(Clean(c, m, e)) && TotalsBalanced(Clean(c, m, e))
  {}

  /** In every interleaving without premature deletion: the gauge of ports in use and the totals agree with the
      listed ports, but for calls between a list and its counter. */
  lemma {:induction false} CountersBalance(c: Config, threads: nat, es: seq<Move>)
    requires NeverPremature(c, Start(c, threads), es)
    ensures GaugeBalanced(Run(c, Start(c, threads), es)) && TotalsBalanced(Run(c, Start(c, threads), es))
  {
    var start := Start(c, threads);
    StartsExclusively(c, threads);
    if es == [] {
      StartsBalanced(c, threads);
    } else {
      hide Exclusively, GaugeBalanced, TotalsBalanced, Premature, Next, Start;
      var before := es[..|es| - 1];
      CountersBalance(c, threads, before);
      ExclusivelyIff(c, start, before);
      MoveKeepsBalance(c, Run(c, start, before), es[|es| - 1]);
    }
  }

  lemma StartsBalanced(c: Config, threads: nat)
    ensures GaugeBalanced(Start(c, threads)) && TotalsBalanced(Start(c, threads))
  {
    var m := Start(c, threads);
    CountNone(m.threads, Counting);
    CountNone(m.threads, Leaving);
    CountNone(m.threads, Adding);
    CountNone(m.threads, Subtracting);
    assert Handed(m.place) == {};
  }

  /** Whenever no call is under way the gauge, the totals and the listed ports agree. */
  lemma QuietCounts(c: Config, threads: nat, es: seq<Move>)
    requires NeverPremature(c, Start(c, threads), es)
    requires forall pc <- Run(c, Start(c, threads), es).threads :: pc == Idle
    ensures var m := Run(c, Start(c, threads), es);
            m.st.currentInUse == m.st.totalAllocated - m.st.totalReleased == |Handed(m.place)|
  {
    CountersBalance(c, threads, es);
    var m := Run(c, Start(c, threads), es);
    hide Run, Start, Handed;
    CountNone(m.threads, Counting);
    CountNone(m.threads, Leaving);
    CountNone(m.threads, Adding);
    CountNone(m.threads, Subtracting);
  }
}
