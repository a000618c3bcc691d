/** A session takeover among other calls on the shared port allocator: the thread that takes a session over allocates
    pairs for it and gives them back when a later leg fails, while other threads call for other sessions. */
module TakeoverThreads {
  import opened Basics
  import opened PortSpec
  import opened PortThreads
  import opened PortPlaces
  import opened PortReleases
  import PortRuns

  /** What the taking-over thread i has listed for session sid and not unlisted, in order, and what it has begun to
      give back since it was listed. */
  datatype Ledger = Ledger(mine: seq<int>, back: set<int>)

  predicate Goes(m: Machine, e: Move, i: nat) {
    e.Go? && e.i == i && i < |m.threads| && !Blocked(m, i)
  }

  function Keep(l: Ledger, m: Machine, e: Move, i: nat, sid: string): Ledger {
    if Goes(m, e, i) then
      match m.threads[i]
      case Listing(s, port, _) => if s == sid then Ledger(l.mine + [port], l.back - {port}) else l
      case Stamped(port, s, _) => if s == sid then l.(mine := Without(l.mine, port)) else l
      case _ => l
    else if e.ReleaseOne? && e.i == i && i < |m.threads| && m.threads[i] == Idle then l.(back := l.back + {e.port})
    else l
  }

  // ---- The other threads

  /** The call neither lists for the session nor unlists for it, and has none of its ports to release. */
  ghost predicate Elsewhere(m: Machine, j: nat, sid: string)
    requires j < |m.threads|
  {
    var pc := m.threads[j];
    && Owes(pc, sid) == 0 && (pc.Deleted? || pc.Stamped? ==> pc.sid != sid)
    && forall p <- Todo(pc) :: !At(m.place, p, Listed(sid))
  }

  ghost predicate OthersElsewhere(m: Machine, i: nat, sid: string) {
    forall j: nat :: j < |m.threads| && j != i ==> Elsewhere(m, j, sid)
  }

  /** Another thread begins no call for the session and releases none of its ports; the taking-over thread allocates
      pairs for the session and releases ports it has listed for it. */
  ghost predicate Private(m: Machine, e: Move, i: nat, sid: string, mine: seq<int>) {
    if OfCleaner(e) then true
    else if e.i == i then e.Go? || e == AskPair(i, sid) || (e.ReleaseOne? && e.port in mine)
    else
      && Orderly(m, e)
      && (e.AskPair? || e.AskBound? ==> e.sid != sid)
      && forall p <- ReleasedBy(m, e) :: !At(m.place, p, Listed(sid))
  }

  /** The ports a beginning release is to delete. */
  function ReleasedBy(m: Machine, e: Move): seq<int> {
    if e.ReleaseOne? then [e.port] else if e.ReleaseEach? then SessionPorts(m.st, e.sid) else []
  }

  /** A port listed for the session stays so unless the step deletes it. */
  lemma ActKeepsPlace(c: Config, st: State, place: map<int, Place>, i: nat, pc: Pc, now: int, bindable: bool,
                      sid: string, p: int)
    requires place.Keys == st.owner.Keys && HandPlaced(place, i, HandOf(pc)) && PoolPlaced(place, st.pool)
    requires !(pc.Listing? && pc.sid == sid && pc.port == p)
    ensures At(Moves(place, i, pc, Act(c, st, pc, now, bindable).1), p, Listed(sid)) ==> At(place, p, Listed(sid))
  {
    if pc.Releasing? || pc.Deleted? || pc.Stamped? || pc.Unlisted? || pc.Unused? {
      hide HandPlaced, PoolPlaced, Untrack;
    } else if pc.Recording? || pc.Listing? || pc.Tallying? || pc.Using? {
      hide PoolPlaced, SessionPorts;
    } else {
      SeekingKeepsLists(c, st, place, i, pc, bindable, sid, p);
      hide HandPlaced, PoolPlaced, ActSeeking, Moves;
    }
  }

  /** A step of a call elsewhere leaves the session's list alone. */
  lemma ActLeavesList(c: Config, st: State, pc: Pc, now: int, bindable: bool, sid: string)
    requires !(pc.Listing? && pc.sid == sid) && !(pc.Stamped? && pc.sid == sid)
    ensures SessionPorts(Act(c, st, pc, now, bindable).0, sid) == SessionPorts(st, sid)
  {
    hide Probe, Seek, Without;
  }

  lemma ActDeletes(c: Config, st: State, pc: Pc, now: int, bindable: bool)
    ensures var pc' := Act(c, st, pc, now, bindable).1;
            && (pc'.Deleted? ==> pc.Releasing? && pc.todo != [] && pc.todo[0] in st.owner &&
                                 pc' == Deleted(pc.todo[0], st.owner[pc.todo[0]], pc.todo[1..]))
            && (pc'.Stamped? ==> pc.Deleted? && pc'.port == pc.port && pc'.sid == pc.sid)
  {
    hide ScanStart, SessionPorts, Untrack;
  }

  lemma ElsewhereSteps(c: Config, m: Machine, j: nat, now: int, bindable: bool, sid: string)
    requires Exclusively(m) && Rightful(m) && j < |m.threads| && Elsewhere(m, j, sid)
    ensures Elsewhere(Steps(c, m, j, now, bindable), j, sid)
  {
    var (pc, m') := (m.threads[j], Steps(c, m, j, now, bindable));
    assert HandPlaced(m.place, j, HandOf(pc)) && NoRepeat(Todo(pc)) && ListedIn(m.place, Todo(pc));
    ActPays(c, m.st, pc, now, bindable, sid);
    ActDeletes(c, m.st, pc, now, bindable);
    ActShrinksTodo(c, m.st, pc, now, bindable);
    hide Act, Moves, HandPlaced, Rightful, SessionPorts;
    forall p | p in Todo(m'.threads[j]) ensures !At(m'.place, p, Listed(sid)) {
      assert p in Todo(pc);
      hide Exclusively;
      assert !(pc.Listing? && pc.sid == sid && pc.port == p);
      ActKeepsPlace(c, m.st, m.place, j, pc, now, bindable, sid, p);
    }
    if m'.threads[j].Deleted? {
      assert pc.todo[0] in Todo(pc) && m.place[pc.todo[0]].Listed?;
      assert m.st.owner[pc.todo[0]] == m.place[pc.todo[0]].sid;
    }
  }

  lemma ElsewhereStays(c: Config, m: Machine, k: nat, now: int, bindable: bool, j: nat, sid: string)
    requires Exclusively(m) && Rightful(m) && j < |m.threads| && k < |m.threads| && j != k && Elsewhere(m, j, sid)
    ensures Elsewhere(Steps(c, m, k, now, bindable), j, sid)
  {
    var (pc, m') := (m.threads[k], Steps(c, m, k, now, bindable));
    assert HandPlaced(m.place, k, HandOf(pc)) && ListedIn(m.place, Todo(m.threads[j]));
    forall p | p in Todo(m.threads[j]) ensures !At(m'.place, p, Listed(sid)) {
      if pc.Listing? && pc.port == p {
        assert p in HandOf(pc);
        assert At(m.place, p, InHand(k));
      }
      hide Act, Moves, Exclusively, Rightful, HandPlaced;
      ActKeepsPlace(c, m.st, m.place, k, pc, now, bindable, sid, p);
    }
  }

  lemma BeginsElsewhere(c: Config, m: Machine, e: Move, sid: string)
    requires !OfCleaner(e) && !e.Go? && e.i < |m.threads| && m.threads[e.i] == Idle
    requires (e.AskPair? || e.AskBound? ==> e.sid != sid)
    requires forall p <- ReleasedBy(m, e) :: !At(m.place, p, Listed(sid))
    ensures Elsewhere(Next(c, m, e), e.i, sid)
  {
    BeginCommits(c, m.st, e, sid);
    hide SessionPorts;
  }

  /** The other threads stay elsewhere. */
  lemma MoveKeepsElsewhere(c: Config, m: Machine, e: Move, i: nat, sid: string, mine: seq<int>)
    requires Exclusively(m) && Rightful(m) && OthersElsewhere(m, i, sid) && Private(m, e, i, sid, mine)
    ensures OthersElsewhere(Next(c, m, e), i, sid)
  {
    hide Exclusively, Rightful, Elsewhere, Orderly, Blocked, Steps, Begin;
    var m' := Next(c, m, e);
    forall j: nat | j < |m'.threads| && j != i ensures Elsewhere(m', j, sid) {
      MoveKeepsCount(c, m, e);
      MoveIsOwn(c, m, e, j);
      if OfCleaner(e) {
        CleanedElsewhere(c, m, e, j, sid);
      } else if e.i < |m.threads| {
        if e.Go? && !Blocked(m, e.i) {
          if e.i == j {
            ElsewhereSteps(c, m, j, e.now, e.bindable, sid);
          } else {
            ElsewhereStays(c, m, e.i, e.now, e.bindable, j, sid);
          }
        } else if !e.Go? && m.threads[e.i] == Idle {
          if e.i == j {
            BeginsElsewhere(c, m, e, sid);
          } else {
            SameElsewhere(m, m', j, sid);
          }
        }
      }
    }
  }

  lemma MoveKeepsCount(c: Config, m: Machine, e: Move)
    ensures |Next(c, m, e).threads| == |m.threads|
  {
    hide Act, Begin, Moves, Blocked;
  }

  lemma SameElsewhere(m: Machine, m': Machine, j: nat, sid: string)
    requires j < |m.threads| == |m'.threads| && m'.threads[j] == m.threads[j] && m'.place == m.place
    requires Elsewhere(m, j, sid)
    ensures Elsewhere(m', j, sid)
  {}

  lemma CleanedElsewhere(c: Config, m: Machine, e: Move, j: nat, sid: string)
    requires OfCleaner(e) && j < |m.threads| && Elsewhere(m, j, sid)
    ensures Elsewhere(Clean(c, m, e), j, sid)
  {}

  // ---- The taking-over thread

  predicate InRelease(pc: Pc) {
    pc.Releasing? || pc.Deleted? || pc.Stamped? || pc.Unlisted? || pc.Unused?
  }

  /** The call has begun to give the port back and has not unlisted it. */
  predicate GivesBack(pc: Pc, p: int) {
    pc == Releasing([p]) || ((pc.Deleted? || pc.Stamped?) && pc.port == p)
  }

  /** The call releases one port at a time, and one of its own. */
  predicate OwnCall(pc: Pc, sid: string, mine: seq<int>) {
    && (pc.Releasing? ==> |pc.todo| == 1 && pc.todo[0] in mine)
    && (pc.Deleted? || pc.Stamped? ==> pc.sid == sid && pc.port in mine)
    && (InRelease(pc) && !pc.Releasing? ==> pc.todo == [])
  }

  ghost predicate Settled(pc: Pc, l: Ledger) {
    forall p <- l.mine :: p in l.back ==> GivesBack(pc, p)
  }

  /** The session's list is what it was at the start and what the taking-over thread has listed since. */
  ghost predicate Accounts(m: Machine, i: nat, sid: string, base: seq<int>, l: Ledger) {
    && i < |m.threads| && Exclusively(m) && Rightful(m) && OthersElsewhere(m, i, sid)
    && SessionPorts(m.st, sid) == base + l.mine && NoRepeat(base + l.mine)
    && OwnCall(m.threads[i], sid, l.mine) && Settled(m.threads[i], l)
  }

  lemma {:induction false} WithoutTail(base: seq<int>, mine: seq<int>, p: int)
    requires p !in base
    ensures Without(base + mine, p) == base + Without(mine, p)
  {
    if base == [] {
      assert base + mine == mine && base + Without(mine, p) == Without(mine, p);
    } else {
      assert (base + mine)[0] == base[0] && (base + mine)[1..] == base[1..] + mine;
      WithoutTail(base[1..], mine, p);
    }
  }

  /** No thread awaits what only thread i could await. */
  lemma {:induction false} NoneAwaits(threads: seq<Pc>, p: int, sid: string)
    requires forall j :: 0 <= j < |threads| ==> !Awaits(threads[j], p, sid)
    ensures Awaiting(threads, p, sid) == 0
  {
    if threads == [] {
    } else {
      NoneAwaits(threads[..|threads| - 1], p, sid);
    }
  }

  /** While the thread itself is not unlisting, the session's list holds exactly its listed ports. */
  lemma InListIff(m: Machine, i: nat, sid: string, p: int)
    requires Exclusively(m) && OthersElsewhere(m, i, sid) && i < |m.threads| && sid != ""
    requires !m.threads[i].Deleted? && !m.threads[i].Stamped?
    ensures p in SessionPorts(m.st, sid) <==> At(m.place, p, Listed(sid))
  {
    hide HandPlaced, PoolPlaced, Names, SessionPorts;
    forall j | 0 <= j < |m.threads| ensures !Awaits(m.threads[j], p, sid) {
      if j != i {
        assert Elsewhere(m, j, sid);
      }
    }
    NoneAwaits(m.threads, p, sid);
    assert ListPlaced(m, sid, p);
    assert p in SessionPorts(m.st, sid) <==> p in multiset(SessionPorts(m.st, sid));
  }

  /** What is said of the session's list and the thread's own part in it. */
  ghost predicate ListIs(st: State, pc: Pc, sid: string, base: seq<int>, l: Ledger) {
    && SessionPorts(st, sid) == base + l.mine && NoRepeat(base + l.mine)
    && OwnCall(pc, sid, l.mine) && Settled(pc, l)
  }

  /** The thread lists one more port, which was in its hands and so in no list. */
  lemma OwnLists(m: Machine, i: nat, sid: string, base: seq<int>, l: Ledger)
    requires Accounts(m, i, sid, base, l) && sid != "" && m.threads[i].Listing? && m.threads[i].sid == sid
    ensures var (st, pc) := ActRecording(m.st, m.threads[i]);
            var port := m.threads[i].port;
            ListIs(st, pc, sid, base, Ledger(l.mine + [port], l.back - {port}))
  {
    var port := m.threads[i].port;
    assert HandPlaced(m.place, i, HandOf(m.threads[i])) && port in HandOf(m.threads[i]);
    assert At(m.place, port, InHand(i));
    InListIff(m, i, sid, port);
    hide Exclusively, Rightful, OthersElsewhere, HandPlaced;
    assert base + (l.mine + [port]) == base + l.mine + [port];
    NoRepeatMore(base + l.mine, port);
  }

  lemma NoRepeatMore(s: seq<int>, p: int)
    requires NoRepeat(s) && p !in s
    ensures NoRepeat(s + [p])
  {}

  /** The thread unlists a port of its own. */
  lemma OwnUnlists(m: Machine, i: nat, sid: string, base: seq<int>, l: Ledger)
    requires Accounts(m, i, sid, base, l) && sid != "" && m.threads[i].Stamped? && m.threads[i].sid == sid
    ensures var (st, pc) := ActReleasing(m.st, m.threads[i], 0);
            ListIs(st, pc, sid, base, l.(mine := Without(l.mine, m.threads[i].port)))
  {
    var (port, list) := (m.threads[i].port, base + l.mine);
    hide Exclusively, Rightful, OthersElsewhere;
    OnlyInMine(base, l.mine, port);
    WithoutTail(base, l.mine, port);
    OnlyMineRepeatFree(base, l.mine);
    PortRuns.WithoutRemoves(list, port);
    PortRuns.WithoutRemoves(l.mine, port);
    hide Without, NoRepeat;
    UntrackIs(m.st, sid, port);
  }

  lemma UntrackIs(st: State, sid: string, port: int)
    ensures SessionPorts(st.(sessions := Untrack(st.sessions, sid, port)), sid) == Without(SessionPorts(st, sid), port)
  {
    hide Without;
  }

  lemma OnlyInMine(base: seq<int>, mine: seq<int>, p: int)
    requires NoRepeat(base + mine) && p in mine
    ensures p !in base
  {
    var j :| 0 <= j < |mine| && mine[j] == p;
    assert (base + mine)[|base| + j] == p;
    forall i | 0 <= i < |base| ensures base[i] != p {
      assert (base + mine)[i] == base[i];
    }
  }

  lemma OnlyMineRepeatFree(base: seq<int>, mine: seq<int>)
    requires NoRepeat(base + mine)
    ensures NoRepeat(mine)
  {
    assert forall j :: 0 <= j < |mine| ==> (base + mine)[|base| + j] == mine[j];
  }

  /** The thread deletes the port it gives back: the port is listed for the session, so the session owns it. */
  lemma OwnDeletes(m: Machine, i: nat, now: int, sid: string, base: seq<int>, l: Ledger)
    requires Accounts(m, i, sid, base, l) && sid != "" && m.threads[i].Releasing?
    ensures var (st, pc) := ActReleasing(m.st, m.threads[i], now);
            ListIs(st, pc, sid, base, l) && pc == Deleted(m.threads[i].todo[0], sid, [])
  {
    var (pc, p) := (m.threads[i], m.threads[i].todo[0]);
    assert p in base + l.mine;
    InListIff(m, i, sid, p);
    assert p in m.st.owner && m.st.owner[p] == sid;
    hide Exclusively, Rightful, OthersElsewhere, NoRepeat;
    assert pc.todo == [p] && pc.todo[1..] == [];
  }

  /** Any other step of the thread leaves the list alone, and gives nothing back. */
  lemma OwnMoves(c: Config, st: State, pc: Pc, now: int, bindable: bool, sid: string, base: seq<int>, l: Ledger)
    requires ListIs(st, pc, sid, base, l)
    requires !pc.Releasing? && !(pc.Listing? && pc.sid == sid) && !pc.Stamped?
    ensures var (st', pc') := Act(c, st, pc, now, bindable); ListIs(st', pc', sid, base, l)
  {
    hide NoRepeat, OwnCall, Settled, Act;
    ActLeavesList(c, st, pc, now, bindable, sid);
    if InRelease(pc) {
      ReleaseGoesOn(c, st, pc, now, bindable, sid, l);
    } else {
      NotReleasing(c, st, pc, now, bindable);
      NothingBack(pc, Act(c, st, pc, now, bindable).1, sid, l);
    }
  }

  /** A release that is past the deletion stays the thread's own. */
  lemma ReleaseGoesOn(c: Config, st: State, pc: Pc, now: int, bindable: bool, sid: string, l: Ledger)
    requires (pc.Deleted? || pc.Unlisted? || pc.Unused?) && OwnCall(pc, sid, l.mine) && Settled(pc, l)
    ensures var pc' := Act(c, st, pc, now, bindable).1; OwnCall(pc', sid, l.mine) && Settled(pc', l)
  {}

  lemma NothingBack(pc: Pc, pc': Pc, sid: string, l: Ledger)
    requires !InRelease(pc) && !InRelease(pc') && Settled(pc, l)
    ensures OwnCall(pc', sid, l.mine) && Settled(pc', l)
  {}

  lemma NotReleasing(c: Config, st: State, pc: Pc, now: int, bindable: bool)
    requires !InRelease(pc)
    ensures !InRelease(Act(c, st, pc, now, bindable).1)
  {
    hide ScanStart, SessionPorts;
  }

  // ---- Steps and runs

  lemma OwnStep(c: Config, m: Machine, e: Move, i: nat, sid: string, base: seq<int>, l: Ledger)
    requires Accounts(m, i, sid, base, l) && sid != "" && Goes(m, e, i)
    ensures var m' := Next(c, m, e); i < |m'.threads| && ListIs(m'.st, m'.threads[i], sid, base, Keep(l, m, e, i, sid))
  {
    var (pc, m') := (m.threads[i], Next(c, m, e));
    assert m' == Steps(c, m, i, e.now, e.bindable);
    hide Blocked, Moves;
    if pc.Listing? && pc.sid == sid {
      OwnLists(m, i, sid, base, l);
    } else if pc.Stamped? {
      OwnUnlists(m, i, sid, base, l);
    } else if pc.Releasing? {
      OwnDeletes(m, i, e.now, sid, base, l);
    } else {
      OwnMoves(c, m.st, pc, e.now, e.bindable, sid, base, l);
    }
    hide Accounts, ListIs, ActSeeking;
  }

  /** Beginning a call of its own changes no list. */
  lemma OwnBegin(c: Config, m: Machine, e: Move, i: nat, sid: string, base: seq<int>, l: Ledger)
    requires Accounts(m, i, sid, base, l) && m.threads[i] == Idle
    requires e == AskPair(i, sid) || (e.ReleaseOne? && e.i == i && e.port in l.mine)
    ensures var m' := Next(c, m, e); i < |m'.threads| && ListIs(m'.st, m'.threads[i], sid, base, Keep(l, m, e, i, sid))
  {
    hide Exclusively, Rightful, OthersElsewhere, NoRepeat;
  }

  /** A release of its own is orderly: the port is listed for the session, and nobody else is about to delete it. */
  lemma OwnIsOrderly(m: Machine, e: Move, i: nat, sid: string, base: seq<int>, l: Ledger)
    requires Accounts(m, i, sid, base, l) && sid != "" && e.ReleaseOne? && e.port in l.mine && m.threads[i] == Idle
    ensures Orderly(m, e)
  {
    assert e.port in base + l.mine;
    InListIff(m, i, sid, e.port);
    hide Exclusively, Rightful;
    forall j | 0 <= j < |m.threads| ensures e.port !in Todo(m.threads[j]) {
      if j != i {
        assert Elsewhere(m, j, sid);
      }
    }
  }

  /** Another thread's step, or the cleaner's, leaves the session's list and the thread alone. */
  lemma OtherStep(c: Config, m: Machine, e: Move, i: nat, sid: string)
    requires i < |m.threads| && OthersElsewhere(m, i, sid) && (OfCleaner(e) || e.i != i)
    ensures var m' := Next(c, m, e);
            |m'.threads| == |m.threads| && m'.threads[i] == m.threads[i] &&
              SessionPorts(m'.st, sid) == SessionPorts(m.st, sid)
  {
    MoveIsOwn(c, m, e, i);
    hide Act, Begin, Moves, Blocked;
    if e.Go? && e.i < |m.threads| {
      assert Elsewhere(m, e.i, sid);
      ActLeavesList(c, m.st, m.threads[e.i], e.now, e.bindable, sid);
    }
  }

  lemma MoveKeepsAccounts(c: Config, m: Machine, e: Move, i: nat, sid: string, base: seq<int>, l: Ledger)
    requires Accounts(m, i, sid, base, l) && sid != "" && Private(m, e, i, sid, l.mine)
    ensures Accounts(Next(c, m, e), i, sid, base, Keep(l, m, e, i, sid))
  {
    MoveKeepsElsewhere(c, m, e, i, sid, l.mine);
    if !OfCleaner(e) && e.i == i && e.ReleaseOne? && m.threads[i] != Idle {
      NothingBegins(c, m, e);
    } else {
      assert Orderly(m, e) by {
        if !OfCleaner(e) && e.i == i && e.ReleaseOne? {
          OwnIsOrderly(m, e, i, sid, base, l);
        }
      }
      RightfulIsMature(m, e);
      MoveKeepsExclusivelyIff(c, m, e);
      MoveKeepsRightful(c, m, e);
    }
    hide Exclusively, Rightful, OthersElsewhere, Orderly, Next, SessionPorts, NoRepeat, Settled, OwnCall;
    if Goes(m, e, i) {
      OwnStep(c, m, e, i, sid, base, l);
    } else if !OfCleaner(e) && e.i == i && !e.Go? && m.threads[i] == Idle {
      OwnBegin(c, m, e, i, sid, base, l);
    } else if OfCleaner(e) || e.i != i {
      OtherStep(c, m, e, i, sid);
    } else {
      NothingBegins(c, m, e);
    }
  }

  lemma NothingBegins(c: Config, m: Machine, e: Move)
    requires !OfCleaner(e) && e.i < |m.threads| && (if e.Go? then Blocked(m, e.i) else m.threads[e.i] != Idle)
    ensures Next(c, m, e) == m
  {}

  function Kept(c: Config, m: Machine, es: seq<Move>, i: nat, sid: string): Ledger {
    if es == [] then Ledger([], {})
    else
      var k := |es| - 1;
      Keep(Kept(c, m, es[..k], i, sid), Run(c, m, es[..k]), es[k], i, sid)
  }

  ghost predicate AllPrivate(c: Config, m: Machine, es: seq<Move>, i: nat, sid: string) {
    es != [] ==>
      var k := |es| - 1;
      && AllPrivate(c, m, es[..k], i, sid)
      && Private(Run(c, m, es[..k]), es[k], i, sid, Kept(c, m, es[..k], i, sid).mine)
  }

  /** Nothing is under way for the session. */
  ghost predicate Untouched(m: Machine, i: nat, sid: string) {
    i < |m.threads| && m.threads[i] == Idle && Exclusively(m) && Rightful(m) && OthersElsewhere(m, i, sid)
  }

  /** In every interleaving with calls for other sessions, the session's list is what it was and then what the
      taking-over thread has listed and not unlisted, in order. */
  lemma {:induction false} ListInEveryInterleaving(c: Config, m: Machine, es: seq<Move>, i: nat, sid: string)
    requires sid != "" && Untouched(m, i, sid) && AllPrivate(c, m, es, i, sid)
    ensures Accounts(Run(c, m, es), i, sid, SessionPorts(m.st, sid), Kept(c, m, es, i, sid))
    ensures SessionPorts(Run(c, m, es).st, sid) == SessionPorts(m.st, sid) + Kept(c, m, es, i, sid).mine
  {
    if es == [] {
      ListHasNoRepeat(m, i, sid);
      assert SessionPorts(m.st, sid) + [] == SessionPorts(m.st, sid);
    } else {
      var k := |es| - 1;
      ListInEveryInterleaving(c, m, es[..k], i, sid);
      hide Next, Keep, Untouched, Exclusively, Rightful, OthersElsewhere, Private, SessionPorts;
      MoveKeepsAccounts(c, Run(c, m, es[..k]), es[k], i, sid, SessionPorts(m.st, sid), Kept(c, m, es[..k], i, sid));
    }
  }

  lemma ListHasNoRepeat(m: Machine, i: nat, sid: string)
    requires sid != "" && Untouched(m, i, sid)
    ensures NoRepeat(SessionPorts(m.st, sid))
  {
    var list := SessionPorts(m.st, sid);
    forall p ensures multiset(list)[p] <= 1 {
      hide HandPlaced, PoolPlaced, Names, SessionPorts;
      forall j | 0 <= j < |m.threads| ensures !Awaits(m.threads[j], p, sid) {
        if j != i {
          assert Elsewhere(m, j, sid);
        }
      }
      NoneAwaits(m.threads, p, sid);
      assert ListPlaced(m, sid, p);
    }
    hide SessionPorts, Untouched;
    OnceIsNoRepeat(list);
  }

  lemma OnceIsNoRepeat(s: seq<int>)
    requires forall p :: multiset(s)[p] <= 1
    ensures NoRepeat(s)
  {
    forall i, j | 0 <= i < j < |s| ensures s[i] != s[j] {
      assert s == s[..j] + [s[j]] + s[j + 1..];
      assert multiset(s)[s[j]] >= multiset(s[..j])[s[j]] + 1;
      assert s[..j][i] in multiset(s[..j]);
    }
  }

  /** The thread is between calls and has begun to give back every port it still has listed. */
  ghost predicate GaveAllBack(m: Machine, i: nat, l: Ledger)
    requires i < |m.threads|
  {
    m.threads[i] == Idle && forall p <- l.mine :: p in l.back
  }

  /** A failed takeover leaves the session's list exactly as it was, whatever other threads do for other sessions
      meanwhile. */
  lemma FailedTakeoverRestores(c: Config, m: Machine, es: seq<Move>, i: nat, sid: string)
    requires sid != "" && Untouched(m, i, sid) && AllPrivate(c, m, es, i, sid)
    ensures i < |Run(c, m, es).threads|
    ensures GaveAllBack(Run(c, m, es), i, Kept(c, m, es, i, sid)) ==>
              SessionPorts(Run(c, m, es).st, sid) == SessionPorts(m.st, sid)
  {
    ListInEveryInterleaving(c, m, es, i, sid);
    var (m', l) := (Run(c, m, es), Kept(c, m, es, i, sid));
    assert Settled(m'.threads[i], l);
    hide *;
    if GaveAllBack(m', i, l) {
      AllBackIsNone(m', i, l);
      NothingMore(SessionPorts(m.st, sid));
    }
  }

  lemma NotMine(m: Machine, i: nat, l: Ledger, p: int)
    requires i < |m.threads| && GaveAllBack(m, i, l) && Settled(m.threads[i], l)
    ensures p !in l.mine
  {
    assert !GivesBack(m.threads[i], p);
  }

  lemma AllBackIsNone(m: Machine, i: nat, l: Ledger)
    requires i < |m.threads| && GaveAllBack(m, i, l) && Settled(m.threads[i], l)
    ensures l.mine == []
  {
    hide GaveAllBack, Settled;
    forall p: int ensures p !in multiset(l.mine) {
      NotMine(m, i, l, p);
    }
    assert multiset(l.mine) == multiset{};
    assert |l.mine| == |multiset(l.mine)|;
  }

  lemma NothingMore(s: seq<int>)
    ensures s + [] == s
  {}
}
