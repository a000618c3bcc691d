/** A call that no other call overlaps takes the allocator where the one-step operation does. */
module PortAlone {
  import opened Basics
  import opened PortSpec
  import PT = PortThreads

  /** Whether the operating system lets the call bind what it is looking at. */
  predicate Binds(bindable: Network, pc: PT.Pc) {
    match pc
    case HalfLocked(_, _, port, _) => bindable(port) && bindable(port + 1)
    case Seeking(_, port, _) => bindable(port)
    case _ => true
  }

  /** The call's next k steps on their own. */
  function Solo(c: Config, now: int, bindable: Network, st: State, pc: PT.Pc, k: nat): (State, PT.Pc)
    decreases k
  {
    if k == 0 then (st, pc)
    else
      var (st', pc') := PT.Act(c, st, pc, now, Binds(bindable, pc));
      Solo(c, now, bindable, st', pc', k - 1)
  }

  ghost predicate Reaches(c: Config, now: int, bindable: Network, st: State, pc: PT.Pc, st': State, pc': PT.Pc) {
    exists k: nat :: Solo(c, now, bindable, st, pc, k) == (st', pc')
  }

  lemma {:induction false} SoloSum(c: Config, now: int, bindable: Network, st: State, pc: PT.Pc, k: nat, n: nat)
    ensures var (st', pc') := Solo(c, now, bindable, st, pc, k);
            Solo(c, now, bindable, st, pc, k + n) == Solo(c, now, bindable, st', pc', n)
    decreases k
  {
    if k != 0 {
      var (st', pc') := PT.Act(c, st, pc, now, Binds(bindable, pc));
      SoloSum(c, now, bindable, st', pc', k - 1, n);
    }
  }

  lemma SoloStep(c: Config, now: int, bindable: Network, st: State, pc: PT.Pc, st': State, pc': PT.Pc, k: nat)
    requires PT.Act(c, st, pc, now, Binds(bindable, pc)) == (st', pc')
    ensures Solo(c, now, bindable, st, pc, k + 1) == Solo(c, now, bindable, st', pc', k)
  {
    hide PT.Act;
  }

  lemma SoloNothing(c: Config, now: int, bindable: Network, st: State, pc: PT.Pc)
    ensures Solo(c, now, bindable, st, pc, 0) == (st, pc)
  {}

  lemma ReachesItself(c: Config, now: int, bindable: Network, st: State, pc: PT.Pc)
    ensures Reaches(c, now, bindable, st, pc, st, pc)
  {
    assert Solo(c, now, bindable, st, pc, 0) == (st, pc);
  }

  lemma ReachesOn(c: Config, now: int, bindable: Network, st: State, pc: PT.Pc, st1: State, pc1: PT.Pc, st2: State,
                  pc2: PT.Pc)
    requires Reaches(c, now, bindable, st, pc, st1, pc1) && Reaches(c, now, bindable, st1, pc1, st2, pc2)
    ensures Reaches(c, now, bindable, st, pc, st2, pc2)
  {
    var k: nat :| Solo(c, now, bindable, st, pc, k) == (st1, pc1);
    var n: nat :| Solo(c, now, bindable, st1, pc1, n) == (st2, pc2);
    SoloSum(c, now, bindable, st, pc, k, n);
  }

  /** The first step, then the rest. */
  lemma ReachesFrom(c: Config, now: int, bindable: Network, st: State, pc: PT.Pc, st': State, pc': PT.Pc)
    requires var (st1, pc1) := PT.Act(c, st, pc, now, Binds(bindable, pc));
             Reaches(c, now, bindable, st1, pc1, st', pc')
    ensures Reaches(c, now, bindable, st, pc, st', pc')
  {
    hide PT.Act;
    var (st1, pc1) := PT.Act(c, st, pc, now, Binds(bindable, pc));
    var n: nat :| Solo(c, now, bindable, st1, pc1, n) == (st', pc');
    assert Solo(c, now, bindable, st, pc, n + 1) == (st', pc');
  }

  // ---- Looking for a pair

  function Marked(st: State, port: int): State {
    st.(owner := st.owner[port := ""][port + 1 := ""])
  }

  lemma LooksAtPair(c: Config, now: int, bindable: Network, st: State, job: PT.Job, start: int, port: int,
                    wrapped: bool)
    ensures var pc := PT.Scanning(job, start, port, wrapped, 0);
            if PairFree(st, bindable, port) then Reaches(c, now, bindable, st, pc, Marked(st, port),
                                                         PT.Reserved(job, port))
            else Reaches(c, now, bindable, st, pc, st, PT.Probe(c, job, start, port + 2, wrapped))
  {
    hide PT.Probe, Reaches;
    var (goal, end) := if PairFree(st, bindable, port) then (Marked(st, port), PT.Reserved(job, port))
                       else (st, PT.Probe(c, job, start, port + 2, wrapped));
    ReachesItself(c, now, bindable, goal, end);
    if port !in st.released {
      if port + 1 !in st.released {
        ReachesFrom(c, now, bindable, st, PT.HalfLocked(job, start, port, wrapped), goal, end);
        ReachesFrom(c, now, bindable, st, PT.Scanning(job, start, port, wrapped, 2), goal, end);
      }
      ReachesFrom(c, now, bindable, st, PT.Scanning(job, start, port, wrapped, 1), goal, end);
    }
    ReachesFrom(c, now, bindable, st, PT.Scanning(job, start, port, wrapped, 0), goal, end);
  }

  /** Where the scan that has or has not wrapped around ends. */
  function Limit(c: Config, start: int, wrapped: bool): int {
    var end := c.maxPort - 1;
    if !wrapped || end <= start then end else start
  }

  lemma {:induction false} ScansPairs(c: Config, now: int, bindable: Network, st: State, job: PT.Job, start: int,
                                      port: int, wrapped: bool)
    ensures var pc := PT.Probe(c, job, start, port, wrapped);
            match ScanPairs(st, bindable, port, Limit(c, start, wrapped))
            case Some(p) => Reaches(c, now, bindable, st, pc, Marked(st, p), PT.Reserved(job, p))
            case None => Reaches(c, now, bindable, st, pc, st, if wrapped then PT.GiveUp(job)
                                 else PT.Probe(c, job, start, ScanStart(c), true))
    decreases Limit(c, start, wrapped) - port
  {
    hide Reaches, Marked, ScanStart, PT.GiveUp, PairFree;
    var pc := PT.Probe(c, job, start, port, wrapped);
    if port >= Limit(c, start, wrapped) {
      ReachesItself(c, now, bindable, st, pc);
    } else {
      LooksAtPair(c, now, bindable, st, job, start, port, wrapped);
      if !PairFree(st, bindable, port) {
        ScansPairs(c, now, bindable, st, job, start, port + 2, wrapped);
        var (goal, end) := match ScanPairs(st, bindable, port + 2, Limit(c, start, wrapped))
          case Some(p) => (Marked(st, p), PT.Reserved(job, p))
          case None => (st, if wrapped then PT.GiveUp(job) else PT.Probe(c, job, start, ScanStart(c), true));
        ReachesOn(c, now, bindable, st, pc, st, PT.Probe(c, job, start, port + 2, wrapped), goal, end);
      }
    }
  }

  lemma FindsPair(c: Config, now: int, bindable: Network, st: State, job: PT.Job)
    ensures match FindPair(c, st, bindable)
            case Some(p) => Reaches(c, now, bindable, st, PT.Hinting(job), Marked(st, p), PT.Reserved(job, p))
            case None => Reaches(c, now, bindable, st, PT.Hinting(job), st, PT.GiveUp(job))
  {
    hide Reaches, Marked, ScanStart, PT.GiveUp, PT.Probe, ScanPairs;
    var hint := st.nextPort;
    ScansPairs(c, now, bindable, st, job, hint, hint, false);
    ScansPairs(c, now, bindable, st, job, hint, ScanStart(c), true);
    var (goal, end) := match FindPair(c, st, bindable)
      case Some(p) => (Marked(st, p), PT.Reserved(job, p))
      case None => (st, PT.GiveUp(job));
    if ScanPairs(st, bindable, hint, c.maxPort - 1).None? {
      ReachesOn(c, now, bindable, st, PT.Probe(c, job, hint, hint, false), st,
                PT.Probe(c, job, hint, ScanStart(c), true), goal, end);
    }
    ReachesFrom(c, now, bindable, st, PT.Hinting(job), goal, end);
  }

  // ---- Recording

  lemma RecordsOne(c: Config, now: int, bindable: Network, st: State, sid: string, port: int, todo: seq<int>)
    ensures Reaches(c, now, bindable, st, PT.Recording(sid, [port] + todo), Record(st, port, sid),
                    PT.Records(sid, todo))
    ensures port in st.owner && st.owner[port] == sid ==>
              Reaches(c, now, bindable, st, PT.Listing(sid, port, todo), Record(st, port, sid), PT.Records(sid, todo))
  {
    hide Reaches, PT.Records;
    var (named, goal, end) := (st.(owner := st.owner[port := sid]), Record(st, port, sid), PT.Records(sid, todo));
    var listed := named.(sessions := st.sessions[sid := SessionPorts(st, sid) + [port]]);
    ReachesItself(c, now, bindable, goal, end);
    ReachesFrom(c, now, bindable, listed.(totalAllocated := st.totalAllocated + 1), PT.Using(sid, todo), goal, end);
    ReachesFrom(c, now, bindable, listed, PT.Tallying(sid, todo), goal, end);
    ReachesFrom(c, now, bindable, named, PT.Listing(sid, port, todo), goal, end);
    assert ([port] + todo)[1..] == todo;
    ReachesFrom(c, now, bindable, st, PT.Recording(sid, [port] + todo), goal, end);
    if port in st.owner && st.owner[port] == sid {
      assert st.owner[port := sid] == st.owner;
    }
  }

  lemma RecordsPair(c: Config, now: int, bindable: Network, st: State, sid: string, rtp: int)
    ensures Reaches(c, now, bindable, st, PT.Recording(sid, PT.Pair(rtp)), RecordPair(st, rtp, sid), PT.Idle)
  {
    hide Reaches;
    var first := Record(st, rtp, sid);
    RecordsOne(c, now, bindable, st, sid, rtp, [rtp + 1]);
    RecordsOne(c, now, bindable, first, sid, rtp + 1, []);
    hide Record;
    assert [rtp] + [rtp + 1] == PT.Pair(rtp) && [rtp + 1] + [] == [rtp + 1];
    ReachesOn(c, now, bindable, st, PT.Recording(sid, PT.Pair(rtp)), first, PT.Recording(sid, [rtp + 1]),
              RecordPair(st, rtp, sid), PT.Idle);
  }

  lemma ReservesPair(c: Config, now: int, bindable: Network, st: State, sid: string, p: int)
    ensures Reaches(c, now, bindable, Marked(st, p), PT.Reserved(PT.ForSession(sid), p),
                    RecordPair(Reserve(st, p), p, sid), PT.Idle)
  {
    RecordsPair(c, now, bindable, Reserve(st, p), sid, p);
    hide Reaches, RecordPair;
    ReachesFrom(c, now, bindable, Marked(st, p), PT.Reserved(PT.ForSession(sid), p),
                RecordPair(Reserve(st, p), p, sid), PT.Idle);
  }

  lemma Fails(c: Config, now: int, bindable: Network, st: State, n: int)
    ensures Reaches(c, now, bindable, st, PT.GivingUp(n), st.(totalFailed := st.totalFailed + n), PT.Idle)
  {
    ReachesItself(c, now, bindable, st.(totalFailed := st.totalFailed + n), PT.Idle);
    hide Reaches;
    ReachesFrom(c, now, bindable, st, PT.GivingUp(n), st.(totalFailed := st.totalFailed + n), PT.Idle);
  }

  /** What a call past the limit check does. */
  function Obtain(c: Config, st: State, sid: string, bindable: Network): State {
    if st.pool != [] then RecordPair(st.(pool := st.pool[1..]), st.pool[0], sid)
    else
      match FindPair(c, st, bindable)
      case None => st.(totalFailed := st.totalFailed + 2)
      case Some(p) => RecordPair(Reserve(st, p), p, sid)
  }

  lemma ObtainAlone(c: Config, now: int, bindable: Network, st: State, sid: string)
    ensures Reaches(c, now, bindable, st, PT.Wanting(sid), Obtain(c, st, sid, bindable), PT.Idle)
  {
    hide Reaches, RecordPair, FindPair, Marked, Reserve, PT.Probe;
    var goal := Obtain(c, st, sid, bindable);
    if st.pool != [] {
      RecordsPair(c, now, bindable, st.(pool := st.pool[1..]), sid, st.pool[0]);
    } else {
      var job := PT.ForSession(sid);
      FindsPair(c, now, bindable, st, job);
      match FindPair(c, st, bindable)
      case Some(p) =>
        ReservesPair(c, now, bindable, st, sid, p);
        ReachesOn(c, now, bindable, st, PT.Hinting(job), Marked(st, p), PT.Reserved(job, p), goal, PT.Idle);
      case None =>
        Fails(c, now, bindable, st, 2);
        ReachesOn(c, now, bindable, st, PT.Hinting(job), st, PT.GivingUp(2), goal, PT.Idle);
    }
    ReachesFrom(c, now, bindable, st, PT.Wanting(sid), goal, PT.Idle);
  }

  /** AllocatePortPair. */
  lemma PairAlone(c: Config, now: int, bindable: Network, st: State, i: nat, sid: string)
    ensures Reaches(c, now, bindable, st, PT.Begin(c, st, PT.AskPair(i, sid)), AllocatePair(c, st, sid, bindable).0,
                    PT.Idle)
  {
    hide Reaches, RecordPair, FindPair, Reserve, SessionPorts;
    if |SessionPorts(st, sid)| + 2 > c.maxAllocations {
      Fails(c, now, bindable, st, 1);
    } else {
      ObtainAlone(c, now, bindable, st, sid);
    }
  }

  // ---- Looking for a single port

  function Taken(st: State, sid: string, port: int): State {
    st.(owner := st.owner[port := sid])
  }

  lemma LooksAtPort(c: Config, now: int, bindable: Network, st: State, sid: string, port: int)
    ensures var pc := PT.Seeking(sid, port, false);
            if Free(st, bindable, port) then Reaches(c, now, bindable, st, pc, Taken(st, sid, port),
                                                     PT.Bound(sid, port))
            else Reaches(c, now, bindable, st, pc, st, PT.Seek(c, sid, port + Stride(c)))
  {
    hide PT.Seek, Reaches, Stride;
    var (goal, end) := if Free(st, bindable, port) then (Taken(st, sid, port), PT.Bound(sid, port))
                       else (st, PT.Seek(c, sid, port + Stride(c)));
    ReachesItself(c, now, bindable, goal, end);
    if port !in st.released {
      ReachesFrom(c, now, bindable, st, PT.Seeking(sid, port, true), goal, end);
    }
    ReachesFrom(c, now, bindable, st, PT.Seeking(sid, port, false), goal, end);
  }

  lemma {:induction false} ScansPorts(c: Config, now: int, bindable: Network, st: State, sid: string, port: int)
    ensures var pc := PT.Seek(c, sid, port);
            match ScanPorts(st, bindable, port, c.maxPort, Stride(c))
            case Some(p) => Reaches(c, now, bindable, st, pc, Taken(st, sid, p), PT.Bound(sid, p))
            case None => Reaches(c, now, bindable, st, pc, st, PT.GivingUp(1))
    decreases c.maxPort - port
  {
    hide Reaches, Taken, Free;
    var pc := PT.Seek(c, sid, port);
    if port > c.maxPort {
      ReachesItself(c, now, bindable, st, pc);
    } else {
      LooksAtPort(c, now, bindable, st, sid, port);
      if !Free(st, bindable, port) {
        var on := port + Stride(c);
        ScansPorts(c, now, bindable, st, sid, on);
        var (goal, end) := match ScanPorts(st, bindable, on, c.maxPort, Stride(c))
          case Some(p) => (Taken(st, sid, p), PT.Bound(sid, p))
          case None => (st, PT.GivingUp(1));
        ReachesOn(c, now, bindable, st, pc, st, PT.Seek(c, sid, on), goal, end);
      }
    }
  }

  lemma RecordsBound(c: Config, now: int, bindable: Network, st: State, sid: string, p: int)
    ensures Reaches(c, now, bindable, Taken(st, sid, p), PT.Bound(sid, p),
                    Record(st, p, sid).(nextPort := p + Stride(c)), PT.Idle)
  {
    var (hinted, goal) := (Taken(st, sid, p).(nextPort := p + Stride(c)),
                           Record(st, p, sid).(nextPort := p + Stride(c)));
    RecordsOne(c, now, bindable, hinted, sid, p, []);
    assert Record(hinted, p, sid) == goal;
    hide Reaches, Record, Stride;
    ReachesFrom(c, now, bindable, Taken(st, sid, p), PT.Bound(sid, p), goal, PT.Idle);
  }

  /** AllocateWithConnection. */
  lemma BoundAlone(c: Config, now: int, bindable: Network, st: State, i: nat, sid: string)
    ensures Reaches(c, now, bindable, st, PT.Begin(c, st, PT.AskBound(i, sid)), AllocateBound(c, st, sid, bindable).0,
                    PT.Idle)
  {
    hide Reaches, Record, ScanPorts, Taken, SessionPorts, PT.Seek;
    var (goal, hint) := (AllocateBound(c, st, sid, bindable).0, PT.Seek(c, sid, st.nextPort));
    if |SessionPorts(st, sid)| >= c.maxAllocations {
      Fails(c, now, bindable, st, 1);
    } else {
      ScansPorts(c, now, bindable, st, sid, st.nextPort);
      match ScanPorts(st, bindable, st.nextPort, c.maxPort, Stride(c)) {
        case Some(p) =>
          RecordsBound(c, now, bindable, st, sid, p);
          ReachesOn(c, now, bindable, st, hint, Taken(st, sid, p), PT.Bound(sid, p), goal, PT.Idle);
        case None =>
          Fails(c, now, bindable, st, 1);
          ReachesOn(c, now, bindable, st, hint, st, PT.GivingUp(1), goal, PT.Idle);
      }
      ReachesFrom(c, now, bindable, st, PT.Hunting(sid), goal, PT.Idle);
    }
  }

  // ---- Refilling the pool

  lemma DropsPair(c: Config, now: int, bindable: Network, st: State, p: int, left: nat)
    requires |st.pool| >= c.reserveCount
    ensures Reaches(c, now, bindable, Reserve(st, p), PT.Pushing(p, left),
                    Reserve(st, p).(owner := st.owner[p := ""][p + 1 := ""] - {p, p + 1}), PT.Idle)
  {
    hide Reaches;
    var (full, goal) := (Reserve(st, p), Reserve(st, p).(owner := st.owner[p := ""][p + 1 := ""] - {p, p + 1}));
    assert PT.Pair(p)[1..] == [p + 1] && [p + 1][1..] == [];
    assert full.owner - {p} - {p + 1} == goal.owner;
    ReachesItself(c, now, bindable, goal, PT.Idle);
    ReachesFrom(c, now, bindable, full.(owner := full.owner - {p}), PT.Dropping([p + 1]), goal, PT.Idle);
    ReachesFrom(c, now, bindable, full, PT.Dropping(PT.Pair(p)), goal, PT.Idle);
    ReachesFrom(c, now, bindable, full, PT.Pushing(p, left), goal, PT.Idle);
  }

  lemma {:induction false} RefillsAlone(c: Config, now: int, bindable: Network, st: State, left: nat)
    requires left > 0
    ensures Reaches(c, now, bindable, st, PT.Hinting(PT.ForPool(left)), Refill(c, st, bindable, left), PT.Idle)
    decreases left
  {
    hide Reaches, FindPair, PT.Probe;
    var (job, goal) := (PT.ForPool(left), Refill(c, st, bindable, left));
    FindsPair(c, now, bindable, st, job);
    match FindPair(c, st, bindable)
    case None =>
    case Some(p) =>
      var full := Reserve(st, p);
      if |st.pool| < c.reserveCount {
        var more := full.(pool := st.pool + [p]);
        assert goal == Refill(c, more, bindable, left - 1);
        if left > 1 {
          RefillsAlone(c, now, bindable, more, left - 1);
        } else {
          assert Refill(c, more, bindable, 0) == more;
          ReachesItself(c, now, bindable, more, PT.Idle);
        }
        ReachesFrom(c, now, bindable, full, PT.Pushing(p, left), goal, PT.Idle);
      } else {
        DropsPair(c, now, bindable, st, p, left);
      }
      ReachesFrom(c, now, bindable, Marked(st, p), PT.Reserved(job, p), goal, PT.Idle);
      ReachesOn(c, now, bindable, st, PT.Hinting(job), Marked(st, p), PT.Reserved(job, p), goal, PT.Idle);
  }

  /** One call of refillPool. */
  lemma RefillAlone(c: Config, now: int, bindable: Network, st: State, i: nat)
    ensures Reaches(c, now, bindable, st, PT.Begin(c, st, PT.Refill(i)), RefillPool(c, st, bindable), PT.Idle)
  {
    hide Reaches, Refill;
    if c.reserveCount > |st.pool| {
      RefillsAlone(c, now, bindable, st, c.reserveCount - |st.pool|);
    } else {
      ReachesItself(c, now, bindable, st, PT.Idle);
    }
  }

  // ---- Releasing

  lemma ReleasesDeleted(c: Config, now: int, bindable: Network, st: State, port: int, todo: seq<int>)
    requires port in st.owner
    ensures Reaches(c, now, bindable, st.(owner := st.owner - {port}), PT.Deleted(port, st.owner[port], todo),
                    Release(st, port, now).0, PT.Releases(todo))
  {
    hide Reaches, PT.Releases, Untrack;
    var (goal, end, sid) := (Release(st, port, now).0, PT.Releases(todo), st.owner[port]);
    var gone := st.(owner := st.owner - {port});
    var stamped := gone.(released := st.released[port := now]);
    var unlisted := stamped.(sessions := if sid != "" then Untrack(st.sessions, sid, port) else st.sessions);
    ReachesItself(c, now, bindable, goal, end);
    ReachesFrom(c, now, bindable, unlisted.(totalReleased := st.totalReleased + 1), PT.Unused(todo), goal, end);
    ReachesFrom(c, now, bindable, unlisted, PT.Unlisted(todo), goal, end);
    ReachesFrom(c, now, bindable, stamped, PT.Stamped(port, sid, todo), goal, end);
    ReachesFrom(c, now, bindable, gone, PT.Deleted(port, sid, todo), goal, end);
  }

  lemma ReleasesOne(c: Config, now: int, bindable: Network, st: State, port: int, todo: seq<int>)
    ensures Reaches(c, now, bindable, st, PT.Releasing([port] + todo), Release(st, port, now).0, PT.Releases(todo))
  {
    var (goal, end) := (Release(st, port, now).0, PT.Releases(todo));
    assert ([port] + todo)[1..] == todo;
    if port in st.owner {
      ReleasesDeleted(c, now, bindable, st, port, todo);
    } else {
      ReachesItself(c, now, bindable, goal, end);
    }
    hide Reaches, PT.Releases, Untrack;
    ReachesFrom(c, now, bindable, st, PT.Releasing([port] + todo), goal, end);
  }

  lemma {:induction false} ReleasesAll(c: Config, now: int, bindable: Network, st: State, todo: seq<int>)
    ensures Reaches(c, now, bindable, st, PT.Releases(todo), ReleaseAll(st, todo, now), PT.Idle)
    decreases |todo|
  {
    hide Reaches, Release;
    if todo == [] {
      ReachesItself(c, now, bindable, st, PT.Idle);
    } else {
      assert todo == [todo[0]] + todo[1..];
      ReleasesOne(c, now, bindable, st, todo[0], todo[1..]);
      var mid := Release(st, todo[0], now).0;
      ReleasesAll(c, now, bindable, mid, todo[1..]);
      ReachesOn(c, now, bindable, st, PT.Releasing(todo), mid, PT.Releases(todo[1..]), ReleaseAll(st, todo, now),
                PT.Idle);
    }
  }

  /** ReleasePort and ReleaseSessionPorts. */
  lemma ReleaseAlone(c: Config, now: int, bindable: Network, st: State, i: nat, port: int, sid: string)
    ensures Reaches(c, now, bindable, st, PT.Begin(c, st, PT.ReleaseOne(i, port)), Release(st, port, now).0, PT.Idle)
    ensures Reaches(c, now, bindable, st, PT.Begin(c, st, PT.ReleaseEach(i, sid)), ReleaseSession(st, sid, now),
                    PT.Idle)
  {
    hide Reaches, Release, ReleaseAll, SessionPorts;
    ReleasesOne(c, now, bindable, st, port, []);
    assert [port] + [] == [port];
    ReleasesAll(c, now, bindable, st, SessionPorts(st, sid));
  }

  // ---- Runs

  ghost predicate OthersUnlocked(m: PT.Machine, i: nat) {
    forall j :: 0 <= j < |m.threads| && j != i ==> !m.threads[j].HalfLocked?
  }

  lemma NotBlocked(m: PT.Machine, i: nat)
    requires i < |m.threads| && OthersUnlocked(m, i)
    ensures !PT.Blocked(m, i)
  {
    if m.threads[i].HalfLocked? {
      assert PT.Shard(m.threads[i].port) != PT.Shard(m.threads[i].port + 1);
    }
  }

  /** The steps of thread i as a run in which nobody else moves. */
  lemma {:induction false} RunsAlone(c: Config, now: int, bindable: Network, m: PT.Machine, i: nat,
                                     k: nat) returns (es: seq<PT.Move>)
    requires i < |m.threads| && OthersUnlocked(m, i)
    ensures var (st, pc) := Solo(c, now, bindable, m.st, m.threads[i], k);
            var m' := PT.Run(c, m, es);
            m'.st == st && m'.threads == m.threads[i := pc] && m'.cleaner == m.cleaner
    ensures forall e <- es :: e.Go? && e.now == now
    decreases k
  {
    if k == 0 {
      return [];
    } else {
      var e := PT.Go(i, now, Binds(bindable, m.threads[i]));
      NotBlocked(m, i);
      hide PT.Act, PT.Moves, PT.Blocked, Binds;
      var m1 := PT.Next(c, m, e);
      var rest := RunsAlone(c, now, bindable, m1, i, k - 1);
      PT.RunAfter(c, m, e, rest);
      return [e] + rest;
    }
  }

  /** The one-step operation a call stands for. */
  function Whole(c: Config, now: int, bindable: Network, st: State, e: PT.Move): State {
    match e
    case AskPair(_, sid) => AllocatePair(c, st, sid, bindable).0
    case AskBound(_, sid) => AllocateBound(c, st, sid, bindable).0
    case Refill(_) => RefillPool(c, st, bindable)
    case ReleaseOne(_, port) => Release(st, port, now).0
    case ReleaseEach(_, sid) => ReleaseSession(st, sid, now)
    case _ => st
  }

  lemma WholeReached(c: Config, now: int, bindable: Network, st: State, e: PT.Move)
    requires !e.Go? && !PT.OfCleaner(e)
    ensures Reaches(c, now, bindable, st, PT.Begin(c, st, e), Whole(c, now, bindable, st, e), PT.Idle)
  {
    hide Reaches, PT.Begin, AllocatePair, AllocateBound, RefillPool, Release, ReleaseSession;
    match e
    case AskPair(i, sid) => PairAlone(c, now, bindable, st, i, sid);
    case AskBound(i, sid) => BoundAlone(c, now, bindable, st, i, sid);
    case Refill(i) => RefillAlone(c, now, bindable, st, i);
    case ReleaseOne(i, port) => ReleaseAlone(c, now, bindable, st, i, port, "");
    case ReleaseEach(i, sid) => ReleaseAlone(c, now, bindable, st, i, 0, sid);
  }

  /** From every state in which nobody else holds a lock, a call that nothing overlaps runs to its end and leaves
      the allocator as the one-step operation does. */
  lemma CallAlone(c: Config, now: int, bindable: Network, m: PT.Machine, e: PT.Move) returns (es: seq<PT.Move>)
    requires !e.Go? && !PT.OfCleaner(e) && e.i < |m.threads| && m.threads[e.i] == PT.Idle && OthersUnlocked(m, e.i)
    ensures var m' := PT.Run(c, m, [e] + es);
            m'.st == Whole(c, now, bindable, m.st, e) && m'.threads == m.threads && m'.cleaner == m.cleaner
    ensures forall e <- es :: e.Go? && e.now == now
  {
    WholeReached(c, now, bindable, m.st, e);
    var k: nat :| Solo(c, now, bindable, m.st, PT.Begin(c, m.st, e), k) == (Whole(c, now, bindable, m.st, e), PT.Idle);
    hide PT.Begin, Solo, Whole;
    es := RunsAlone(c, now, bindable, PT.Next(c, m, e), e.i, k);
    PT.RunAfter(c, m, e, es);
    assert m.threads[e.i := PT.Begin(c, m.st, e)][e.i := PT.Idle] == m.threads;
  }
}
