/** The port allocator called by many threads. A step is one section under a shard or session lock, one
    operation on the released map or the pool channel, or one atomic load, store or add. */
module PortThreads {
  import opened Basics
  import opened PortSpec

  /** What a pair is sought for: a session, or the pool with so many pairs still to add. */
  datatype Job = ForSession(sid: string) | ForPool(left: nat)

  /** Where a call stands. `todo` holds the ports the call still has to deal with. */
  datatype Pc =
    | Idle
    | GivingUp(failures: int)
    // AllocatePortPair and refillPool: the limit is checked; the hint is to be loaded; a port is looked at, and
    // so many of its two ports were not in the released map; the first shard lock is held; the pair is reserved
    | Wanting(sid: string)
    | Hinting(job: Job)
    | Scanning(job: Job, start: int, port: int, wrapped: bool, seen: nat)
    | HalfLocked(job: Job, start: int, port: int, wrapped: bool)
    | Reserved(job: Job, port: int)
    | Pushing(port: int, left: nat)
    | Dropping(todo: seq<int>)
    // recordAllocation: to be named, to be listed, to be added to the two counters
    | Recording(sid: string, todo: seq<int>)
    | Listing(sid: string, port: int, todo: seq<int>)
    | Tallying(sid: string, todo: seq<int>)
    | Using(sid: string, todo: seq<int>)
    // AllocateWithConnection
    | Hunting(sid: string)
    | Seeking(sid: string, port: int, vetted: bool)
    | Bound(sid: string, port: int)
    // ReleasePort and ReleaseSessionPorts: to be deleted, stamped, unlisted, taken off the two counters
    | Releasing(todo: seq<int>)
    | Deleted(port: int, sid: string, todo: seq<int>)
    | Stamped(port: int, sid: string, todo: seq<int>)
    | Unlisted(todo: seq<int>)
    | Unused(todo: seq<int>)

  /** Where an allocated port is: in the pool, in the hands of a call, or in a session's list. */
  datatype Place = InPool | InHand(i: nat) | Listed(sid: string)

  /** `cleaner` is the port the cleaner has found expired and not yet deleted. `place` and `stamps` are histories
      that no step reads: where each allocated port is, and when each port was last stamped as released. */
  datatype Machine = Machine(
    st: State, threads: seq<Pc>, cleaner: Option<int>, place: map<int, Place>, stamps: map<int, int>)

  datatype Move =
    | AskPair(i: nat, sid: string) | AskBound(i: nat, sid: string) | Refill(i: nat)
    | ReleaseOne(i: nat, port: int) | ReleaseEach(i: nat, sid: string)
    | Go(i: nat, now: int, bindable: bool)
    | CleanRead(port: int, now: int) | CleanDelete

  function Start(c: Config, threads: nat): Machine {
    Machine(New(c), seq(threads, _ => Idle), None, map[], map[])
  }

  // ---- Locks

  function Shard(port: int): int {
    port % 16
  }

  /** The shard lock a call needs for its next step. */
  function Needs(pc: Pc): Option<int> {
    match pc
    case Scanning(_, _, port, _, seen) => if seen >= 2 then Some(Shard(port)) else None
    case HalfLocked(_, _, port, _) => Some(Shard(port + 1))
    case Dropping(todo) => if todo != [] then Some(Shard(todo[0])) else None
    case Recording(_, todo) => if todo != [] then Some(Shard(todo[0])) else None
    case Seeking(_, port, vetted) => if vetted then Some(Shard(port)) else None
    case Releasing(todo) => if todo != [] then Some(Shard(todo[0])) else None
    case _ => None
  }

  predicate Holds(pc: Pc, shard: int) {
    pc.HalfLocked? && Shard(pc.port) == shard
  }

  predicate Held(threads: seq<Pc>, shard: int) {
    exists j :: 0 <= j < |threads| && Holds(threads[j], shard)
  }

  predicate Blocked(m: Machine, i: nat)
    requires i < |m.threads|
  {
    Needs(m.threads[i]).Some? && Held(m.threads, Needs(m.threads[i]).value)
  }

  // ---- Steps

  function GiveUp(job: Job): Pc {
    if job.ForSession? then GivingUp(2) else Idle
  }

  /** The next pair to look at: from the hint up, then from the start of the range up to the hint. */
  function Probe(c: Config, job: Job, start: int, port: int, wrapped: bool): Pc {
    var end := c.maxPort - 1;
    if !wrapped && port < end then Scanning(job, start, port, false, 0)
    else if wrapped && port < start && port < end then Scanning(job, start, port, true, 0)
    else if !wrapped && ScanStart(c) < start && ScanStart(c) < end then Scanning(job, start, ScanStart(c), true, 0)
    else GiveUp(job)
  }

  function Seek(c: Config, sid: string, port: int): Pc {
    if port <= c.maxPort then Seeking(sid, port, false) else GivingUp(1)
  }

  function Records(sid: string, todo: seq<int>): Pc {
    if todo == [] then Idle else Recording(sid, todo)
  }

  function Drop(todo: seq<int>): Pc {
    if todo == [] then Idle else Dropping(todo)
  }

  function Releases(todo: seq<int>): Pc {
    if todo == [] then Idle else Releasing(todo)
  }

  function Pair(port: int): seq<int> {
    [port, port + 1]
  }

  /** Where a new call stands after its first step. */
  function Begin(c: Config, st: State, e: Move): Pc {
    match e
    case AskPair(_, sid) => if |SessionPorts(st, sid)| + 2 > c.maxAllocations then GivingUp(1) else Wanting(sid)
    case AskBound(_, sid) => if |SessionPorts(st, sid)| >= c.maxAllocations then GivingUp(1) else Hunting(sid)
    case Refill(_) => if c.reserveCount > |st.pool| then Hinting(ForPool(c.reserveCount - |st.pool|)) else Idle
    case ReleaseOne(_, port) => Releasing([port])
    case ReleaseEach(_, sid) => Releases(SessionPorts(st, sid))
    case _ => Idle
  }

  /** A step of a call: what it makes of the state, and where it stands then. */
  function Act(c: Config, st: State, pc: Pc, now: int, bindable: bool): (State, Pc) {
    if pc.Releasing? || pc.Deleted? || pc.Stamped? || pc.Unlisted? || pc.Unused? then ActReleasing(st, pc, now)
    else if pc.Recording? || pc.Listing? || pc.Tallying? || pc.Using? then ActRecording(st, pc)
    else ActSeeking(c, st, pc, bindable)
  }

  function ActSeeking(c: Config, st: State, pc: Pc, bindable: bool): (State, Pc) {
    match pc
    case GivingUp(failures) => (st.(totalFailed := st.totalFailed + failures), Idle)
    case Wanting(sid) =>
      if st.pool == [] then (st, Hinting(ForSession(sid)))
      else (st.(pool := st.pool[1..]), Recording(sid, Pair(st.pool[0])))
    case Hinting(job) => (st, Probe(c, job, st.nextPort, st.nextPort, false))
    case Scanning(job, start, port, wrapped, seen) =>
      if seen >= 2 then (st, HalfLocked(job, start, port, wrapped))
      else if port + seen in st.released then (st, Probe(c, job, start, port + 2, wrapped))
      else (st, Scanning(job, start, port, wrapped, seen + 1))
    case HalfLocked(job, start, port, wrapped) =>
      if port !in st.owner && port + 1 !in st.owner && bindable then
        (st.(owner := st.owner[port := ""][port + 1 := ""]), Reserved(job, port))
      else (st, Probe(c, job, start, port + 2, wrapped))
    case Reserved(job, port) =>
      (st.(nextPort := port + 2), if job.ForSession? then Recording(job.sid, Pair(port)) else Pushing(port, job.left))
    case Pushing(port, left) =>
      if |st.pool| < c.reserveCount then
        (st.(pool := st.pool + [port]), if left > 1 then Hinting(ForPool(left - 1)) else Idle)
      else (st, Dropping(Pair(port)))
    case Dropping(todo) => if todo == [] then (st, Idle) else (st.(owner := st.owner - {todo[0]}), Drop(todo[1..]))
    case Hunting(sid) => (st, Seek(c, sid, st.nextPort))
    case Seeking(sid, port, vetted) =>
      if !vetted then (st, if port in st.released then Seek(c, sid, port + Stride(c)) else Seeking(sid, port, true))
      else if port !in st.owner && bindable then (st.(owner := st.owner[port := sid]), Bound(sid, port))
      else (st, Seek(c, sid, port + Stride(c)))
    case Bound(sid, port) => (st.(nextPort := port + Stride(c)), Listing(sid, port, []))
    case _ => (st, pc)
  }

  function ActRecording(st: State, pc: Pc): (State, Pc) {
    match pc
    case Recording(sid, todo) =>
      if todo == [] then (st, Idle) else (st.(owner := st.owner[todo[0] := sid]), Listing(sid, todo[0], todo[1..]))
    case Listing(sid, port, todo) =>
      (st.(sessions := st.sessions[sid := SessionPorts(st, sid) + [port]]), Tallying(sid, todo))
    case Tallying(sid, todo) => (st.(totalAllocated := st.totalAllocated + 1), Using(sid, todo))
    case Using(sid, todo) => (st.(currentInUse := st.currentInUse + 1), Records(sid, todo))
    case _ => (st, pc)
  }

  function ActReleasing(st: State, pc: Pc, now: int): (State, Pc) {
    match pc
    case Releasing(todo) =>
      if todo == [] then (st, Idle)
      else if todo[0] !in st.owner then (st, Releases(todo[1..]))
      else (st.(owner := st.owner - {todo[0]}), Deleted(todo[0], st.owner[todo[0]], todo[1..]))
    case Deleted(port, sid, todo) => (st.(released := st.released[port := now]), Stamped(port, sid, todo))
    case Stamped(port, sid, todo) =>
      (if sid != "" then st.(sessions := Untrack(st.sessions, sid, port)) else st, Unlisted(todo))
    case Unlisted(todo) => (st.(totalReleased := st.totalReleased + 1), Unused(todo))
    case Unused(todo) => (st.(currentInUse := st.currentInUse - 1), Releases(todo))
    case _ => (st, pc)
  }

  /** How the place of ports changes when thread i steps from pc to pc'. */
  function Moves(place: map<int, Place>, i: nat, pc: Pc, pc': Pc): map<int, Place> {
    match pc
    case Wanting(_) => if pc'.Recording? && pc'.todo != [] then Taken(place, pc'.todo[0], InHand(i)) else place
    case HalfLocked(_, _, port, _) => if pc'.Reserved? then Taken(place, port, InHand(i)) else place
    case Pushing(port, _) => if pc'.Dropping? then place else Taken(place, port, InPool)
    case Dropping(todo) => if todo != [] then place - {todo[0]} else place
    case Seeking(_, port, _) => if pc'.Bound? then place[port := InHand(i)] else place
    case Listing(sid, port, _) => place[port := Listed(sid)]
    case Releasing(todo) => if pc'.Deleted? && todo != [] then place - {todo[0]} else place
    case _ => place
  }

  function Taken(place: map<int, Place>, port: int, at: Place): map<int, Place> {
    place[port := at][port + 1 := at]
  }

  predicate OfCleaner(e: Move) {
    e.CleanRead? || e.CleanDelete?
  }

  /** A step that is not enabled changes nothing. */
  function Next(c: Config, m: Machine, e: Move): Machine {
    if OfCleaner(e) then Clean(c, m, e)
    else if e.i >= |m.threads| then m
    else if e.Go? then if Blocked(m, e.i) then m else Steps(c, m, e.i, e.now, e.bindable)
    else if m.threads[e.i] == Idle then m.(threads := m.threads[e.i := Begin(c, m.st, e)])
    else m
  }

  function Steps(c: Config, m: Machine, i: nat, now: int, bindable: bool): Machine
    requires i < |m.threads|
  {
    var pc := m.threads[i];
    var (st, pc') := Act(c, m.st, pc, now, bindable);
    Machine(st, m.threads[i := pc'], m.cleaner, Moves(m.place, i, pc, pc'),
            if pc.Deleted? then m.stamps[pc.port := now] else m.stamps)
  }

  function Clean(c: Config, m: Machine, e: Move): Machine
    requires OfCleaner(e)
  {
    match e
    case CleanRead(port, now) =>
      if m.cleaner == None && port in m.st.released && now - m.st.released[port] >= c.reuseDelay then
        m.(cleaner := Some(port))
      else m
    case CleanDelete =>
      if m.cleaner.Some? then m.(cleaner := None, st := m.st.(released := m.st.released - {m.cleaner.value})) else m
  }

  function Run(c: Config, m: Machine, es: seq<Move>): Machine {
    if es == [] then m else Next(c, Run(c, m, es[..|es| - 1]), es[|es| - 1])
  }

  lemma {:induction false} RunAfter(c: Config, m: Machine, e: Move, es: seq<Move>)
    ensures Run(c, m, [e] + es) == Run(c, Next(c, m, e), es)
  {
    hide Next;
    if es == [] {
      assert [e] + es == [e];
    } else {
      RunAfter(c, m, e, es[..|es| - 1]);
      assert ([e] + es)[..|es|] == [e] + es[..|es| - 1];
    }
  }

  /** A step changes at most the thread it names. */
  lemma MoveIsOwn(c: Config, m: Machine, e: Move, j: nat)
    requires j < |m.threads|
    ensures |Next(c, m, e).threads| == |m.threads|
    ensures OfCleaner(e) || e.i != j ==> Next(c, m, e).threads[j] == m.threads[j]
  {
    hide Act, Begin, Moves, Blocked;
  }

  // ---- Waiting for locks

  predicate EvenPc(pc: Pc) {
    (pc.Scanning? || pc.HalfLocked? || pc.Reserved? || pc.Seeking? || pc.Bound?) ==> pc.port % 2 == 0
  }

  /** Every pair or port looked at is even, and so is the hint. */
  ghost predicate Evens(m: Machine) {
    m.st.nextPort % 2 == 0 && forall i :: 0 <= i < |m.threads| ==> EvenPc(m.threads[i])
  }

  lemma EvenPlusTwo(p: int)
    requires p % 2 == 0
    ensures (p + 2) % 2 == 0
  {}

  lemma ScanStartEven(c: Config)
    requires c.evenOnly
    ensures ScanStart(c) % 2 == 0
  {}

  lemma ProbeIsEven(c: Config, job: Job, start: int, port: int, wrapped: bool)
    requires c.evenOnly && port % 2 == 0
    ensures EvenPc(Probe(c, job, start, port, wrapped)) && EvenPc(Probe(c, job, start, port + 2, wrapped))
  {
    ScanStartEven(c);
    EvenPlusTwo(port);
  }

  lemma ScanKeepsEven(c: Config, st: State, pc: Pc, bindable: bool)
    requires c.evenOnly && st.nextPort % 2 == 0 && EvenPc(pc)
    ensures ActSeeking(c, st, pc, bindable).0.nextPort % 2 == 0 && EvenPc(ActSeeking(c, st, pc, bindable).1)
  {
    hide Probe, ScanStart;
    match pc
    case Hinting(job) => ProbeIsEven(c, job, st.nextPort, st.nextPort, false);
    case Scanning(job, start, port, wrapped, _) => ProbeIsEven(c, job, start, port, wrapped);
    case HalfLocked(job, start, port, wrapped) => ProbeIsEven(c, job, start, port, wrapped);
    case Reserved(_, port) => EvenPlusTwo(port);
    case Seeking(_, port, _) => EvenPlusTwo(port);
    case Bound(_, port) => EvenPlusTwo(port);
    case _ =>
  }

  lemma ActKeepsEven(c: Config, st: State, pc: Pc, now: int, bindable: bool)
    requires c.evenOnly && st.nextPort % 2 == 0 && EvenPc(pc)
    ensures Act(c, st, pc, now, bindable).0.nextPort % 2 == 0 && EvenPc(Act(c, st, pc, now, bindable).1)
  {
    hide Untrack, SessionPorts, ActSeeking;
    ScanKeepsEven(c, st, pc, bindable);
  }

  lemma MoveKeepsEvens(c: Config, m: Machine, e: Move)
    requires c.evenOnly && Evens(m)
    ensures Evens(Next(c, m, e))
  {
    hide Blocked, Act, Moves, SessionPorts;
    if e.Go? && e.i < |m.threads| {
      ActKeepsEven(c, m.st, m.threads[e.i], e.now, e.bindable);
    }
  }

  lemma {:induction false} AlwaysEven(c: Config, threads: nat, es: seq<Move>)
    requires c.evenOnly
    ensures Evens(Run(c, Start(c, threads), es))
  {
    hide Evens, Next;
    if es == [] {
      assert Evens(Start(c, threads)) by {
        ScanStartEven(c);
        StartsEven(c, threads);
      }
    } else {
      AlwaysEven(c, threads, es[..|es| - 1]);
      MoveKeepsEvens(c, Run(c, Start(c, threads), es[..|es| - 1]), es[|es| - 1]);
    }
  }

  lemma StartsEven(c: Config, threads: nat)
    requires c.evenOnly
    ensures Evens(Start(c, threads))
  {
    ScanStartEven(c);
  }

  /** A thread whose call is under way and whose next step nothing blocks. */
  predicate CanStep(m: Machine, i: nat)
    requires i < |m.threads|
  {
    m.threads[i] != Idle && !Blocked(m, i)
  }

  /** With even ports only, in every reachable state of any number of threads: whoever holds a shard lock can
      take its second one, and if any call is under way then some call can go on. */
  lemma SomeThreadCanStep(c: Config, threads: nat, es: seq<Move>)
    requires c.evenOnly
    ensures var m := Run(c, Start(c, threads), es);
            && (forall i :: 0 <= i < |m.threads| && m.threads[i].HalfLocked? ==> CanStep(m, i))
            && ((exists i :: 0 <= i < |m.threads| && m.threads[i] != Idle) ==>
                exists i :: 0 <= i < |m.threads| && CanStep(m, i))
  {
    var m := Run(c, Start(c, threads), es);
    AlwaysEven(c, threads, es);
    hide Run, Start;
    forall i | 0 <= i < |m.threads| && m.threads[i].HalfLocked? ensures CanStep(m, i) {
      HolderIsFree(m, i);
    }
    if i :| 0 <= i < |m.threads| && m.threads[i] != Idle {
      if Blocked(m, i) {
        var j :| 0 <= j < |m.threads| && Holds(m.threads[j], Needs(m.threads[i]).value);
        assert CanStep(m, j);
      } else {
        assert CanStep(m, i);
      }
    }
  }

  lemma HolderIsFree(m: Machine, i: nat)
    requires Evens(m) && i < |m.threads| && m.threads[i].HalfLocked?
    ensures CanStep(m, i)
  {
    forall j | 0 <= j < |m.threads| ensures !Holds(m.threads[j], Shard(m.threads[i].port + 1)) {
      if m.threads[j].HalfLocked? {
        EvenAndOdd(m.threads[j].port, m.threads[i].port);
      }
    }
  }

  lemma EvenAndOdd(p: int, q: int)
    requires p % 2 == 0 && q % 2 == 0
    ensures Shard(p) != Shard(q + 1)
  {}

  // ---- The session limit

  function JobOwes(job: Job, sid: string): nat {
    if job == ForSession(sid) then 2 else 0
  }

  /** How many ports a call past its limit check may still list for a session. */
  function Owes(pc: Pc, sid: string): nat {
    match pc
    case Wanting(s) => if s == sid then 2 else 0
    case Hinting(job) => JobOwes(job, sid)
    case Scanning(job, _, _, _, _) => JobOwes(job, sid)
    case HalfLocked(job, _, _, _) => JobOwes(job, sid)
    case Reserved(job, _) => JobOwes(job, sid)
    case Recording(s, todo) => if s == sid then |todo| else 0
    case Listing(s, _, todo) => if s == sid then |todo| + 1 else 0
    case Tallying(s, todo) => if s == sid then |todo| else 0
    case Using(s, todo) => if s == sid then |todo| else 0
    case Hunting(s) => if s == sid then 1 else 0
    case Seeking(s, _, _) => if s == sid then 1 else 0
    case Bound(s, _) => if s == sid then 1 else 0
    case _ => 0
  }

  function Debt(threads: seq<Pc>, sid: string): nat {
    if threads == [] then 0 else Debt(threads[..|threads| - 1], sid) + Owes(threads[|threads| - 1], sid)
  }

  /** No call records more than a pair. */
  ghost predicate Small(threads: seq<Pc>) {
    forall i, sid :: 0 <= i < |threads| ==> Owes(threads[i], sid) <= 2
  }

  lemma {:induction false} DebtUpdate(threads: seq<Pc>, i: nat, pc: Pc, sid: string)
    requires i < |threads|
    ensures Debt(threads[i := pc], sid) == Debt(threads, sid) - Owes(threads[i], sid) + Owes(pc, sid)
    ensures Small(threads) ==> Debt(threads, sid) - Owes(threads[i], sid) <= 2 * (|threads| - 1)
  {
    hide Owes;
    var k := |threads| - 1;
    DebtBound(threads[..k], sid);
    if i == k {
      assert threads[i := pc][..k] == threads[..k];
    } else {
      assert threads[i := pc][..k] == threads[..k][i := pc];
      DebtUpdate(threads[..k], i, pc, sid);
    }
  }

  lemma {:induction false} DebtBound(threads: seq<Pc>, sid: string)
    ensures Small(threads) ==> Debt(threads, sid) <= 2 * |threads|
  {
    hide Owes;
    if threads == [] {
    } else {
      DebtBound(threads[..|threads| - 1], sid);
    }
  }

  lemma {:induction false} WithoutIsShorter(ports: seq<int>, port: int)
    ensures |Without(ports, port)| <= |ports|
  {
    if ports == [] {
    } else {
      WithoutIsShorter(ports[1..], port);
    }
  }

  lemma SeekingPays(c: Config, st: State, pc: Pc, bindable: bool, sid: string)
    requires !pc.Recording? && !pc.Listing? && !pc.Tallying? && !pc.Using?
    ensures ActSeeking(c, st, pc, bindable).0.sessions == st.sessions
    ensures Owes(ActSeeking(c, st, pc, bindable).1, sid) <= Owes(pc, sid)
  {}

  lemma RecordingPays(st: State, pc: Pc, sid: string)
    requires !pc.Stamped?
    ensures var (st', pc') := ActRecording(st, pc);
            |SessionPorts(st', sid)| + Owes(pc', sid) <= |SessionPorts(st, sid)| + Owes(pc, sid) &&
              Owes(pc', sid) <= Owes(pc, sid)
  {}

  lemma ReleasingPays(st: State, pc: Pc, now: int, sid: string)
    ensures var (st', pc') := ActReleasing(st, pc, now);
            |SessionPorts(st', sid)| <= |SessionPorts(st, sid)| && Owes(pc', sid) <= Owes(pc, sid)
  {
    hide Without;
    if pc.Stamped? {
      WithoutIsShorter(SessionPorts(st, pc.sid), pc.port);
    }
  }

  /** A step of a call lists no more than the call owed. */
  lemma ActPays(c: Config, st: State, pc: Pc, now: int, bindable: bool, sid: string)
    ensures var (st', pc') := Act(c, st, pc, now, bindable);
            |SessionPorts(st', sid)| + Owes(pc', sid) <= |SessionPorts(st, sid)| + Owes(pc, sid) &&
              Owes(pc', sid) <= Owes(pc, sid)
  {
    hide Owes, ActSeeking, ActRecording, ActReleasing;
    if pc.Releasing? || pc.Deleted? || pc.Stamped? || pc.Unlisted? || pc.Unused? {
      ReleasingPays(st, pc, now, sid);
    } else if pc.Recording? || pc.Listing? || pc.Tallying? || pc.Using? {
      RecordingPays(st, pc, sid);
    } else {
      SeekingPays(c, st, pc, bindable, sid);
    }
  }

  /** What a session may come to hold: its list, and what calls past the check may still list. */
  ghost function Due(m: Machine, sid: string): nat {
    |SessionPorts(m.st, sid)| + Debt(m.threads, sid)
  }

  /** A call passes the limit check though, with what others are about to list, there is no room for it. */
  ghost predicate Overcommits(c: Config, m: Machine, e: Move) {
    (e.AskPair? || e.AskBound?) && e.i < |m.threads| && m.threads[e.i] == Idle &&
    var wanted := if e.AskPair? then 2 else 1;
    |SessionPorts(m.st, e.sid)| + wanted <= c.maxAllocations < Due(m, e.sid) + wanted
  }

  /** What an enabled first step commits its call to. */
  function Commits(c: Config, m: Machine, e: Move, sid: string): nat {
    if !OfCleaner(e) && !e.Go? && e.i < |m.threads| && m.threads[e.i] == Idle then Owes(Begin(c, m.st, e), sid) else 0
  }

  lemma BeginCommits(c: Config, st: State, e: Move, sid: string)
    ensures Owes(Begin(c, st, e), sid) ==
            if e.AskPair? && e.sid == sid && |SessionPorts(st, sid)| + 2 <= c.maxAllocations then 2
            else if e.AskBound? && e.sid == sid && |SessionPorts(st, sid)| + 1 <= c.maxAllocations then 1
            else 0
  {}

  lemma MoveDue(c: Config, m: Machine, e: Move, sid: string)
    ensures Due(Next(c, m, e), sid) <= Due(m, sid) + Commits(c, m, e, sid)
    ensures !e.Go? ==> Due(Next(c, m, e), sid) == Due(m, sid) + Commits(c, m, e, sid)
  {
    hide Act, Begin, Owes, Blocked, Moves;
    if !OfCleaner(e) && e.i < |m.threads| {
      var pc := m.threads[e.i];
      if e.Go? {
        ActPays(c, m.st, pc, e.now, e.bindable, sid);
        DebtUpdate(m.threads, e.i, Act(c, m.st, pc, e.now, e.bindable).1, sid);
      } else if pc == Idle {
        assert Owes(Idle, sid) == 0 by { OwesNothing(sid); }
        DebtUpdate(m.threads, e.i, Begin(c, m.st, e), sid);
      }
    }
  }

  lemma OwesNothing(sid: string)
    ensures Owes(Idle, sid) == 0
  {}

  lemma MoveKeepsSmall(c: Config, m: Machine, e: Move)
    requires Small(m.threads)
    ensures Small(Next(c, m, e).threads)
  {
    hide Act, Begin, Owes, Blocked, Moves;
    if !OfCleaner(e) && e.i < |m.threads| {
      var pc := m.threads[e.i];
      forall sid ensures Owes(Next(c, m, e).threads[e.i], sid) <= 2 {
        ActPays(c, m.st, pc, if e.Go? then e.now else 0, if e.Go? then e.bindable else false, sid);
        BeginCommits(c, m.st, e, sid);
      }
    }
  }

  /** No session is due more than its limit. */
  ghost predicate WithinLimit(c: Config, m: Machine) {
    forall sid :: Due(m, sid) <= Cap(c.maxAllocations)
  }

  function Cap(n: int): nat {
    if n < 0 then 0 else n
  }

  /** A step keeps what every session is due within its limit, if and only if it does not overcommit. */
  lemma MoveKeepsLimitIff(c: Config, m: Machine, e: Move)
    requires WithinLimit(c, m)
    ensures WithinLimit(c, Next(c, m, e)) <==> !Overcommits(c, m, e)
  {
    hide Next, Due, Begin, Owes;
    forall sid ensures Due(Next(c, m, e), sid) <= Due(m, sid) + Commits(c, m, e, sid) {
      MoveDue(c, m, e, sid);
    }
    forall sid ensures Overcommits(c, m, e) || Due(m, sid) + Commits(c, m, e, sid) <= Cap(c.maxAllocations) {
      BeginCommits(c, m.st, e, sid);
    }
    if Overcommits(c, m, e) {
      MoveDue(c, m, e, e.sid);
      BeginCommits(c, m.st, e, e.sid);
      assert Due(Next(c, m, e), e.sid) > Cap(c.maxAllocations);
    }
  }

  ghost predicate LimitThroughout(c: Config, m: Machine, es: seq<Move>) {
    WithinLimit(c, Run(c, m, es)) && (es != [] ==> LimitThroughout(c, m, es[..|es| - 1]))
  }

  ghost predicate NeverOvercommits(c: Config, m: Machine, es: seq<Move>) {
    es != [] ==> NeverOvercommits(c, m, es[..|es| - 1]) && !Overcommits(c, Run(c, m, es[..|es| - 1]), es[|es| - 1])
  }

  /** In every interleaving: what every session holds or is due stays within the limit throughout, if and only if
      no call passes the check when, with what others are about to list, there is no room. */
  lemma {:induction false} LimitIff(c: Config, m: Machine, es: seq<Move>)
    requires WithinLimit(c, m)
    ensures LimitThroughout(c, m, es) <==> NeverOvercommits(c, m, es)
  {
    hide WithinLimit, Overcommits, Next;
    if es == [] {
    } else {
      LimitIff(c, m, es[..|es| - 1]);
      if LimitThroughout(c, m, es[..|es| - 1]) {
        MoveKeepsLimitIff(c, Run(c, m, es[..|es| - 1]), es[|es| - 1]);
      }
    }
  }

  lemma {:induction false} IdleOwesNothing(threads: seq<Pc>, sid: string)
    requires forall i :: 0 <= i < |threads| ==> threads[i] == Idle
    ensures Debt(threads, sid) == 0 && Small(threads)
  {
    if threads == [] {
    } else {
      IdleOwesNothing(threads[..|threads| - 1], sid);
    }
  }

  /** In every interleaving of T threads no session exceeds its limit by more than a pair for each other thread. */
  lemma {:induction false} LimitOvershoot(c: Config, threads: nat, es: seq<Move>, sid: string)
    requires threads > 0
    ensures Due(Run(c, Start(c, threads), es), sid) <= Cap(c.maxAllocations + 2 * (threads - 1))
    ensures Small(Run(c, Start(c, threads), es).threads) && |Run(c, Start(c, threads), es).threads| == threads
  {
    var start := Start(c, threads);
    if es == [] {
      IdleOwesNothing(start.threads, sid);
    } else {
      hide Due, Next, Small, Debt, Begin, Owes, Start;
      LimitOvershoot(c, threads, es[..|es| - 1], sid);
      var (m, e) := (Run(c, start, es[..|es| - 1]), es[|es| - 1]);
      MoveDue(c, m, e, sid);
      MoveKeepsSmall(c, m, e);
      MoveIsOwn(c, m, e, 0);
      BeginCommits(c, m.st, e, sid);
      CommitsLittle(c, m, e, sid);
    }
  }

  lemma CommitsLittle(c: Config, m: Machine, e: Move, sid: string)
    requires Small(m.threads)
    ensures Commits(c, m, e, sid) > 0 ==>
              Due(m, sid) + Commits(c, m, e, sid) <= c.maxAllocations + 2 * (|m.threads| - 1)
  {
    hide Begin, Owes, Debt;
    if Commits(c, m, e, sid) > 0 {
      BeginCommits(c, m.st, e, sid);
      OwesNothing(sid);
      DebtUpdate(m.threads, e.i, Idle, sid);
    }
  }
}
