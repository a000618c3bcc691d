/** The cluster port reallocation manager: what its operations do to its maps. */
module ReallocationSpec {
  import opened Basics

  /** `consistent`: PreferConsistent is set and there is a cluster. */
  datatype Config = Config(low: int, high: int, ttl: int, maxRetries: int, consistent: bool)

  datatype Allocation = Allocation(ports: seq<int>, expiresAt: int, failover: bool)

  datatype State = State(
    owners: map<int, string>, sessions: map<string, seq<int>>, allocations: map<string, Allocation>)

  function New(): State {
    State(map[], map[], map[])
  }

  function CharSum(s: string): nat {
    if s == "" then 0 else CharSum(s[..|s| - 1]) * 31 + s[|s| - 1] as nat
  }

  const MASK31: int := 0x8000_0000

  function HashSessionPort(sid: string, salt: nat): nat {
    (CharSum(sid) + salt * 17) % MASK31
  }

  predicate Available(c: Config, owners: map<int, string>, port: int) {
    c.low <= port <= c.high && port !in owners
  }

  /** The first available port at offset h + i, h + i + 1, ... round the range. */
  function Probe(c: Config, owners: map<int, string>, h: nat, i: nat): Option<int>
    decreases c.high - c.low - i
  {
    if i >= c.high - c.low then None
    else
      var port := c.low + (h + i) % (c.high - c.low);
      if Available(c, owners, port) then Some(port) else Probe(c, owners, h, i + 1)
  }

  function AllocateOne(c: Config, owners: map<int, string>, sid: string, retry: nat): Option<int>
    decreases c.maxRetries - retry
  {
    if retry >= c.maxRetries then None
    else
      match Probe(c, owners, HashSessionPort(sid, retry), 0)
      case Some(p) => Some(p)
      case None => AllocateOne(c, owners, sid, retry + 1)
  }

  function AllocateMany(c: Config, owners: map<int, string>, sid: string, count: nat): Option<seq<int>> {
    if count == 0 then Some([])
    else
      match AllocateMany(c, owners, sid, count - 1)
      case None => None
      case Some(ports) =>
        match AllocateOne(c, Claim(owners, ports, sid), sid, 0)
        case None => None
        case Some(p) => Some(ports + [p])
  }

  /** The owners with these ports given to the session. */
  function Claim(owners: map<int, string>, ports: seq<int>, sid: string): map<int, string> {
    owners + map p | p in ports :: sid
  }

  /** The ports that the first n steps of tryGetConsistentPorts get hold of. */
  function Consistent(c: Config, owners: map<int, string>, sid: string, n: nat): seq<int>
    requires c.low != c.high
  {
    if n == 0 then []
    else
      var ports := Consistent(c, owners, sid, n - 1);
      var port := ConsistentPort(c, sid, n - 1);
      if Available(c, Claim(owners, ports, sid), port) then ports + [port] else ports
  }

  function ConsistentPort(c: Config, sid: string, i: nat): int
    requires c.low != c.high
  {
    c.low + (HashSessionPort(sid, 0) + i * 2) % (c.high - c.low)
  }

  function Choose(c: Config, owners: map<int, string>, sid: string, count: nat): Option<seq<int>>
    requires c.consistent ==> c.low != c.high
  {
    if c.consistent && |Consistent(c, owners, sid, count)| == count then Some(Consistent(c, owners, sid, count))
    else AllocateMany(c, owners, sid, count)
  }

  function Record(c: Config, st: State, sid: string, ports: seq<int>, now: int, failover: bool): State {
    State(Claim(st.owners, ports, sid), st.sessions[sid := ports],
          st.allocations[sid := Allocation(ports, now + c.ttl, failover)])
  }

  function Allocate(c: Config, st: State, sid: string, count: nat, now: int): (State, Option<seq<int>>)
    requires c.consistent ==> c.low != c.high
  {
    if sid in st.sessions then (st, Some(st.sessions[sid]))
    else
      match Choose(c, st.owners, sid, count)
      case None => (st, None)
      case Some(ports) => (Record(c, st, sid, ports, now, false), Some(ports))
  }

  predicate AllAvailable(c: Config, owners: map<int, string>, ports: seq<int>) {
    forall p <- ports :: Available(c, owners, p)
  }

  /** Takes over a session with these recorded ports: the same ones if all are available, else new ones. */
  function Takeover(c: Config, st: State, sid: string, recorded: seq<int>, now: int): (State, Option<seq<int>>) {
    if AllAvailable(c, st.owners, recorded) then (Record(c, st, sid, recorded, now, true), Some(recorded))
    else
      match AllocateMany(c, st.owners, sid, |recorded|)
      case None => (st, None)
      case Some(ports) => (Record(c, st, sid, ports, now, true), Some(ports))
  }

  function Drop(owners: map<int, string>, ports: seq<int>): map<int, string> {
    map p | p in owners && p !in ports :: owners[p]
  }

  function Release(st: State, sid: string): State {
    if sid !in st.sessions then st
    else State(Drop(st.owners, st.sessions[sid]), st.sessions - {sid}, st.allocations - {sid})
  }

  /** The sessions whose allocation is over. */
  function Expired(st: State, now: int): set<string> {
    set s | s in st.allocations && now > st.allocations[s].expiresAt
  }

  /** The owners without the ports recorded for these sessions. */
  function Kept(st: State, gone: set<string>): map<int, string>
    requires gone <= st.allocations.Keys
  {
    map p | p in st.owners && (forall s <- gone :: p !in st.allocations[s].ports) :: st.owners[p]
  }

  function Cleanup(st: State, now: int): State {
    var gone := Expired(st, now);
    State(Kept(st, gone), st.sessions - gone, st.allocations - gone)
  }

  function Renew(c: Config, st: State, now: int): State {
    st.(allocations := map s | s in st.allocations :: st.allocations[s].(expiresAt := now + c.ttl))
  }

  // ---- The invariant

  function ListOf(st: State, sid: string): seq<int> {
    if sid in st.sessions then st.sessions[sid] else []
  }

  /** The two maps are each other's inverse: a port's owner is the session that lists it. */
  ghost predicate Inverse(st: State) {
    && (forall p <- st.owners :: p in ListOf(st, st.owners[p]))
    && (forall s <- st.sessions, p <- st.sessions[s] :: p in st.owners && st.owners[p] == s)
    && (forall s <- st.sessions :: NoRepeat(st.sessions[s]))
  }

  ghost predicate Inv(c: Config, st: State) {
    && Inverse(st)
    && (forall p <- st.owners :: c.low <= p <= c.high)
    && st.allocations.Keys == st.sessions.Keys
    && (forall s <- st.sessions :: st.allocations[s].ports == st.sessions[s])
  }
}

module ReallocationRuns {
  import opened Basics
  import opened ReallocationSpec

  // ---- The probe visits every port

  lemma {:induction false} ProbeFinds(c: Config, owners: map<int, string>, h: nat, i: nat)
    ensures Probe(c, owners, h, i).Some? ==>
              Available(c, owners, Probe(c, owners, h, i).value) && Probe(c, owners, h, i).value < c.high
    decreases c.high - c.low - i
  {
    if i < c.high - c.low {
      ProbeFinds(c, owners, h, i + 1);
    }
  }

  lemma {:induction false} ProbeReaches(c: Config, owners: map<int, string>, h: nat, i: nat, k: nat)
    requires i <= k < c.high - c.low && c.low + (h + k) % (c.high - c.low) !in owners
    ensures Probe(c, owners, h, i).Some?
    decreases k - i
  {
    if i < k {
      ProbeReaches(c, owners, h, i + 1, k);
    }
  }

  /** The ports of [low, high) that nobody owns. */
  ghost function FreePorts(c: Config, owners: map<int, string>): set<int> {
    set p | c.low <= p < c.high && p !in owners
  }

  /** Wherever the hash starts the probe, it fails only when every port in the range is taken. */
  lemma ProbeFailsIff(c: Config, owners: map<int, string>, h: nat)
    ensures Probe(c, owners, h, 0) == None <==> FreePorts(c, owners) == {}
  {
    if Probe(c, owners, h, 0).Some? {
      ProbeFinds(c, owners, h, 0);
      assert Probe(c, owners, h, 0).value in FreePorts(c, owners);
    } else {
      forall p | c.low <= p < c.high ensures p in owners {
        OffsetOf(h, c.high - c.low, p - c.low);
        if p !in owners {
          ProbeReaches(c, owners, h, 0, (p - c.low - h) % (c.high - c.low));
        }
      }
    }
  }

  lemma {:induction false} AllocateOneFailsIff(c: Config, owners: map<int, string>, sid: string, retry: nat)
    ensures match AllocateOne(c, owners, sid, retry)
            case None => retry >= c.maxRetries || FreePorts(c, owners) == {}
            case Some(p) => retry < c.maxRetries && p in FreePorts(c, owners)
    decreases c.maxRetries - retry
  {
    hide FreePorts;
    if retry < c.maxRetries {
      var h := HashSessionPort(sid, retry);
      ProbeFailsIff(c, owners, h);
      ProbeFinds(c, owners, h, 0);
      if Probe(c, owners, h, 0) == None {
        AllocateOneFailsIff(c, owners, sid, retry + 1);
      } else {
        FreeIfAvailable(c, owners, Probe(c, owners, h, 0).value);
      }
    }
  }

  lemma FreeIfAvailable(c: Config, owners: map<int, string>, p: int)
    requires Available(c, owners, p) && p < c.high
    ensures p in FreePorts(c, owners)
  {}

  // ---- Several ports

  /** Distinct free ports. */
  ghost predicate Fresh(c: Config, owners: map<int, string>, ports: seq<int>) {
    NoRepeat(ports) && forall p <- ports :: p in FreePorts(c, owners)
  }

  lemma FreeAfterOne(c: Config, owners: map<int, string>, ports: seq<int>, p: int, sid: string)
    requires Fresh(c, owners, ports) && p in FreePorts(c, Claim(owners, ports, sid))
    ensures Fresh(c, owners, ports + [p])
  {}

  lemma FreeButOne(c: Config, owners: map<int, string>, ports: seq<int>, p: int, sid: string)
    requires p in FreePorts(c, owners) && p !in ports
    ensures |FreePorts(c, Claim(owners, ports + [p], sid))| == |FreePorts(c, Claim(owners, ports, sid))| - 1
  {
    var a, b := FreePorts(c, Claim(owners, ports, sid)), FreePorts(c, Claim(owners, ports + [p], sid));
    assert p in a;
    assert b == a - {p};
  }

  lemma {:induction false} FreeAfterClaim(c: Config, owners: map<int, string>, ports: seq<int>, sid: string)
    requires Fresh(c, owners, ports)
    ensures |FreePorts(c, Claim(owners, ports, sid))| == |FreePorts(c, owners)| - |ports|
  {
    if ports == [] {
      assert Claim(owners, [], sid) == owners;
    } else {
      var n := |ports| - 1;
      var less := ports[..n];
      assert ports == less + [ports[n]];
      FreeAfterClaim(c, owners, less, sid);
      assert ports[n] in FreePorts(c, owners) && ports[n] !in less;
      hide Fresh;
      FreeButOne(c, owners, less, ports[n], sid);
    }
  }

  /** Allocating count ports succeeds exactly when that many are free, and then gives distinct free ports. */
  lemma {:induction false} AllocateManyIff(c: Config, owners: map<int, string>, sid: string, count: nat)
    ensures AllocateMany(c, owners, sid, count).Some? <==>
              count == 0 || (c.maxRetries >= 1 && |FreePorts(c, owners)| >= count)
    ensures AllocateMany(c, owners, sid, count).Some? ==>
              |AllocateMany(c, owners, sid, count).value| == count &&
                Fresh(c, owners, AllocateMany(c, owners, sid, count).value)
  {
    hide AllocateOne, FreePorts, Claim, Fresh;
    if count == 0 {
      NothingIsFresh(c, owners);
    } else {
      AllocateManyIff(c, owners, sid, count - 1);
      match AllocateMany(c, owners, sid, count - 1)
      case None =>
      case Some(ports) =>
        AllocateOneFailsIff(c, Claim(owners, ports, sid), sid, 0);
        FreeAfterClaim(c, owners, ports, sid);
        match AllocateOne(c, Claim(owners, ports, sid), sid, 0)
        case None =>
        case Some(p) => FreeAfterOne(c, owners, ports, p, sid);
    }
  }

  lemma NothingIsFresh(c: Config, owners: map<int, string>)
    ensures Fresh(c, owners, [])
  {}

  lemma BelowHigh(c: Config, sid: string, i: nat)
    requires c.low != c.high && ConsistentPort(c, sid, i) <= c.high
    ensures ConsistentPort(c, sid, i) < c.high
  {
    hide HashSessionPort;
  }

  /** The deterministic ports, too, are distinct and free, however the hash wraps. */
  lemma {:induction false} ConsistentIsFresh(c: Config, owners: map<int, string>, sid: string, n: nat)
    requires c.low != c.high
    ensures |Consistent(c, owners, sid, n)| <= n && Fresh(c, owners, Consistent(c, owners, sid, n))
  {
    hide FreePorts, Claim, Fresh, ConsistentPort;
    if n == 0 {
      NothingIsFresh(c, owners);
    } else {
      ConsistentIsFresh(c, owners, sid, n - 1);
      var ports := Consistent(c, owners, sid, n - 1);
      var port := ConsistentPort(c, sid, n - 1);
      if Available(c, Claim(owners, ports, sid), port) {
        BelowHigh(c, sid, n - 1);
        FreeIfAvailable(c, Claim(owners, ports, sid), port);
        FreeAfterOne(c, owners, ports, port, sid);
      }
    }
  }

  /** A new session gets count distinct free ports of the range, or an error exactly when fewer are free. */
  lemma ChooseIff(c: Config, owners: map<int, string>, sid: string, count: nat)
    requires c.consistent ==> c.low != c.high
    ensures c.maxRetries >= 1 ==> (Choose(c, owners, sid, count).Some? <==> |FreePorts(c, owners)| >= count)
    ensures Choose(c, owners, sid, count).Some? ==>
              |Choose(c, owners, sid, count).value| == count && Fresh(c, owners, Choose(c, owners, sid, count).value)
  {
    hide AllocateMany, FreePorts, Claim, Fresh, Consistent;
    AllocateManyIff(c, owners, sid, count);
    if c.consistent {
      ConsistentIsFresh(c, owners, sid, count);
      FreeAfterClaim(c, owners, Consistent(c, owners, sid, count), sid);
    }
  }

  // ---- The invariant

  lemma ClaimAt(owners: map<int, string>, ports: seq<int>, sid: string, p: int)
    ensures p in Claim(owners, ports, sid) <==> p in owners || p in ports
    ensures p in ports ==> Claim(owners, ports, sid)[p] == sid
    ensures p in owners && p !in ports ==> Claim(owners, ports, sid)[p] == owners[p]
  {}

  lemma RecordInverse(c: Config, st: State, sid: string, ports: seq<int>, now: int, failover: bool)
    requires Inverse(st) && AllAvailable(c, st.owners, ports) && NoRepeat(ports) && ListOf(st, sid) == []
    ensures Inverse(Record(c, st, sid, ports, now, failover))
  {
    hide NoRepeat, Claim;
    var st' := Record(c, st, sid, ports, now, failover);
    forall p | p in st'.owners ensures p in ListOf(st', st'.owners[p]) {
      ClaimAt(st.owners, ports, sid, p);
    }
    forall s, p | s in st'.sessions && p in st'.sessions[s] ensures p in st'.owners && st'.owners[p] == s {
      ClaimAt(st.owners, ports, sid, p);
    }
  }

  lemma RecordKeeps(c: Config, st: State, sid: string, ports: seq<int>, now: int, failover: bool)
    requires Inv(c, st) && AllAvailable(c, st.owners, ports) && NoRepeat(ports) && ListOf(st, sid) == []
    ensures Inv(c, Record(c, st, sid, ports, now, failover))
  {
    hide Inverse;
    RecordInverse(c, st, sid, ports, now, failover);
  }

  lemma RecordBreaks(c: Config, st: State, sid: string, ports: seq<int>, now: int, failover: bool)
    requires Inv(c, st) && AllAvailable(c, st.owners, ports) && ListOf(st, sid) != []
    ensures !Inv(c, Record(c, st, sid, ports, now, failover))
  {
    hide NoRepeat;
    var st' := Record(c, st, sid, ports, now, failover);
    var p := ListOf(st, sid)[0];
    assert p in st.sessions[sid] && p in st.owners && p !in ports && p in st'.owners && st'.owners[p] == sid;
    assert ListOf(st', sid) == ports;
  }

  /** Handing available ports to a session keeps the invariant, if and only if they are distinct and the
      session listed none. */
  lemma RecordKeepsIff(c: Config, st: State, sid: string, ports: seq<int>, now: int, failover: bool)
    requires Inv(c, st) && AllAvailable(c, st.owners, ports)
    ensures Inv(c, Record(c, st, sid, ports, now, failover)) <==> NoRepeat(ports) && ListOf(st, sid) == []
  {
    if ListOf(st, sid) != [] {
      RecordBreaks(c, st, sid, ports, now, failover);
    } else if NoRepeat(ports) {
      RecordKeeps(c, st, sid, ports, now, failover);
    } else {
      assert Record(c, st, sid, ports, now, failover).sessions[sid] == ports;
    }
  }

  lemma FreshIsAvailable(c: Config, owners: map<int, string>, ports: seq<int>)
    requires Fresh(c, owners, ports)
    ensures NoRepeat(ports) && AllAvailable(c, owners, ports)
  {}

  lemma AllocateKeeps(c: Config, st: State, sid: string, count: nat, now: int)
    requires Inv(c, st) && (c.consistent ==> c.low != c.high)
    ensures Inv(c, Allocate(c, st, sid, count, now).0)
    ensures sid !in st.sessions && Allocate(c, st, sid, count, now).1.Some? ==>
              var ports := Allocate(c, st, sid, count, now).1.value; |ports| == count && Fresh(c, st.owners, ports)
    ensures sid !in st.sessions && c.maxRetries >= 1 ==>
              (Allocate(c, st, sid, count, now).1 == None <==> |FreePorts(c, st.owners)| < count)
    ensures Allocate(c, st, sid, count, now).1 == None ==> Allocate(c, st, sid, count, now).0 == st
  {
    hide Inv, Choose, Fresh, FreePorts, Record;
    ChooseIff(c, st.owners, sid, count);
    if sid !in st.sessions && Choose(c, st.owners, sid, count).Some? {
      FreshIsAvailable(c, st.owners, Choose(c, st.owners, sid, count).value);
      RecordKeepsIff(c, st, sid, Choose(c, st.owners, sid, count).value, now, false);
    }
  }

  /** What a caller can check before taking a session over: it lists no ports here yet, and the recorded
      ports are distinct in case they will be reused. */
  ghost predicate TakeoverSafe(c: Config, st: State, sid: string, recorded: seq<int>) {
    ListOf(st, sid) == [] && (AllAvailable(c, st.owners, recorded) ==> NoRepeat(recorded))
  }

  /** Takeover keeps the invariant exactly when it is safe or fails. */
  lemma TakeoverKeepsIff(c: Config, st: State, sid: string, recorded: seq<int>, now: int)
    requires Inv(c, st)
    ensures Inv(c, Takeover(c, st, sid, recorded, now).0) <==>
              Takeover(c, st, sid, recorded, now).1 == None || TakeoverSafe(c, st, sid, recorded)
    ensures Takeover(c, st, sid, recorded, now).1 == None <==>
              !AllAvailable(c, st.owners, recorded) && (c.maxRetries < 1 || |FreePorts(c, st.owners)| < |recorded|)
    ensures Takeover(c, st, sid, recorded, now).1 == None ==> Takeover(c, st, sid, recorded, now).0 == st
    ensures Takeover(c, st, sid, recorded, now).1.Some? ==> |Takeover(c, st, sid, recorded, now).1.value| == |recorded|
  {
    hide Inv, AllocateMany, Fresh, FreePorts, Record, AllAvailable;
    NothingIsAvailable(c, st.owners);
    AllocateManyIff(c, st.owners, sid, |recorded|);
    if AllAvailable(c, st.owners, recorded) {
      RecordKeepsIff(c, st, sid, recorded, now, true);
    } else if AllocateMany(c, st.owners, sid, |recorded|).Some? {
      var ports := AllocateMany(c, st.owners, sid, |recorded|).value;
      FreshIsAvailable(c, st.owners, ports);
      RecordKeepsIff(c, st, sid, ports, now, true);
    }
  }

  lemma NothingIsAvailable(c: Config, owners: map<int, string>)
    ensures AllAvailable(c, owners, [])
  {}

  lemma ReleaseKeeps(c: Config, st: State, sid: string)
    requires Inv(c, st)
    ensures Inv(c, Release(st, sid)) && ListOf(Release(st, sid), sid) == [] && sid !in Release(st, sid).sessions
    ensures forall p <- Release(st, sid).owners :: p in st.owners && st.owners[p] == Release(st, sid).owners[p] != sid
    ensures forall p <- st.owners :: st.owners[p] != sid ==> p in Release(st, sid).owners
  {
    hide NoRepeat;
    var st' := Release(st, sid);
    forall p | p in st.owners ensures p in st'.owners <==> st.owners[p] != sid {
      assert p in ListOf(st, st.owners[p]);
    }
    assert forall s <- st'.sessions :: s != sid && s in st.sessions && st'.sessions[s] == st.sessions[s];
  }

  lemma CleanupKeeps(c: Config, st: State, now: int)
    requires Inv(c, st)
    ensures Inv(c, Cleanup(st, now))
    ensures forall p :: p in Cleanup(st, now).owners <==> p in st.owners && st.owners[p] !in Expired(st, now)
  {
    hide NoRepeat;
    var gone := Expired(st, now);
    forall p | p in st.owners ensures p in Cleanup(st, now).owners <==> st.owners[p] !in gone {
      assert p in ListOf(st, st.owners[p]);
    }
  }

  lemma RenewKeeps(c: Config, st: State, now: int)
    requires Inv(c, st)
    ensures Inv(c, Renew(c, st, now))
  {
    hide NoRepeat;
  }

  /** Allocating and releasing again leaves the manager as it was. */
  lemma ReleaseUndoesAllocate(c: Config, st: State, sid: string, count: nat, now: int)
    requires Inv(c, st) && sid !in st.sessions && (c.consistent ==> c.low != c.high)
    ensures Release(Allocate(c, st, sid, count, now).0, sid) == st
  {
    hide Choose, NoRepeat, FreePorts;
    ChooseIff(c, st.owners, sid, count);
    if Choose(c, st.owners, sid, count).Some? {
      var ports := Choose(c, st.owners, sid, count).value;
      FreshIsAvailable(c, st.owners, ports);
      assert Drop(Claim(st.owners, ports, sid), ports) == st.owners;
    }
  }

  // ---- Every run

  datatype Event =
    | AllocateEvent(sid: string, count: nat, now: int)
    | ReleaseEvent(sid: string)
    | TakeoverEvent(sid: string, recorded: seq<int>, now: int)
    | CleanupEvent(now: int)
    | RenewEvent(now: int)

  function Apply(c: Config, st: State, e: Event): State
    requires c.consistent ==> c.low != c.high
  {
    match e
    case AllocateEvent(sid, count, now) => Allocate(c, st, sid, count, now).0
    case ReleaseEvent(sid) => Release(st, sid)
    case TakeoverEvent(sid, recorded, now) => Takeover(c, st, sid, recorded, now).0
    case CleanupEvent(now) => Cleanup(st, now)
    case RenewEvent(now) => Renew(c, st, now)
  }

  function Run(c: Config, es: seq<Event>): State
    requires c.consistent ==> c.low != c.high
  {
    if es == [] then New() else Apply(c, Run(c, es[..|es| - 1]), es[|es| - 1])
  }

  ghost predicate Safe(c: Config, st: State, e: Event) {
    e.TakeoverEvent? ==>
      Takeover(c, st, e.sid, e.recorded, e.now).1 == None || TakeoverSafe(c, st, e.sid, e.recorded)
  }

  /** Over every run whose takeovers fail or are safe, the two maps stay inverse. */
  lemma {:induction false} RunKeepsInv(c: Config, es: seq<Event>)
    requires c.consistent ==> c.low != c.high
    requires forall i :: 0 <= i < |es| ==> Safe(c, Run(c, es[..i]), es[i])
    ensures Inv(c, Run(c, es))
  {
    if es == [] {
    } else {
      var k := |es| - 1;
      forall i | 0 <= i < k ensures Safe(c, Run(c, es[..k][..i]), es[..k][i]) {
        assert es[..k][..i] == es[..i];
      }
      hide Inv, Safe;
      RunKeepsInv(c, es[..k]);
      SafeStepKeeps(c, Run(c, es[..k]), es[k]);
    }
  }

  lemma SafeStepKeeps(c: Config, st: State, e: Event)
    requires c.consistent ==> c.low != c.high
    requires Inv(c, st) && Safe(c, st, e)
    ensures Inv(c, Apply(c, st, e))
  {
    hide Inv, Allocate, Release, Takeover, Cleanup, Renew;
    match e
    case AllocateEvent(sid, count, now) => AllocateKeeps(c, st, sid, count, now);
    case ReleaseEvent(sid) => ReleaseKeeps(c, st, sid);
    case TakeoverEvent(sid, recorded, now) => TakeoverKeepsIff(c, st, sid, recorded, now);
    case CleanupEvent(now) => CleanupKeeps(c, st, now);
    case RenewEvent(now) => RenewKeeps(c, st, now);
  }

  /** Taking over a session that already has ports here loses track of the old ones. */
  lemma TakeoverOfLocalSessionBreaks()
    ensures var c := Config(10, 20, 5, 1, false);
            var st := Record(c, New(), "s", [10], 0, false);
            Inv(c, st) && !Inv(c, Takeover(c, st, "s", [11], 0).0)
  {
    var c := Config(10, 20, 5, 1, false);
    var st := Record(c, New(), "s", [10], 0, false);
    RecordKeepsIff(c, New(), "s", [10], 0, false);
    assert ListOf(st, "s") == [10];
    assert AllAvailable(c, st.owners, [11]);
    TakeoverKeepsIff(c, st, "s", [11], 0);
  }
}

/** The manager object, proved against the specification. */
module ReallocationManagers {
  import opened Basics
  import opened ReallocationSpec
  import opened ReallocationRuns

  const WORD: int := 0x1_0000_0000_0000_0000

  /** The source's loop runs in 64-bit integers; only the low 31 bits matter at the end. */
  method HashOf(sid: string, salt: nat) returns (h: nat)
    ensures h == HashSessionPort(sid, salt)
  {
    h := 0;
    var i := 0;
    while i < |sid|
      invariant 0 <= i <= |sid| && 0 <= h < WORD
      invariant h % MASK31 == CharSum(sid[..i]) % MASK31
    {
      assert sid[..i + 1][..i] == sid[..i];
      HashStep(h, CharSum(sid[..i]), sid[i] as int);
      h := (h * 31 + sid[i] as int) % WORD;
      i := i + 1;
    }
    assert sid[..i] == sid;
    LowBits(h + salt * 17);
    SameLowBits(h, CharSum(sid), 1, salt * 17);
    h := (h + salt * 17) % WORD % MASK31;
  }

  lemma LowBits(x: nat)
    ensures x % WORD % MASK31 == x % MASK31
  {
    assert x == x / WORD * WORD + x % WORD;
  }

  lemma SameLowBits(a: nat, b: nat, k: nat, c: nat)
    requires a % MASK31 == b % MASK31 && (k == 1 || k == 31)
    ensures (a * k + c) % MASK31 == (b * k + c) % MASK31
  {}

  lemma HashStep(h: nat, sum: nat, ch: nat)
    requires h % MASK31 == sum % MASK31
    ensures (h * 31 + ch) % WORD % MASK31 == (sum * 31 + ch) % MASK31
  {
    LowBits(h * 31 + ch);
    SameLowBits(h, sum, 31, ch);
  }

  class PortReallocationManager {
    const config: Config
    var owners: map<int, string>
    var sessions: map<string, seq<int>>
    var allocations: map<string, Allocation>

    constructor (config: Config)
      ensures this.config == config && View() == New()
    {
      this.config := config;
      owners, sessions, allocations := map[], map[], map[];
    }

    ghost function View(): State
      reads this
    {
      State(owners, sessions, allocations)
    }

    method IsPortAvailable(port: int) returns (ok: bool)
      ensures ok <==> Available(config, owners, port)
    {
      if port < config.low || port > config.high {
        return false;
      }
      return port !in owners;
    }

    method AllocatePort(sid: string) returns (r: Option<int>)
      modifies this`owners
      ensures r == AllocateOne(config, old(owners), sid, 0)
      ensures owners == match r case Some(p) => old(owners)[p := sid] case None => old(owners)
    {
      hide HashSessionPort;
      var retry := 0;
      while retry < config.maxRetries
        invariant 0 <= retry && owners == old(owners)
        invariant AllocateOne(config, owners, sid, 0) == AllocateOne(config, owners, sid, retry)
      {
        var range := config.high - config.low;
        var h := HashOf(sid, retry);
        var i := 0;
        while i < range
          invariant 0 <= i && owners == old(owners)
          invariant Probe(config, owners, h, 0) == Probe(config, owners, h, i)
        {
          var port := config.low + (h + i) % range;
          var ok := IsPortAvailable(port);
          if ok {
            owners := owners[port := sid];
            return Some(port);
          }
          i := i + 1;
        }
        retry := retry + 1;
      }
      return None;
    }

    /** Removes the ports again. */
    method Rollback(ports: seq<int>)
      modifies this`owners
      ensures owners == Drop(old(owners), ports)
    {
      var i := 0;
      while i < |ports|
        invariant 0 <= i <= |ports|
        invariant owners == Drop(old(owners), ports[..i])
      {
        owners := owners - {ports[i]};
        i := i + 1;
      }
      assert ports[..i] == ports;
    }

    method TryGetConsistentPorts(sid: string, count: nat) returns (r: Option<seq<int>>)
      requires config.low != config.high
      modifies this`owners
      ensures var ports := Consistent(config, old(owners), sid, count);
              r == if |ports| == count then Some(ports) else None
      ensures owners == match r case Some(ports) => Claim(old(owners), ports, sid) case None => old(owners)
    {
      hide HashSessionPort, Claim, Drop, Available;
      var ports := [];
      var h := HashOf(sid, 0);
      var range := config.high - config.low;
      var i := 0;
      ClaimNothing(owners, sid);
      while i < count
        invariant 0 <= i <= count
        invariant ports == Consistent(config, old(owners), sid, i)
        invariant owners == Claim(old(owners), ports, sid)
      {
        var port := config.low + (h + i * 2) % range;
        var ok := IsPortAvailable(port);
        if ok {
          ClaimMore(old(owners), ports, port, sid);
          ports := ports + [port];
          owners := owners[port := sid];
        }
        i := i + 1;
      }
      if |ports| == count {
        return Some(ports);
      }
      ConsistentIsFresh(config, old(owners), sid, count);
      DropClaimed(config, old(owners), ports, sid);
      Rollback(ports);
      return None;
    }

    /** The loop that takes one port after the other, giving all back when one is missing. */
    method AllocateCount(sid: string, count: nat) returns (r: Option<seq<int>>)
      modifies this`owners
      ensures r == AllocateMany(config, old(owners), sid, count)
      ensures owners == match r case Some(ports) => Claim(old(owners), ports, sid) case None => old(owners)
    {
      hide Claim, Drop, AllocateOne;
      var ports := [];
      var i := 0;
      ClaimNothing(owners, sid);
      while i < count
        invariant 0 <= i <= count
        invariant AllocateMany(config, old(owners), sid, i) == Some(ports)
        invariant owners == Claim(old(owners), ports, sid)
      {
        var port := AllocatePort(sid);
        if port == None {
          MissingStaysMissing(config, old(owners), sid, i + 1, count);
          AllocateManyIff(config, old(owners), sid, i);
          DropClaimed(config, old(owners), ports, sid);
          Rollback(ports);
          return None;
        }
        ClaimMore(old(owners), ports, port.value, sid);
        ports := ports + [port.value];
        i := i + 1;
      }
      return Some(ports);
    }

    method AllocatePorts(sid: string, count: nat, now: int) returns (r: Option<seq<int>>)
      requires config.consistent ==> config.low != config.high
      modifies this
      ensures (View(), r) == Allocate(config, old(View()), sid, count, now)
    {
      hide Claim, Consistent, AllocateMany;
      if sid in sessions {
        return Some(sessions[sid]);
      }
      if config.consistent {
        r := TryGetConsistentPorts(sid, count);
        if r.Some? {
          RecordAllocation(sid, r.value, now, false);
          return;
        }
      }
      r := AllocateCount(sid, count);
      if r.Some? {
        RecordAllocation(sid, r.value, now, false);
      }
    }

    method RecordAllocation(sid: string, ports: seq<int>, now: int, failover: bool)
      modifies this`sessions, this`allocations
      ensures sessions == old(sessions)[sid := ports]
      ensures allocations == old(allocations)[sid := Allocation(ports, now + config.ttl, failover)]
    {
      sessions := sessions[sid := ports];
      allocations := allocations[sid := Allocation(ports, now + config.ttl, failover)];
    }

    method ReleasePorts(sid: string)
      modifies this
      ensures View() == Release(old(View()), sid)
    {
      if sid !in sessions {
        return;
      }
      Rollback(sessions[sid]);
      sessions := sessions - {sid};
      allocations := allocations - {sid};
    }

    /** `remote` is the allocation found in the store, None when there is none or it cannot be read. */
    method TakeoverPorts(sid: string, remote: Option<seq<int>>, now: int) returns (r: Option<seq<int>>)
      modifies this
      ensures remote == None ==> r == None && View() == old(View())
      ensures remote.Some? ==> (View(), r) == Takeover(config, old(View()), sid, remote.value, now)
    {
      hide Claim, AllocateMany, Available, AllAvailable;
      if remote == None {
        return None;
      }
      var recorded := remote.value;
      var available: seq<int> := [];
      var i := 0;
      NothingIsAvailable(config, owners);
      while i < |recorded|
        invariant 0 <= i <= |recorded| && |available| <= i && View() == old(View())
        invariant |available| == i <==> AllAvailable(config, owners, recorded[..i])
        invariant |available| == i ==> available == recorded[..i]
      {
        assert recorded[..i + 1] == recorded[..i] + [recorded[i]];
        AllAvailableSnoc(config, owners, recorded[..i], recorded[i]);
        var ok := IsPortAvailable(recorded[i]);
        if ok {
          available := available + [recorded[i]];
        }
        i := i + 1;
      }
      assert recorded[..i] == recorded;
      var final := available;
      if |available| != |recorded| {
        r := AllocateCount(sid, |recorded|);
        if r == None {
          return;
        }
        final := r.value;
      }
      ghost var start := owners;
      i := 0;
      assert final[..0] == [];
      ClaimNothing(owners, sid);
      while i < |final|
        invariant 0 <= i <= |final|
        invariant owners == Claim(start, final[..i], sid) && sessions == old(sessions)
        invariant allocations == old(allocations)
      {
        assert final[..i + 1] == final[..i] + [final[i]];
        ClaimMore(start, final[..i], final[i], sid);
        owners := owners[final[i] := sid];
        i := i + 1;
      }
      assert final[..i] == final;
      ClaimTwice(old(owners), final, sid);
      RecordAllocation(sid, final, now, true);
      return Some(final);
    }

    method CleanupExpired(now: int)
      modifies this
      ensures View() == Cleanup(old(View()), now)
    {
      hide Kept, Drop;
      var todo := allocations.Keys;
      ghost var gone: set<string> := {};
      KeepAll(View());
      while todo != {}
        invariant todo <= old(allocations).Keys && gone <= old(allocations).Keys - todo
        invariant gone == Expired(old(View()), now) - todo
        invariant sessions == old(sessions) - gone && allocations == old(allocations) - gone
        invariant owners == Kept(old(View()), gone)
        decreases todo
      {
        var sid :| sid in todo;
        todo := todo - {sid};
        if now > allocations[sid].expiresAt {
          KeepFewer(old(View()), gone, sid);
          Rollback(allocations[sid].ports);
          sessions := sessions - {sid};
          allocations := allocations - {sid};
          gone := gone + {sid};
        }
      }
      assert gone == Expired(old(View()), now);
    }

    method RenewAllocations(now: int)
      modifies this`allocations
      ensures View() == Renew(config, old(View()), now)
    {
      var todo := allocations.Keys;
      while todo != {}
        invariant todo <= allocations.Keys == old(allocations).Keys
        invariant forall s <- allocations :: allocations[s] ==
                    if s in todo then old(allocations)[s] else old(allocations)[s].(expiresAt := now + config.ttl)
        decreases todo
      {
        var sid :| sid in todo;
        todo := todo - {sid};
        allocations := allocations[sid := allocations[sid].(expiresAt := now + config.ttl)];
      }
    }
  }

  lemma KeepAll(st: State)
    ensures Kept(st, {}) == st.owners
  {}

  lemma KeepFewer(st: State, gone: set<string>, sid: string)
    requires gone <= st.allocations.Keys && sid in st.allocations
    ensures Drop(Kept(st, gone), st.allocations[sid].ports) == Kept(st, gone + {sid})
  {}

  lemma ClaimNothing(owners: map<int, string>, sid: string)
    ensures Claim(owners, [], sid) == owners
  {}

  lemma ClaimMore(owners: map<int, string>, ports: seq<int>, port: int, sid: string)
    ensures Claim(owners, ports + [port], sid) == Claim(owners, ports, sid)[port := sid]
  {}

  lemma ClaimTwice(owners: map<int, string>, ports: seq<int>, sid: string)
    ensures Claim(Claim(owners, ports, sid), ports, sid) == Claim(owners, ports, sid)
  {}

  lemma DropClaimed(c: Config, owners: map<int, string>, ports: seq<int>, sid: string)
    requires Fresh(c, owners, ports)
    ensures Drop(Claim(owners, ports, sid), ports) == owners
  {
    assert forall p <- ports :: p in FreePorts(c, owners);
  }

  lemma {:induction false} MissingStaysMissing(c: Config, owners: map<int, string>, sid: string, n: nat, count: nat)
    requires n <= count && AllocateMany(c, owners, sid, n) == None
    ensures AllocateMany(c, owners, sid, count) == None
  {
    if n < count {
      MissingStaysMissing(c, owners, sid, n, count - 1);
    }
  }

  lemma AllAvailableSnoc(c: Config, owners: map<int, string>, ports: seq<int>, p: int)
    ensures AllAvailable(c, owners, ports + [p]) <==> AllAvailable(c, owners, ports) && Available(c, owners, p)
  {
    hide Available;
    assert forall q :: q in ports + [p] <==> q in ports || q == p;
  }
}
