/** What the port allocator's operations do to its state. The sixteen shard maps are one map here;
    each operation is one step. */
module PortSpec {
  import opened Basics

  datatype Config = Config(minPort: int, maxPort: int, reserveCount: int, reuseDelay: int, maxAllocations: int,
                           evenOnly: bool)

  /** `owner` maps a port to its session, "" for a port only reserved; `pool` holds the first port of
      each reserved pair; `released` maps a port in its reuse delay to the time of its release. */
  datatype State = State(
    owner: map<int, string>, pool: seq<int>, sessions: map<string, seq<int>>, released: map<int, int>,
    nextPort: int, totalAllocated: int, totalReleased: int, totalFailed: int, currentInUse: int)

  /** Which ports the operating system would let us bind while an operation runs. */
  type Network = int -> bool

  function ScanStart(c: Config): int {
    if c.evenOnly && c.minPort % 2 != 0 then c.minPort + 1 else c.minPort
  }

  function New(c: Config): State {
    State(map[], [], map[], map[], ScanStart(c), 0, 0, 0, 0)
  }

  predicate Free(st: State, bindable: Network, port: int) {
    port !in st.released && port !in st.owner && bindable(port)
  }

  predicate PairFree(st: State, bindable: Network, rtp: int) {
    Free(st, bindable, rtp) && Free(st, bindable, rtp + 1)
  }

  /** The first free pair at port, port + 2, ... below limit. */
  function ScanPairs(st: State, bindable: Network, port: int, limit: int): Option<int>
    decreases limit - port
  {
    if port >= limit then None
    else if PairFree(st, bindable, port) then Some(port)
    else ScanPairs(st, bindable, port + 2, limit)
  }

  function FindPair(c: Config, st: State, bindable: Network): Option<int> {
    var end := c.maxPort - 1;
    match ScanPairs(st, bindable, st.nextPort, end)
    case Some(p) => Some(p)
    case None => ScanPairs(st, bindable, ScanStart(c), if st.nextPort < end then st.nextPort else end)
  }

  function Reserve(st: State, rtp: int): State {
    st.(owner := st.owner[rtp := ""][rtp + 1 := ""], nextPort := rtp + 2)
  }

  function ListOf(sessions: map<string, seq<int>>, sid: string): seq<int> {
    if sid in sessions then sessions[sid] else []
  }

  function SessionPorts(st: State, sid: string): seq<int> {
    ListOf(st.sessions, sid)
  }

  function Record(st: State, port: int, sid: string): State {
    st.(owner := st.owner[port := sid], sessions := st.sessions[sid := SessionPorts(st, sid) + [port]],
        totalAllocated := st.totalAllocated + 1, currentInUse := st.currentInUse + 1)
  }

  function RecordPair(st: State, rtp: int, sid: string): State {
    Record(Record(st, rtp, sid), rtp + 1, sid)
  }

  /** Up to `want` more pairs into the pool, while it has room and pairs can be found. */
  function Refill(c: Config, st: State, bindable: Network, want: nat): State
    decreases want
  {
    if want == 0 then st
    else
      match FindPair(c, st, bindable)
      case None => st
      case Some(p) =>
        if |st.pool| < c.reserveCount then
          Refill(c, Reserve(st, p).(pool := st.pool + [p]), bindable, want - 1)
        else
          Reserve(st, p).(owner := st.owner[p := ""][p + 1 := ""] - {p, p + 1})
  }

  function RefillPool(c: Config, st: State, bindable: Network): State {
    if c.reserveCount > |st.pool| then Refill(c, st, bindable, c.reserveCount - |st.pool|) else st
  }

  /** The pair handed out, or None. */
  function AllocatePair(c: Config, st: State, sid: string, bindable: Network): (State, Option<int>) {
    if |SessionPorts(st, sid)| + 2 > c.maxAllocations then (st.(totalFailed := st.totalFailed + 1), None)
    else if st.pool != [] then
      (RecordPair(st.(pool := st.pool[1..]), st.pool[0], sid), Some(st.pool[0]))
    else
      match FindPair(c, st, bindable)
      case None => (st.(totalFailed := st.totalFailed + 2), None)
      case Some(p) => (RecordPair(Reserve(st, p), p, sid), Some(p))
  }

  function ScanPorts(st: State, bindable: Network, port: int, limit: int, step: int): Option<int>
    requires step >= 1
    decreases limit - port
  {
    if port > limit then None
    else if Free(st, bindable, port) then Some(port)
    else ScanPorts(st, bindable, port + step, limit, step)
  }

  function Stride(c: Config): int {
    if c.evenOnly then 2 else 1
  }

  /** A single bound port; the scan starts at the hint and does not wrap around. */
  function AllocateBound(c: Config, st: State, sid: string, bindable: Network): (State, Option<int>) {
    if |SessionPorts(st, sid)| >= c.maxAllocations then (st.(totalFailed := st.totalFailed + 1), None)
    else
      match ScanPorts(st, bindable, st.nextPort, c.maxPort, Stride(c))
      case None => (st.(totalFailed := st.totalFailed + 1), None)
      case Some(p) => (Record(st, p, sid).(nextPort := p + Stride(c)), Some(p))
  }

  function Without(ports: seq<int>, port: int): seq<int> {
    if ports == [] then []
    else if ports[0] == port then ports[1..]
    else [ports[0]] + Without(ports[1..], port)
  }

  function Untrack(sessions: map<string, seq<int>>, sid: string, port: int): map<string, seq<int>> {
    var left := Without(ListOf(sessions, sid), port);
    if left == [] then sessions - {sid} else sessions[sid := left]
  }

  /** Releases a port; false is ErrPortOutOfRange. A port with no session leaves the session lists alone. */
  function Release(st: State, port: int, now: int): (State, bool) {
    if port !in st.owner then (st, false)
    else
      var sid := st.owner[port];
      (st.(owner := st.owner - {port}, released := st.released[port := now],
           sessions := if sid != "" then Untrack(st.sessions, sid, port) else st.sessions,
           totalReleased := st.totalReleased + 1, currentInUse := st.currentInUse - 1), true)
  }

  function ReleaseAll(st: State, ports: seq<int>, now: int): State
    decreases |ports|
  {
    if ports == [] then st else ReleaseAll(Release(st, ports[0], now).0, ports[1..], now)
  }

  function ReleaseSession(st: State, sid: string, now: int): State {
    ReleaseAll(st, SessionPorts(st, sid), now)
  }

  /** One tick of the cleaner: forget the ports whose reuse delay is over. */
  function CleanReleased(c: Config, st: State, now: int): State {
    st.(released := map p | p in st.released && now - st.released[p] < c.reuseDelay :: st.released[p])
  }

  // ---- The invariant

  /** The port is one of a pooled pair. */
  predicate Pooled(pool: seq<int>, port: int) {
    port in pool || port - 1 in pool
  }

  /** Pooled pairs do not overlap. */
  ghost predicate PoolDistinct(pool: seq<int>) {
    forall i, j :: 0 <= i < j < |pool| ==> pool[i] != pool[j] && pool[i] != pool[j] + 1 && pool[j] != pool[i] + 1
  }

  /** The ports handed out to sessions. */
  ghost function Owned(st: State): set<int> {
    set p | p in st.owner && !Pooled(st.pool, p)
  }

  /** Every allocated port is either pooled or in the list of the one session it names. */
  ghost predicate Exclusive(st: State) {
    && PoolDistinct(st.pool)
    && (forall p | Pooled(st.pool, p) :: p in st.owner && st.owner[p] == "")
    && (forall p <- st.owner :: !Pooled(st.pool, p) ==>
          st.owner[p] in st.sessions && p in st.sessions[st.owner[p]])
    && (forall sid <- st.sessions, p <- st.sessions[sid] ::
          p in st.owner && st.owner[p] == sid && !Pooled(st.pool, p))
    && (forall sid <- st.sessions :: NoRepeat(st.sessions[sid]))
  }

  ghost predicate Counted(st: State) {
    st.currentInUse == st.totalAllocated - st.totalReleased == |Owned(st)|
  }

  ghost predicate Limited(c: Config, st: State) {
    forall sid <- st.sessions :: 0 < |st.sessions[sid]| <= c.maxAllocations
  }

  ghost predicate Aligned(c: Config, st: State) {
    && ScanStart(c) <= st.nextPort
    && (c.evenOnly ==> st.nextPort % 2 == 0 && forall p <- st.pool :: p % 2 == 0)
    && (forall p <- st.owner :: ScanStart(c) <= p <= c.maxPort)
    && (forall p <- st.pool :: p < c.maxPort - 1)
  }

  ghost predicate Inv(c: Config, st: State) {
    && Exclusive(st) && Counted(st) && Limited(c, st) && Aligned(c, st)
    && st.owner.Keys !! st.released.Keys
  }

  lemma NewIsValid(c: Config)
    ensures Inv(c, New(c))
  {}
}
