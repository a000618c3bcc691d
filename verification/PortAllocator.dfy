/** The port allocator object. Each method is one step; `bindable` says which ports the operating system
    lets it bind during the call. */
module PortAllocators {
  import opened Basics
  import opened PortSpec

  class PortAllocator {
    const config: Config
    var owner: map<int, string>
    var pool: seq<int>
    var sessions: map<string, seq<int>>
    var released: map<int, int>
    var nextPort: int
    var totalAllocated: int
    var totalReleased: int
    var totalFailed: int
    var currentInUse: int
    var closed: bool

    constructor (config: Config)
      ensures this.config == config && View() == New(config) && !closed
    {
      this.config := config;
      owner, pool, sessions, released := map[], [], map[], map[];
      var start := config.minPort;
      if config.evenOnly && start % 2 != 0 {
        start := start + 1;
      }
      nextPort := start;
      totalAllocated, totalReleased, totalFailed, currentInUse, closed := 0, 0, 0, 0, false;
    }

    ghost function View(): State
      reads this
    {
      State(owner, pool, sessions, released, nextPort, totalAllocated, totalReleased, totalFailed, currentInUse)
    }

    method TryReservePortPair(rtp: int, bindable: Network) returns (ok: bool)
      modifies this`owner
      ensures ok <==> PairFree(old(View()), bindable, rtp)
      ensures owner == if ok then old(owner)[rtp := ""][rtp + 1 := ""] else old(owner)
    {
      var rtcp := rtp + 1;
      if rtp in released || rtcp in released {
        return false;
      }
      if rtp in owner || rtcp in owner {
        return false;
      }
      if !bindable(rtp) || !bindable(rtcp) {
        return false;
      }
      owner := owner[rtp := ""][rtcp := ""];
      return true;
    }

    /** Scans from `from` below `limit`; reserves the first free pair. */
    method Scan(from: int, limit: int, bindable: Network) returns (r: Option<int>)
      modifies this`owner, this`nextPort
      ensures r == ScanPairs(old(View()), bindable, from, limit)
      ensures View() == match r case Some(p) => Reserve(old(View()), p) case None => old(View())
    {
      var port := from;
      while port < limit
        invariant View() == old(View())
        invariant ScanPairs(old(View()), bindable, from, limit) == ScanPairs(old(View()), bindable, port, limit)
        decreases limit - port
      {
        var ok := TryReservePortPair(port, bindable);
        if ok {
          nextPort := port + 2;
          return Some(port);
        }
        port := port + 2;
      }
      return None;
    }

    method FindAvailablePortPair(bindable: Network) returns (r: Option<int>)
      modifies this`owner, this`nextPort
      ensures r == FindPair(config, old(View()), bindable)
      ensures View() == match r case Some(p) => Reserve(old(View()), p) case None => old(View())
    {
      var start := nextPort;
      var end := config.maxPort - 1;
      r := Scan(start, end, bindable);
      if r.Some? {
        return;
      }
      var wrapStart := config.minPort;
      if config.evenOnly && wrapStart % 2 != 0 {
        wrapStart := wrapStart + 1;
      }
      r := Scan(wrapStart, if start < end then start else end, bindable);
    }

    method RefillPool(bindable: Network)
      modifies this`owner, this`nextPort, this`pool
      ensures View() == PortSpec.RefillPool(config, old(View()), bindable)
    {
      hide FindPair;
      var target := config.reserveCount - |pool|;
      if target <= 0 {
        return;
      }
      var i := 0;
      while i < target
        invariant 0 <= i <= target
        invariant Refill(config, View(), bindable, target - i) == Refill(config, old(View()), bindable, target)
      {
        ghost var before := View();
        var r := FindAvailablePortPair(bindable);
        match r
        case None => return;
        case Some(p) =>
          if |pool| < config.reserveCount {
            pool := pool + [p];
          } else {
            owner := owner - {p};
            owner := owner - {p + 1};
            assert owner == before.owner[p := ""][p + 1 := ""] - {p, p + 1};
            return;
          }
          i := i + 1;
      }
    }

    method RecordAllocation(port: int, sid: string)
      modifies this`owner, this`sessions, this`totalAllocated, this`currentInUse
      ensures View() == Record(old(View()), port, sid)
    {
      owner := owner[port := sid];
      sessions := sessions[sid := (if sid in sessions then sessions[sid] else []) + [port]];
      totalAllocated := totalAllocated + 1;
      currentInUse := currentInUse + 1;
    }

    /** None is any of the errors: closed, limit reached, no ports. */
    method AllocatePortPair(sid: string, bindable: Network) returns (r: Option<int>)
      modifies this
      ensures closed == old(closed)
      ensures closed ==> r == None && View() == old(View())
      ensures !closed ==> (View(), r) == AllocatePair(config, old(View()), sid, bindable)
    {
      hide FindPair, Record;
      if closed {
        return None;
      }
      var count := if sid in sessions then |sessions[sid]| else 0;
      if count + 2 > config.maxAllocations {
        totalFailed := totalFailed + 1;
        return None;
      }
      if |pool| > 0 {
        var p := pool[0];
        pool := pool[1..];
        RecordAllocation(p, sid);
        RecordAllocation(p + 1, sid);
        return Some(p);
      }
      r := FindAvailablePortPair(bindable);
      match r
      case None => totalFailed := totalFailed + 2;
      case Some(p) =>
        RecordAllocation(p, sid);
        RecordAllocation(p + 1, sid);
    }

    method AllocateWithConnection(sid: string, bindable: Network) returns (r: Option<int>)
      modifies this
      ensures closed == old(closed)
      ensures closed ==> r == None && View() == old(View())
      ensures !closed ==> (View(), r) == AllocateBound(config, old(View()), sid, bindable)
    {
      hide Record;
      if closed {
        return None;
      }
      var count := if sid in sessions then |sessions[sid]| else 0;
      if count >= config.maxAllocations {
        totalFailed := totalFailed + 1;
        return None;
      }
      var step := if config.evenOnly then 2 else 1;
      var port := nextPort;
      while port <= config.maxPort
        invariant View() == old(View()) && closed == old(closed)
        invariant ScanPorts(old(View()), bindable, old(nextPort), config.maxPort, step) ==
                  ScanPorts(old(View()), bindable, port, config.maxPort, step)
        decreases config.maxPort - port
      {
        if port !in released && port !in owner && bindable(port) {
          RecordAllocation(port, sid);
          RecordKeepsHint(old(View()), port, sid);
          nextPort := port + step;
          return Some(port);
        }
        port := port + step;
      }
      totalFailed := totalFailed + 1;
      return None;
    }

    method ReleasePort(port: int, now: int) returns (ok: bool)
      modifies this`owner, this`released, this`sessions, this`totalReleased, this`currentInUse
      ensures (View(), ok) == Release(old(View()), port, now)
    {
      if port !in owner {
        return false;
      }
      var sid := owner[port];
      owner := owner - {port};
      released := released[port := now];
      if sid != "" {
        var ports := if sid in sessions then sessions[sid] else [];
        var left := Drop(ports, port);
        if left == [] {
          sessions := sessions - {sid};
        } else {
          sessions := sessions[sid := left];
        }
      }
      totalReleased := totalReleased + 1;
      currentInUse := currentInUse - 1;
      return true;
    }

    method ReleaseSessionPorts(sid: string, now: int)
      modifies this`owner, this`released, this`sessions, this`totalReleased, this`currentInUse
      ensures View() == ReleaseSession(old(View()), sid, now)
    {
      hide Release;
      var ports := if sid in sessions then sessions[sid] else [];
      var i := 0;
      assert ports[0..] == ports;
      while i < |ports|
        invariant 0 <= i <= |ports|
        invariant ReleaseAll(View(), ports[i..], now) == ReleaseAll(old(View()), ports, now)
      {
        assert ports[i..][0] == ports[i] && ports[i..][1..] == ports[i + 1..];
        var ok := ReleasePort(ports[i], now);
        i := i + 1;
      }
    }

    /** Deletes, in any order of the map, every port whose reuse delay is over. */
    method CleanReleasedPorts(now: int)
      modifies this`released
      ensures View() == CleanReleased(config, old(View()), now)
    {
      var todo := released.Items;
      while todo != {}
        invariant todo <= old(released).Items
        invariant released == map p | p in old(released) &&
                  ((p, old(released)[p]) in todo || now - old(released)[p] < config.reuseDelay) :: old(released)[p]
        decreases |todo|
      {
        var entry :| entry in todo;
        if now - entry.1 >= config.reuseDelay {
          released := released - {entry.0};
        }
        todo := todo - {entry};
      }
    }
  }

  lemma RecordKeepsHint(st: State, port: int, sid: string)
    ensures Record(st, port, sid).nextPort == st.nextPort
  {}

  /** Removes the first occurrence of a port from a list. */
  method Drop(ports: seq<int>, port: int) returns (left: seq<int>)
    ensures left == Without(ports, port)
  {
    var i := 0;
    assert ports[..0] + Without(ports[0..], port) == Without(ports, port) by { assert ports[0..] == ports; }
    while i < |ports|
      invariant 0 <= i <= |ports|
      invariant ports[..i] + Without(ports[i..], port) == Without(ports, port)
    {
      assert ports[i..][0] == ports[i] && ports[i..][1..] == ports[i + 1..];
      if ports[i] == port {
        return ports[..i] + ports[i + 1..];
      }
      assert ports[..i + 1] + Without(ports[i + 1..], port) ==
             ports[..i] + ([ports[i]] + Without(ports[i + 1..], port));
      i := i + 1;
    }
    assert ports[..i] + [] == ports;
    return ports;
  }
}
