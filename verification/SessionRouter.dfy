/** Session routing over the ring: sticky sessions and load accounting. */
module SessionRouting {
  import opened Basics
  import opened SortedPoints
  import opened MapSums
  import opened HashRings

  datatype Router = Router(ring: Ring, sticky: map<string, string>)

  /** The sessions stuck to a node. */
  ghost function Stuck(sticky: map<string, string>, id: string): set<string> {
    set s | s in sticky && sticky[s] == id
  }

  function Increment(r: Ring, id: string): Ring {
    if id in r.nodeLoad then r.(nodeLoad := r.nodeLoad[id := r.nodeLoad[id] + 1], totalLoad := r.totalLoad + 1) else r
  }

  function Decrement(r: Ring, id: string): Ring {
    if id in r.nodeLoad && r.nodeLoad[id] > 0 then
      r.(nodeLoad := r.nodeLoad[id := r.nodeLoad[id] - 1], totalLoad := r.totalLoad - 1)
    else r
  }

  function SetHealth(r: Ring, id: string, healthy: bool): Ring {
    if id in r.nodes then r.(nodes := r.nodes[id := r.nodes[id].(healthy := healthy)]) else r
  }

  function Drop(h: Hashes, factor: int, rt: Router, id: string): Router {
    Router(RemoveNode(h, factor, rt.ring, id), map s | s in rt.sticky && rt.sticky[s] != id :: rt.sticky[s])
  }

  predicate StuckToHealthy(rt: Router, sid: string) {
    sid in rt.sticky && rt.sticky[sid] in rt.ring.nodes && rt.ring.nodes[rt.sticky[sid]].healthy
  }

  /** Routes a session; `pick` is what the load-aware lookup yields. */
  function Route(rt: Router, sid: string, pick: Option<string>): (Router, Option<string>) {
    if StuckToHealthy(rt, sid) then (rt, Some(rt.sticky[sid]))
    else if pick.None? then (rt, None)
    else (Router(Increment(rt.ring, pick.value), rt.sticky[sid := pick.value]), pick)
  }

  function End(rt: Router, sid: string): Router {
    if sid in rt.sticky then Router(Decrement(rt.ring, rt.sticky[sid]), rt.sticky - {sid}) else rt
  }

  /** Sticky entries name live nodes, and no node carries less load than the sessions stuck to it. */
  ghost predicate RInv(h: Hashes, factor: int, rt: Router) {
    && Inv(h, factor, rt.ring)
    && (forall s <- rt.sticky :: rt.sticky[s] in rt.ring.nodes)
    && (forall id <- rt.ring.nodes :: rt.ring.nodeLoad[id] >= |Stuck(rt.sticky, id)|)
  }

  ghost predicate Exact(rt: Router)
    requires rt.ring.nodeLoad.Keys == rt.ring.nodes.Keys
  {
    forall id <- rt.ring.nodes :: rt.ring.nodeLoad[id] == |Stuck(rt.sticky, id)|
  }

  // ---- The ring parts

  lemma LoadChangeKeepsInv(h: Hashes, factor: int, r: Ring, id: string)
    requires Inv(h, factor, r)
    ensures Inv(h, factor, Increment(r, id)) && Inv(h, factor, Decrement(r, id))
  {
    hide Sorted, PointSet, Sum;
    if id in r.nodeLoad {
      SumUpdate(r.nodeLoad, id, r.nodeLoad[id] + 1);
      SumUpdate(r.nodeLoad, id, r.nodeLoad[id] - 1);
    }
  }

  lemma HealthKeepsInv(h: Hashes, factor: int, r: Ring, id: string, healthy: bool)
    requires Inv(h, factor, r)
    ensures Inv(h, factor, SetHealth(r, id, healthy))
  {
    hide Sorted, Sum, Points;
  }

  // ---- Counting stuck sessions

  lemma StuckAdd(sticky: map<string, string>, sid: string, n: string, id: string)
    ensures |Stuck(sticky[sid := n], id)| ==
            |Stuck(sticky, id)| + (if id == n then 1 else 0) - (if sid in sticky && sticky[sid] == id then 1 else 0)
  {
    var (a, b) := (Stuck(sticky, id), Stuck(sticky[sid := n], id));
    if id == n {
      assert b == a + {sid};
    } else {
      assert b == a - {sid};
    }
  }

  lemma StuckRemove(sticky: map<string, string>, sid: string, id: string)
    requires sid in sticky
    ensures |Stuck(sticky - {sid}, id)| == |Stuck(sticky, id)| - (if sticky[sid] == id then 1 else 0)
  {
    assert Stuck(sticky - {sid}, id) == Stuck(sticky, id) - {sid};
  }

  // ---- Each operation

  lemma AddKeeps(h: Hashes, factor: int, rt: Router, node: Node)
    requires RInv(h, factor, rt)
    ensures RInv(h, factor, rt.(ring := AddNode(h, factor, rt.ring, node)))
    ensures Exact(rt) ==> Exact(rt.(ring := AddNode(h, factor, rt.ring, node)))
  {
    hide Sort, Points, Sorted, Sum, PointSet, Claim;
    AddKeepsInv(h, factor, rt.ring, node);
    if node.id !in rt.ring.nodes {
      assert Stuck(rt.sticky, node.id) == {};
    }
  }

  lemma DropKeeps(h: Hashes, factor: int, rt: Router, id: string)
    requires RInv(h, factor, rt)
    ensures RInv(h, factor, Drop(h, factor, rt, id))
    ensures Exact(rt) ==> Exact(Drop(h, factor, rt, id))
  {
    hide Outside, Points, Sorted, Sum, PointSet;
    RemoveKeepsInv(h, factor, rt.ring, id);
    var rt' := Drop(h, factor, rt, id);
    forall other | other != id ensures Stuck(rt'.sticky, other) == Stuck(rt.sticky, other) {
    }
  }

  lemma HealthKeeps(h: Hashes, factor: int, rt: Router, id: string, healthy: bool)
    requires RInv(h, factor, rt)
    ensures RInv(h, factor, rt.(ring := SetHealth(rt.ring, id, healthy)))
    ensures Exact(rt) ==> Exact(rt.(ring := SetHealth(rt.ring, id, healthy)))
  {
    hide Inv;
    HealthKeepsInv(h, factor, rt.ring, id, healthy);
    LoadsKeyed(h, factor, rt.ring);
  }

  lemma LoadsKeyed(h: Hashes, factor: int, r: Ring)
    requires Inv(h, factor, r)
    ensures r.nodeLoad.Keys == r.nodes.Keys
  {}

  lemma RouteKeeps(h: Hashes, factor: int, rt: Router, sid: string, pick: Option<string>)
    requires RInv(h, factor, rt) && (pick.Some? ==> pick.value in rt.ring.nodes)
    ensures RInv(h, factor, Route(rt, sid, pick).0)
  {
    hide Inv, Stuck;
    LoadsKeyed(h, factor, rt.ring);
    if !StuckToHealthy(rt, sid) && pick.Some? {
      LoadChangeKeepsInv(h, factor, rt.ring, pick.value);
      forall id | id in rt.ring.nodes
        ensures Increment(rt.ring, pick.value).nodeLoad[id] >= |Stuck(rt.sticky[sid := pick.value], id)|
      {
        StuckAdd(rt.sticky, sid, pick.value, id);
      }
    }
  }

  lemma EndKeeps(h: Hashes, factor: int, rt: Router, sid: string)
    requires RInv(h, factor, rt)
    ensures RInv(h, factor, End(rt, sid))
    ensures Exact(rt) ==> Exact(End(rt, sid))
  {
    hide Inv;
    LoadsKeyed(h, factor, rt.ring);
    if sid in rt.sticky {
      var n := rt.sticky[sid];
      LoadChangeKeepsInv(h, factor, rt.ring, n);
      assert sid in Stuck(rt.sticky, n);
      hide Stuck;
      forall id | id in rt.ring.nodes
        ensures var load := Decrement(rt.ring, n).nodeLoad[id];
                && load >= |Stuck(rt.sticky - {sid}, id)|
                && (Exact(rt) ==> load == |Stuck(rt.sticky - {sid}, id)|)
      {
        StuckRemove(rt.sticky, sid, id);
      }
    }
  }

  /** A session stuck to an unhealthy node is rerouted. */
  predicate Rerouted(rt: Router, sid: string, pick: Option<string>) {
    pick.Some? && sid in rt.sticky && !StuckToHealthy(rt, sid)
  }

  /** Exact accounting survives routing exactly when the session is not rerouted off an unhealthy node:
      the old node's load is never given back. */
  lemma RouteExactIff(h: Hashes, factor: int, rt: Router, sid: string, pick: Option<string>)
    requires RInv(h, factor, rt) && Exact(rt) && (pick.Some? ==> pick.value in rt.ring.nodes)
    ensures Route(rt, sid, pick).0.ring.nodeLoad.Keys == Route(rt, sid, pick).0.ring.nodes.Keys
    ensures Exact(Route(rt, sid, pick).0) <==> !Rerouted(rt, sid, pick)
  {
    hide Inv, Stuck;
    LoadsKeyed(h, factor, rt.ring);
    if !StuckToHealthy(rt, sid) && pick.Some? {
      var n := pick.value;
      var rt' := Route(rt, sid, pick).0;
      forall id | id in rt.ring.nodes
        ensures rt'.ring.nodeLoad[id] - |Stuck(rt'.sticky, id)| == if sid in rt.sticky && rt.sticky[sid] == id then
                1 else 0
      {
        StuckAdd(rt.sticky, sid, n, id);
      }
      if sid in rt.sticky {
        var was := rt.sticky[sid];
        assert rt'.ring.nodeLoad[was] != |Stuck(rt'.sticky, was)|;
      }
    }
  }

  // ---- Runs

  datatype Event =
    | AddEvent(node: Node)
    | DropEvent(id: string)
    | HealthEvent(id: string, healthy: bool)
    | RouteEvent(sid: string, pick: Option<string>)
    | EndEvent(sid: string)

  function Step(h: Hashes, factor: int, rt: Router, e: Event): Router {
    match e
    case AddEvent(node) => rt.(ring := AddNode(h, factor, rt.ring, node))
    case DropEvent(id) => Drop(h, factor, rt, id)
    case HealthEvent(id, healthy) => rt.(ring := SetHealth(rt.ring, id, healthy))
    case RouteEvent(sid, pick) => Route(rt, sid, pick).0
    case EndEvent(sid) => End(rt, sid)
  }

  function Run(h: Hashes, factor: int, es: seq<Event>): Router {
    if es == [] then Router(EMPTY, map[]) else Step(h, factor, Run(h, factor, es[..|es| - 1]), es[|es| - 1])
  }

  /** Each route step uses a node the lookup may return at that moment. */
  ghost predicate Legal(h: Hashes, factor: int, loadFactor: real, es: seq<Event>) {
    es != [] ==>
      var rt := Run(h, factor, es[..|es| - 1]);
      var e := es[|es| - 1];
      && Legal(h, factor, loadFactor, es[..|es| - 1])
      && (e.RouteEvent? ==> MayPick(h, factor, loadFactor, rt, e.sid, e.pick))
  }

  ghost predicate NeverRerouted(h: Hashes, factor: int, es: seq<Event>) {
    es != [] ==>
      && NeverRerouted(h, factor, es[..|es| - 1])
      && (es[|es| - 1].RouteEvent? ==>
            !Rerouted(Run(h, factor, es[..|es| - 1]), es[|es| - 1].sid, es[|es| - 1].pick))
  }

  /** What a route step may use: anything if the session is stuck to a healthy node, otherwise what the
      lookup may return. */
  ghost predicate MayPick(h: Hashes, factor: int, loadFactor: real, rt: Router, sid: string, pick: Option<string>) {
    || StuckToHealthy(rt, sid)
    || (Inv(h, factor, rt.ring) && Chosen(h, factor, rt.ring, loadFactor, h.key(sid), pick))
  }

  lemma PickIsLive(h: Hashes, factor: int, loadFactor: real, rt: Router, sid: string, pick: Option<string>)
    requires RInv(h, factor, rt) && Chosen(h, factor, rt.ring, loadFactor, h.key(sid), pick)
    ensures pick.Some? ==> pick.value in rt.ring.nodes
  {
    hide Inv, Stuck;
    if rt.ring.ring != [] {
      ChosenIsHealthyIff(h, factor, rt.ring, loadFactor, h.key(sid), pick);
    }
  }

  /** In every reachable state the total load is the sum of the node loads, sticky sessions name live
      nodes, and every node's load covers the sessions stuck to it, exactly so if no session was ever
      rerouted off an unhealthy node. */
  lemma {:induction false} RouterAccounts(h: Hashes, factor: int, loadFactor: real, es: seq<Event>)
    requires Legal(h, factor, loadFactor, es)
    ensures RInv(h, factor, Run(h, factor, es))
    ensures Run(h, factor, es).ring.totalLoad == Sum(Run(h, factor, es).ring.nodeLoad)
    ensures NeverRerouted(h, factor, es) ==> Exact(Run(h, factor, es))
  {
    hide Chosen, AddNode, RemoveNode, Stuck, Sum, Sorted, PointSet;
    if es == [] {
      EmptyIsValid(h, factor);
    } else {
      RouterAccounts(h, factor, loadFactor, es[..|es| - 1]);
      var rt := Run(h, factor, es[..|es| - 1]);
      match es[|es| - 1]
      case AddEvent(node) => AddKeeps(h, factor, rt, node);
      case DropEvent(id) => DropKeeps(h, factor, rt, id);
      case HealthEvent(id, healthy) => HealthKeeps(h, factor, rt, id, healthy);
      case EndEvent(sid) => EndKeeps(h, factor, rt, sid);
      case RouteEvent(sid, pick) =>
        if !StuckToHealthy(rt, sid) {
          PickIsLive(h, factor, loadFactor, rt, sid, pick);
          RouteKeeps(h, factor, rt, sid, pick);
          if Exact(rt) {
            RouteExactIff(h, factor, rt, sid, pick);
          }
        }
    }
  }
}

/** The ring and router objects. */
module RouterObjects {
  import opened Basics
  import opened SortedPoints
  import opened HashRings
  import opened SessionRouting

  class HashRing {
    const hashes: Hashes
    const factor: int
    const loadFactor: real
    var nodes: map<string, Node>
    var ring: seq<Point>
    var ringNodes: map<Point, string>
    var nodeLoad: map<string, int>
    var totalLoad: int

    constructor (hashes: Hashes, factor: int, loadFactor: real)
      ensures this.hashes == hashes && this.factor == factor && this.loadFactor == loadFactor && View() == EMPTY
    {
      this.hashes, this.factor, this.loadFactor := hashes, factor, loadFactor;
      nodes, ring, ringNodes, nodeLoad, totalLoad := map[], [], map[], map[], 0;
    }

    ghost function View(): Ring
      reads this
    {
      Ring(nodes, ring, ringNodes, nodeLoad, totalLoad)
    }

    method Add(node: Node)
      modifies this
      ensures View() == AddNode(hashes, factor, old(View()), node)
    {
      hide Sort, Claim, Members;
      if node.id in nodes {
        return;
      }
      nodes := nodes[node.id := node];
      nodeLoad := nodeLoad[node.id := 0];
      var replicas := factor;
      if node.weight > 0 {
        replicas := replicas * node.weight;
      }
      var i := 0;
      assert old(ring) + [] == old(ring);
      ClaimNothing(ringNodes, node.id);
      while i < replicas
        invariant i == 0 || 0 <= i <= replicas
        invariant nodes == old(nodes)[node.id := node] && nodeLoad == old(nodeLoad)[node.id := 0]
        invariant totalLoad == old(totalLoad)
        invariant ring == old(ring) + Points(hashes, node.id, i)
        invariant ringNodes == Claim(old(ringNodes), Members(Points(hashes, node.id, i)), node.id)
      {
        var hash := hashes.replica(node.id, i);
        ring := ring + [hash];
        ClaimMore(old(ringNodes), Points(hashes, node.id, i), hash, node.id);
        ringNodes := ringNodes[hash := node.id];
        i := i + 1;
      }
      assert Points(hashes, node.id, i) == Points(hashes, node.id, replicas);
      ring := Sort(ring);
    }

    method Remove(id: string)
      modifies this
      ensures View() == RemoveNode(hashes, factor, old(View()), id)
    {
      hide Outside;
      if id !in nodes {
        return;
      }
      var node := nodes[id];
      var replicas := factor;
      if node.weight > 0 {
        replicas := replicas * node.weight;
      }
      var gone: set<Point> := {};
      var i := 0;
      while i < replicas
        invariant i == 0 || 0 <= i <= replicas
        invariant gone == Members(Points(hashes, id, i)) && ringNodes == old(ringNodes) - gone
        invariant nodes == old(nodes) && ring == old(ring) && nodeLoad == old(nodeLoad) && totalLoad == old(totalLoad)
      {
        var hash := hashes.replica(id, i);
        gone := gone + {hash};
        ringNodes := ringNodes - {hash};
        assert Members(Points(hashes, id, i + 1)) == Members(Points(hashes, id, i)) + {hash};
        i := i + 1;
      }
      assert Points(hashes, id, i) == Points(hashes, id, replicas);
      ring := Outside(ring, gone);
      totalLoad := totalLoad - (if id in nodeLoad then nodeLoad[id] else 0);
      nodes := nodes - {id};
      nodeLoad := nodeLoad - {id};
    }

    method GetNode(key: string) returns (id: Option<string>)
      requires Inv(hashes, factor, View())
      ensures id == OwnerAt(View(), hashes.key(key))
    {
      hide FirstAt, Sorted, PointSet;
      if |ring| == 0 {
        return None;
      }
      var idx := BinarySearch(ring, hashes.key(key));
      if idx >= |ring| {
        idx := 0;
      }
      assert ring[idx] in ring;
      return Some(ringNodes[ring[idx]]);
    }

    method LoadLimit() returns (maxLoad: int)
      requires |nodes| > 0
      ensures maxLoad == MaxLoad(View(), loadFactor)
    {
      maxLoad := (totalLoad as real / |nodes| as real * loadFactor).Floor;
      if maxLoad < 1 {
        maxLoad := 1;
      }
    }

    /** The first healthy node with room, clockwise from position idx. */
    method ScanRing(idx: nat, maxLoad: int) returns (id: Option<string>)
      requires ring != [] && (forall p <- ring :: p in ringNodes && ringNodes[p] in nodes)
      requires nodeLoad.Keys == nodes.Keys
      ensures id == FirstSuitable(View(), idx, 0, |ring|, maxLoad)
    {
      var i := 0;
      while i < |ring|
        invariant 0 <= i <= |ring|
        invariant FirstSuitable(View(), idx, 0, |ring|, maxLoad) == FirstSuitable(View(), idx, i, |ring| - i, maxLoad)
      {
        var k := (idx + i) % |ring|;
        assert ring[k] in ring;
        var nodeID := ringNodes[ring[k]];
        if nodes[nodeID].healthy && nodeLoad[nodeID] < maxLoad {
          return Some(nodeID);
        }
        i := i + 1;
      }
      return None;
    }

    /** Any healthy node, in map iteration order. */
    method FindHealthy() returns (id: Option<string>)
      ensures id.Some? <==> AnyHealthy(View())
      ensures id.Some? ==> id.value in nodes && nodes[id.value].healthy
    {
      var rest := nodes.Keys;
      while rest != {}
        invariant rest <= nodes.Keys && forall n <- nodes :: n !in rest ==> !nodes[n].healthy
        decreases |rest|
      {
        var n :| n in rest;
        if nodes[n].healthy {
          return Some(n);
        }
        rest := rest - {n};
      }
      return None;
    }

    method GetNodeWithLoad(key: string) returns (id: Option<string>)
      requires Inv(hashes, factor, View())
      ensures Chosen(hashes, factor, View(), loadFactor, hashes.key(key), id)
    {
      hide FirstAt, Sorted, PointSet, MaxLoad, FirstSuitable, AnyHealthy;
      if |ring| == 0 {
        return None;
      }
      var hash := hashes.key(key);
      var idx := BinarySearch(ring, hash);
      if idx >= |ring| {
        idx := 0;
      }
      NodesLive(hashes, factor, View());
      var maxLoad := LoadLimit();
      id := ScanRing(idx, maxLoad);
      if id.Some? {
        return;
      }
      id := FindHealthy();
      if id.Some? {
        return;
      }
      assert ring[idx] in ring;
      return Some(ringNodes[ring[idx]]);
    }

    method IncrementLoad(id: string)
      modifies this`nodeLoad, this`totalLoad
      ensures View() == Increment(old(View()), id)
    {
      if id in nodeLoad {
        nodeLoad := nodeLoad[id := nodeLoad[id] + 1];
        totalLoad := totalLoad + 1;
      }
    }

    method DecrementLoad(id: string)
      modifies this`nodeLoad, this`totalLoad
      ensures View() == Decrement(old(View()), id)
    {
      if id in nodeLoad && nodeLoad[id] > 0 {
        nodeLoad := nodeLoad[id := nodeLoad[id] - 1];
        totalLoad := totalLoad - 1;
      }
    }

    method SetNodeHealth(id: string, healthy: bool)
      modifies this`nodes
      ensures View() == SetHealth(old(View()), id, healthy)
    {
      if id in nodes {
        nodes := nodes[id := nodes[id].(healthy := healthy)];
      }
    }
  }

  class SessionRouter {
    const ring: HashRing
    var sticky: map<string, string>

    constructor (hashes: Hashes, factor: int, loadFactor: real)
      ensures View() == Router(EMPTY, map[]) && fresh(ring) && Valid()
    {
      ring := new HashRing(hashes, factor, loadFactor);
      sticky := map[];
      new;
      EmptyIsValid(hashes, factor);
      assert RInv(hashes, factor, View());
    }

    ghost function View(): Router
      reads this, ring
    {
      Router(ring.View(), sticky)
    }

    ghost predicate Valid()
      reads this, ring
    {
      RInv(ring.hashes, ring.factor, View())
    }

    method AddRingNode(node: Node)
      requires Valid()
      modifies ring
      ensures Valid() && View() == old(View()).(ring := AddNode(ring.hashes, ring.factor, old(View()).ring, node))
    {
      hide RInv, AddNode;
      AddKeeps(ring.hashes, ring.factor, View(), node);
      ring.Add(node);
    }

    method RemoveRingNode(id: string)
      requires Valid()
      modifies this, ring
      ensures Valid() && View() == Drop(ring.hashes, ring.factor, old(View()), id)
    {
      hide RInv, RemoveNode;
      DropKeeps(ring.hashes, ring.factor, View(), id);
      ring.Remove(id);
      ClearSticky(id);
    }

    method ClearSticky(id: string)
      modifies this`sticky
      ensures sticky == map s | s in old(sticky) && old(sticky)[s] != id :: old(sticky)[s]
    {
      var rest := sticky.Keys;
      while rest != {}
        invariant rest <= old(sticky).Keys
        invariant sticky == map s | s in old(sticky) && (s in rest || old(sticky)[s] != id) :: old(sticky)[s]
        decreases |rest|
      {
        var s :| s in rest;
        if sticky[s] == id {
          sticky := sticky - {s};
        }
        rest := rest - {s};
      }
    }

    method RouteSession(sid: string) returns (id: Option<string>, ghost pick: Option<string>)
      requires Valid()
      modifies this, ring
      ensures Valid()
      ensures MayPick(ring.hashes, ring.factor, ring.loadFactor, old(View()), sid, pick)
      ensures (View(), id) == Route(old(View()), sid, pick)
    {
      hide Inv, Chosen, Stuck;
      if sid in sticky {
        var n := sticky[sid];
        if n in ring.nodes && ring.nodes[n].healthy {
          return Some(n), None;
        }
      }
      id := ring.GetNodeWithLoad(sid);
      pick := id;
      PickIsLive(ring.hashes, ring.factor, ring.loadFactor, View(), sid, id);
      RouteKeeps(ring.hashes, ring.factor, View(), sid, id);
      if id.Some? {
        sticky := sticky[sid := id.value];
        ring.IncrementLoad(id.value);
      }
    }

    method EndSession(sid: string)
      requires Valid()
      modifies this, ring
      ensures Valid() && View() == End(old(View()), sid)
    {
      hide RInv;
      EndKeeps(ring.hashes, ring.factor, View(), sid);
      if sid in sticky {
        var n := sticky[sid];
        sticky := sticky - {sid};
        ring.DecrementLoad(n);
      }
    }
  }

  lemma ClaimNothing(ringNodes: map<Point, string>, id: string)
    ensures Claim(ringNodes, Members([]), id) == ringNodes
  {}

  lemma ClaimMore(ringNodes: map<Point, string>, points: seq<Point>, p: Point, id: string)
    ensures Claim(ringNodes, Members(points + [p]), id) == Claim(ringNodes, Members(points), id)[p := id]
  {}
}
