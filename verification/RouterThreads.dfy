/** The session router called by many threads: every section that holds a lock is a step of its own. */
module RouterThreads {
  import opened Basics
  import opened SortedPoints
  import opened MapSums
  import opened HashRings
  import opened SessionRouting

  /** Where a call stands. RouteSession: sticky entry read; about to pick; picked; stuck but not counted.
      RemoveNode: off the ring but sticky entries not yet swept. EndSession: unstuck but not uncounted. */
  datatype Pc =
    | Idle
    | Reading(sid: string, id: string)
    | Picking(sid: string)
    | Picked(sid: string, id: string)
    | Counting(id: string)
    | Sweeping(id: string)
    | Unstuck(id: string)

  datatype Machine = Machine(rt: Router, threads: seq<Pc>)

  datatype Move =
    | AddMove(node: Node) | HealthMove(id: string, healthy: bool)
    | Read(i: nat, sid: string) | Verify(i: nat) | Pick(i: nat, pick: Option<string>) | Stick(i: nat) | Count(i: nat)
    | Remove(i: nat, id: string) | Sweep(i: nat)
    | Unstick(i: nat, sid: string) | Uncount(i: nat)

  function Start(threads: nat): Machine {
    Machine(Router(EMPTY, map[]), seq(threads, _ => Idle))
  }

  function Goes(m: Machine, i: nat, pc: Pc): Machine
    requires i < |m.threads|
  {
    m.(threads := m.threads[i := pc])
  }

  predicate OfThread(e: Move) {
    !e.AddMove? && !e.HealthMove?
  }

  function Swept(sticky: map<string, string>, id: string): map<string, string> {
    map s | s in sticky && sticky[s] != id :: sticky[s]
  }

  /** A step that is not enabled changes nothing. */
  function Next(h: Hashes, factor: int, m: Machine, e: Move): Machine {
    match e
    case AddMove(node) => m.(rt := m.rt.(ring := AddNode(h, factor, m.rt.ring, node)))
    case HealthMove(id, healthy) => m.(rt := m.rt.(ring := SetHealth(m.rt.ring, id, healthy)))
    case _ => if e.i >= |m.threads| then m else Moved(h, factor, m, e)
  }

  function Moved(h: Hashes, factor: int, m: Machine, e: Move): Machine
    requires OfThread(e) && e.i < |m.threads|
  {
    var pc := m.threads[e.i];
    match e
    case Read(i, sid) =>
      if pc != Idle then m
      else Goes(m, i, if sid in m.rt.sticky then Reading(sid, m.rt.sticky[sid]) else Picking(sid))
    case Verify(i) =>
      if !pc.Reading? then m
      else Goes(m, i, if pc.id in m.rt.ring.nodes && m.rt.ring.nodes[pc.id].healthy then Idle else Picking(pc.sid))
    case Pick(i, pick) =>
      if !pc.Picking? then m else Goes(m, i, match pick case None => Idle case Some(id) => Picked(pc.sid, id))
    case Stick(i) =>
      if !pc.Picked? then m
      else Goes(m, i, Counting(pc.id)).(rt := m.rt.(sticky := m.rt.sticky[pc.sid := pc.id]))
    case Count(i) =>
      if !pc.Counting? then m else Goes(m, i, Idle).(rt := m.rt.(ring := Increment(m.rt.ring, pc.id)))
    case Remove(i, id) =>
      if pc != Idle then m else Goes(m, i, Sweeping(id)).(rt := m.rt.(ring := RemoveNode(h, factor, m.rt.ring, id)))
    case Sweep(i) =>
      if !pc.Sweeping? then m else Goes(m, i, Idle).(rt := m.rt.(sticky := Swept(m.rt.sticky, pc.id)))
    case Unstick(i, sid) =>
      if pc != Idle || sid !in m.rt.sticky then m
      else Goes(m, i, Unstuck(m.rt.sticky[sid])).(rt := m.rt.(sticky := m.rt.sticky - {sid}))
    case Uncount(i) =>
      if !pc.Unstuck? then m else Goes(m, i, Idle).(rt := m.rt.(ring := Decrement(m.rt.ring, pc.id)))
  }

  function Run(h: Hashes, factor: int, m: Machine, es: seq<Move>): Machine {
    if es == [] then m else Next(h, factor, Run(h, factor, m, es[..|es| - 1]), es[|es| - 1])
  }

  /** A pick is what the load-aware lookup may return at that moment. */
  ghost predicate LegalMove(h: Hashes, factor: int, loadFactor: real, m: Machine, e: Move) {
    e.Pick? && e.i < |m.threads| && m.threads[e.i].Picking? ==>
      Inv(h, factor, m.rt.ring) && Chosen(h, factor, m.rt.ring, loadFactor, h.key(m.threads[e.i].sid), e.pick)
  }

  // ---- The ring in every interleaving

  lemma MoveKeepsRing(h: Hashes, factor: int, m: Machine, e: Move)
    requires Inv(h, factor, m.rt.ring)
    ensures Inv(h, factor, Next(h, factor, m, e).rt.ring) && |Next(h, factor, m, e).threads| == |m.threads|
  {
    hide Inv, AddNode, RemoveNode, Increment, Decrement, SetHealth;
    var r := m.rt.ring;
    match e
    case AddMove(node) => AddKeepsInv(h, factor, r, node);
    case HealthMove(id, healthy) => HealthKeepsInv(h, factor, r, id, healthy);
    case Remove(_, id) => RemoveKeepsInv(h, factor, r, id);
    case Count(i) =>
      if i < |m.threads| && m.threads[i].Counting? {
        LoadChangeKeepsInv(h, factor, r, m.threads[i].id);
      }
    case Uncount(i) =>
      if i < |m.threads| && m.threads[i].Unstuck? {
        LoadChangeKeepsInv(h, factor, r, m.threads[i].id);
      }
    case _ =>
  }

  /** In every interleaving of any number of threads the ring is sound and the total load is the sum of the
      node loads. */
  lemma {:induction false} RingAlwaysSound(h: Hashes, factor: int, threads: nat, es: seq<Move>)
    ensures Inv(h, factor, Run(h, factor, Start(threads), es).rt.ring)
    ensures var r := Run(h, factor, Start(threads), es).rt.ring; r.totalLoad == Sum(r.nodeLoad)
    ensures |Run(h, factor, Start(threads), es).threads| == threads
  {
    hide Sum, Sorted, PointSet, Next;
    if es == [] {
      EmptyIsValid(h, factor);
    } else {
      RingAlwaysSound(h, factor, threads, es[..|es| - 1]);
      MoveKeepsRing(h, factor, Run(h, factor, Start(threads), es[..|es| - 1]), es[|es| - 1]);
    }
  }

  // ---- Sticky entries and live nodes

  /** A removal of the node is between the ring and the sweep. */
  ghost predicate BeingSwept(m: Machine, id: string) {
    Sweeping(id) in m.threads
  }

  /** Every sticky entry names a live node, or one whose entries are about to be swept. */
  ghost predicate Accounted(m: Machine) {
    forall s <- m.rt.sticky :: m.rt.sticky[s] in m.rt.ring.nodes || BeingSwept(m, m.rt.sticky[s])
  }

  /** The session sticks to a node whose removal has run to its end since it was picked. */
  ghost predicate Late(m: Machine, e: Move) {
    e.Stick? && e.i < |m.threads| && m.threads[e.i].Picked? &&
    m.threads[e.i].id !in m.rt.ring.nodes && !BeingSwept(m, m.threads[e.i].id)
  }

  lemma ThreadsAfter(threads: seq<Pc>, i: nat, pc: Pc, x: Pc)
    requires i < |threads|
    ensures multiset(threads[i := pc])[x] ==
            multiset(threads)[x] - (if threads[i] == x then 1 else 0) + (if pc == x then 1 else 0)
    ensures x in threads[i := pc] <==>
              pc == x || multiset(threads)[x] > (if threads[i] == x then 1 else 0)
    ensures x in threads <==> multiset(threads)[x] > 0
  {
    assert multiset(threads[i := pc]) == multiset(threads) - multiset{threads[i]} + multiset{pc};
    assert x in threads[i := pc] <==> x in multiset(threads[i := pc]);
    assert x in threads <==> x in multiset(threads);
  }

  lemma RemoveTakesNode(h: Hashes, factor: int, r: Ring, id: string)
    ensures RemoveNode(h, factor, r, id).nodes == r.nodes - {id}
  {}

  lemma AddGivesNode(h: Hashes, factor: int, r: Ring, node: Node)
    ensures AddNode(h, factor, r, node).nodes.Keys == r.nodes.Keys + {node.id}
  {}

  lemma SweptAfter(threads: seq<Pc>, i: nat, pc: Pc, id: string)
    requires i < |threads|
    ensures pc == Sweeping(id) || (threads[i] != Sweeping(id) && Sweeping(id) in threads) ==>
              Sweeping(id) in threads[i := pc]
    ensures Sweeping(id) in threads[i := pc] ==> pc == Sweeping(id) || Sweeping(id) in threads
  {
    var t := threads[i := pc];
    assert t[i] == pc;
    if threads[i] != Sweeping(id) && Sweeping(id) in threads {
      var j :| 0 <= j < |threads| && threads[j] == Sweeping(id);
      assert t[j] == Sweeping(id);
    }
  }

  /** A step that adds no sticky entry, removes no node and ends no sweep. */
  lemma QuietMoveKeeps(m: Machine, m': Machine, i: nat)
    requires Accounted(m) && i < |m.threads| && !m.threads[i].Sweeping? && |m'.threads| == |m.threads|
    requires m'.threads == m.threads[i := m'.threads[i]]
    requires m'.rt.ring.nodes.Keys == m.rt.ring.nodes.Keys
    requires forall s <- m'.rt.sticky :: s in m.rt.sticky && m'.rt.sticky[s] == m.rt.sticky[s]
    ensures Accounted(m')
  {
    forall s | s in m'.rt.sticky ensures m'.rt.sticky[s] in m'.rt.ring.nodes || BeingSwept(m', m'.rt.sticky[s]) {
      SweptAfter(m.threads, i, m'.threads[i], m'.rt.sticky[s]);
    }
  }

  lemma StickKeepsIff(m: Machine, m': Machine, i: nat)
    requires Accounted(m) && i < |m.threads| && m.threads[i].Picked?
    requires var pc := m.threads[i];
             m' == Goes(m, i, Counting(pc.id)).(rt := m.rt.(sticky := m.rt.sticky[pc.sid := pc.id]))
    ensures Accounted(m') <==> !Late(m, Stick(i))
  {
    var pc := m.threads[i];
    forall id ensures BeingSwept(m', id) <==> BeingSwept(m, id) {
      SweptAfter(m.threads, i, Counting(pc.id), id);
    }
    assert m'.rt.sticky[pc.sid] == pc.id;
  }

  lemma SweepKeeps(m: Machine, m': Machine, i: nat)
    requires Accounted(m) && i < |m.threads| && m.threads[i].Sweeping?
    requires m' == Goes(m, i, Idle).(rt := m.rt.(sticky := Swept(m.rt.sticky, m.threads[i].id)))
    ensures Accounted(m')
  {
    forall s | s in m'.rt.sticky ensures m'.rt.sticky[s] in m'.rt.ring.nodes || BeingSwept(m', m'.rt.sticky[s]) {
      SweptAfter(m.threads, i, Idle, m'.rt.sticky[s]);
    }
  }

  lemma RemoveKeepsAccounted(h: Hashes, factor: int, m: Machine, m': Machine, i: nat, id: string)
    requires Accounted(m) && i < |m.threads| && m.threads[i] == Idle
    requires m' == Goes(m, i, Sweeping(id)).(rt := m.rt.(ring := RemoveNode(h, factor, m.rt.ring, id)))
    ensures Accounted(m')
  {
    hide RemoveNode;
    RemoveTakesNode(h, factor, m.rt.ring, id);
    forall s | s in m'.rt.sticky ensures m'.rt.sticky[s] in m'.rt.ring.nodes || BeingSwept(m', m'.rt.sticky[s]) {
      SweptAfter(m.threads, i, Sweeping(id), m'.rt.sticky[s]);
    }
  }

  /** A step keeps the sticky entries accounted for, if and only if it is not late. */
  lemma MoveKeepsAccountedIff(h: Hashes, factor: int, m: Machine, e: Move)
    requires Accounted(m)
    ensures Accounted(Next(h, factor, m, e)) <==> !Late(m, e)
  {
    hide AddNode, RemoveNode, Accounted, BeingSwept;
    if e.AddMove? {
      MoreNodesKeep(h, factor, m, e);
    } else if e.HealthMove? {
      MoreNodesKeep(h, factor, m, e);
    } else if e.i < |m.threads| {
      var (m', pc) := (Moved(h, factor, m, e), m.threads[e.i]);
      if e.Stick? && pc.Picked? {
        StickKeepsIff(m, m', e.i);
      } else if e.Sweep? && pc.Sweeping? {
        SweepKeeps(m, m', e.i);
      } else if e.Remove? && pc == Idle {
        RemoveKeepsAccounted(h, factor, m, m', e.i, e.id);
      } else if m' != m {
        QuietMoveKeeps(m, m', e.i);
      }
    }
  }

  lemma MoreNodesKeep(h: Hashes, factor: int, m: Machine, e: Move)
    requires Accounted(m) && !OfThread(e)
    ensures Accounted(Next(h, factor, m, e))
  {
    hide AddNode;
    if e.AddMove? {
      AddGivesNode(h, factor, m.rt.ring, e.node);
    }
  }

  ghost predicate AccountedThroughout(h: Hashes, factor: int, m: Machine, es: seq<Move>) {
    Accounted(Run(h, factor, m, es)) && (es != [] ==> AccountedThroughout(h, factor, m, es[..|es| - 1]))
  }

  ghost predicate NeverLate(h: Hashes, factor: int, m: Machine, es: seq<Move>) {
    es != [] ==> NeverLate(h, factor, m, es[..|es| - 1]) && !Late(Run(h, factor, m, es[..|es| - 1]), es[|es| - 1])
  }

  /** In every interleaving: sticky entries name live nodes or nodes about to be swept, if and only if no
      session sticks to a node whose removal ran to its end between the pick and the sticking. */
  lemma {:induction false} AccountedIff(h: Hashes, factor: int, m: Machine, es: seq<Move>)
    requires Accounted(m)
    ensures AccountedThroughout(h, factor, m, es) <==> NeverLate(h, factor, m, es)
  {
    hide Accounted, Late, Next;
    if es == [] {
    } else {
      var k := |es| - 1;
      AccountedIff(h, factor, m, es[..k]);
      if AccountedThroughout(h, factor, m, es[..k]) {
        MoveKeepsAccountedIff(h, factor, Run(h, factor, m, es[..k]), es[k]);
      }
    }
  }

  /** The removal's last step does not overtake a pick of that node. */
  ghost predicate Waits(h: Hashes, factor: int, loadFactor: real, m: Machine, e: Move) {
    && LegalMove(h, factor, loadFactor, m, e)
    && (e.Sweep? && e.i < |m.threads| && m.threads[e.i].Sweeping? ==>
          forall j :: 0 <= j < |m.threads| ==> !(m.threads[j].Picked? && m.threads[j].id == m.threads[e.i].id))
  }

  /** What is picked is live or about to be swept. */
  ghost predicate PicksHold(m: Machine) {
    forall j :: 0 <= j < |m.threads| && m.threads[j].Picked? ==>
      m.threads[j].id in m.rt.ring.nodes || BeingSwept(m, m.threads[j].id)
  }

  lemma WaitingKeepsPicks(h: Hashes, factor: int, loadFactor: real, m: Machine, e: Move)
    requires PicksHold(m) && Waits(h, factor, loadFactor, m, e)
    ensures PicksHold(Next(h, factor, m, e)) && !Late(m, e)
  {
    hide AddNode, RemoveNode, Inv, Chosen;
    if e.AddMove? {
      AddGivesNode(h, factor, m.rt.ring, e.node);
    } else if OfThread(e) && e.i < |m.threads| {
      var (m', pc) := (Moved(h, factor, m, e), m.threads[e.i]);
      if e.Remove? {
        RemoveTakesNode(h, factor, m.rt.ring, e.id);
      }
      if e.Pick? && pc.Picking? && e.pick.Some? {
        ChosenIsLive(h, factor, m.rt.ring, loadFactor, h.key(pc.sid), e.pick);
      }
      forall j | 0 <= j < |m'.threads| && m'.threads[j].Picked?
        ensures m'.threads[j].id in m'.rt.ring.nodes || BeingSwept(m', m'.threads[j].id)
      {
        SweptAfter(m.threads, e.i, m'.threads[e.i], m'.threads[j].id);
      }
    }
  }

  lemma ChosenIsLive(h: Hashes, factor: int, r: Ring, loadFactor: real, hash: Point, pick: Option<string>)
    requires Inv(h, factor, r) && Chosen(h, factor, r, loadFactor, hash, pick)
    ensures pick.Some? ==> pick.value in r.nodes
  {
    hide Inv;
    if r.ring != [] {
      ChosenIsHealthyIff(h, factor, r, loadFactor, hash, pick);
    }
  }

  ghost predicate AllWait(h: Hashes, factor: int, loadFactor: real, m: Machine, es: seq<Move>) {
    es != [] ==>
      AllWait(h, factor, loadFactor, m, es[..|es| - 1]) &&
        Waits(h, factor, loadFactor, Run(h, factor, m, es[..|es| - 1]), es[|es| - 1])
  }

  /** When no removal of a node ends while the node is picked but not yet stuck to, sticky entries are
      accounted for throughout. */
  lemma {:induction false} WaitingIsAccounted(h: Hashes, factor: int, loadFactor: real, threads: nat, es: seq<Move>)
    requires AllWait(h, factor, loadFactor, Start(threads), es)
    ensures PicksHold(Run(h, factor, Start(threads), es)) && NeverLate(h, factor, Start(threads), es)
    ensures AccountedThroughout(h, factor, Start(threads), es)
  {
    var m := Start(threads);
    assert PicksHold(m) && Accounted(m);
    hide PicksHold, Accounted, Late, Next, Waits, Start;
    if es == [] {
    } else {
      var k := |es| - 1;
      WaitingIsAccounted(h, factor, loadFactor, threads, es[..k]);
      WaitingKeepsPicks(h, factor, loadFactor, Run(h, factor, m, es[..k]), es[k]);
    }
    AccountedIff(h, factor, m, es);
  }

  // ---- Loads and stuck sessions

  /** Loads about to be counted, less those about to be given back. */
  ghost function Pending(threads: seq<Pc>, id: string): int {
    multiset(threads)[Counting(id)] as int - multiset(threads)[Unstuck(id)] as int
  }

  /** What a node carries, or is about to, beyond the sessions stuck to it. */
  ghost function Slack(m: Machine, id: string): int
    requires id in m.rt.ring.nodeLoad
  {
    m.rt.ring.nodeLoad[id] + Pending(m.threads, id) - |Stuck(m.rt.sticky, id)|
  }

  ghost predicate Keyed(m: Machine) {
    m.rt.ring.nodeLoad.Keys == m.rt.ring.nodes.Keys
  }

  ghost predicate Covered(m: Machine)
    requires Keyed(m)
  {
    forall id <- m.rt.ring.nodeLoad :: Slack(m, id) >= 0
  }

  ghost predicate Exactly(m: Machine)
    requires Keyed(m)
  {
    forall id <- m.rt.ring.nodeLoad :: Slack(m, id) == 0
  }

  /** What a step adds to the slack of a node that is there before and after. */
  ghost function Drift(m: Machine, e: Move, id: string): nat
    requires id in m.rt.ring.nodeLoad
  {
    if !OfThread(e) || e.i >= |m.threads| then 0
    else
      var pc := m.threads[e.i];
      if e.Stick? && pc.Picked? && pc.sid in m.rt.sticky && m.rt.sticky[pc.sid] == id then 1
      else if e.Uncount? && pc == Unstuck(id) && m.rt.ring.nodeLoad[id] <= 0 then 1
      else if e.Sweep? && pc == Sweeping(id) then |Stuck(m.rt.sticky, id)|
      else 0
  }

  lemma PendingAfter(threads: seq<Pc>, i: nat, pc: Pc, id: string)
    requires i < |threads|
    ensures Pending(threads[i := pc], id) == Pending(threads, id)
              + (if pc == Counting(id) then 1 else 0) - (if threads[i] == Counting(id) then 1 else 0)
              - (if pc == Unstuck(id) then 1 else 0) + (if threads[i] == Unstuck(id) then 1 else 0)
  {
    ThreadsAfter(threads, i, pc, Counting(id));
    ThreadsAfter(threads, i, pc, Unstuck(id));
  }

  lemma SweptStuck(sticky: map<string, string>, n: string, id: string)
    ensures |Stuck(Swept(sticky, n), id)| == if id == n then 0 else |Stuck(sticky, id)|
  {
    if id == n {
      assert Stuck(Swept(sticky, n), id) == {};
    } else {
      assert Stuck(Swept(sticky, n), id) == Stuck(sticky, id);
    }
  }

  lemma RemoveKeepsLoads(h: Hashes, factor: int, r: Ring, id: string)
    requires r.nodeLoad.Keys == r.nodes.Keys
    ensures RemoveNode(h, factor, r, id).nodeLoad == r.nodeLoad - {id}
  {}

  lemma AddKeepsLoads(h: Hashes, factor: int, r: Ring, node: Node)
    ensures AddNode(h, factor, r, node).nodeLoad == if node.id in r.nodes then r.nodeLoad else r.nodeLoad[node.id := 0]
  {}

  /** The sticky map after a step. */
  lemma MoveStuck(h: Hashes, factor: int, m: Machine, e: Move, id: string)
    requires OfThread(e) && e.i < |m.threads|
    ensures var pc := m.threads[e.i];
            |Stuck(Moved(h, factor, m, e).rt.sticky, id)| == |Stuck(m.rt.sticky, id)| + (
              if e.Stick? && pc.Picked? then
                (if id == pc.id then 1 else 0) - (if pc.sid in m.rt.sticky && m.rt.sticky[pc.sid] == id then 1 else 0)
              else if e.Unstick? && pc == Idle && e.sid in m.rt.sticky && m.rt.sticky[e.sid] == id then -1
              else if e.Sweep? && pc == Sweeping(id) then -|Stuck(m.rt.sticky, id)|
              else 0)
  {
    hide RemoveNode, Increment, Decrement, Swept, Stuck;
    var pc := m.threads[e.i];
    if e.Stick? && pc.Picked? {
      StuckAdd(m.rt.sticky, pc.sid, pc.id, id);
    } else if e.Unstick? && pc == Idle && e.sid in m.rt.sticky {
      StuckRemove(m.rt.sticky, e.sid, id);
    } else if e.Sweep? && pc.Sweeping? {
      SweptStuck(m.rt.sticky, pc.id, id);
    }
  }

  /** The loads after a step. */
  lemma MoveLoads(h: Hashes, factor: int, m: Machine, e: Move, id: string)
    requires Keyed(m) && OfThread(e) && e.i < |m.threads| && id in m.rt.ring.nodeLoad
    ensures var (load, pc) := (Moved(h, factor, m, e).rt.ring.nodeLoad, m.threads[e.i]);
            && (id in load <==> !(e.Remove? && pc == Idle && e.id == id))
            && (id in load ==>
                  load[id] - m.rt.ring.nodeLoad[id] ==
                    if e.Count? && pc == Counting(id) then 1
                    else if e.Uncount? && pc == Unstuck(id) && m.rt.ring.nodeLoad[id] > 0 then -1
                    else 0)
  {
    hide RemoveNode, Swept;
    if e.Remove? {
      RemoveKeepsLoads(h, factor, m.rt.ring, e.id);
    }
  }

  /** The calls under way after a step. */
  lemma MovePending(h: Hashes, factor: int, m: Machine, e: Move, id: string)
    requires OfThread(e) && e.i < |m.threads|
    ensures var pc := m.threads[e.i];
            Pending(Moved(h, factor, m, e).threads, id) == Pending(m.threads, id) + (
              if e.Stick? && pc.Picked? && pc.id == id then 1
              else if e.Count? && pc == Counting(id) then -1
              else if e.Unstick? && pc == Idle && e.sid in m.rt.sticky && m.rt.sticky[e.sid] == id then -1
              else if e.Uncount? && pc == Unstuck(id) then 1
              else 0)
  {
    hide RemoveNode, Increment, Decrement, Swept, Pending;
    var m' := Moved(h, factor, m, e);
    assert m'.threads == m.threads[e.i := m'.threads[e.i]];
    PendingAfter(m.threads, e.i, m'.threads[e.i], id);
  }

  lemma MoveSlack(h: Hashes, factor: int, m: Machine, e: Move, id: string)
    requires Keyed(m) && id in m.rt.ring.nodeLoad && id in Next(h, factor, m, e).rt.ring.nodeLoad
    ensures Slack(Next(h, factor, m, e), id) == Slack(m, id) + Drift(m, e, id)
  {
    hide AddNode, Moved, Stuck, Pending;
    if e.AddMove? {
      AddKeepsLoads(h, factor, m.rt.ring, e.node);
    } else if OfThread(e) && e.i < |m.threads| {
      MoveStuck(h, factor, m, e, id);
      MoveLoads(h, factor, m, e, id);
      MovePending(h, factor, m, e, id);
    }
  }

  lemma NextKeys(h: Hashes, factor: int, m: Machine, e: Move)
    requires Keyed(m)
    ensures var m' := Next(h, factor, m, e);
            && Keyed(m')
            && forall id <- m'.rt.ring.nodeLoad :: id in m.rt.ring.nodeLoad || (e.AddMove? && id == e.node.id)
  {
    hide Stuck, Pending, Swept, AddNode, RemoveNode;
    if e.AddMove? {
      AddGivesNode(h, factor, m.rt.ring, e.node);
      AddKeepsLoads(h, factor, m.rt.ring, e.node);
    } else if e.Remove? {
      RemoveTakesNode(h, factor, m.rt.ring, e.id);
      RemoveKeepsLoads(h, factor, m.rt.ring, e.id);
    }
  }

  /** A node comes back to which sessions are stuck that nobody is about to count. */
  ghost predicate ReturnsShort(m: Machine, e: Move) {
    e.AddMove? && e.node.id !in m.rt.ring.nodes && Pending(m.threads, e.node.id) < |Stuck(m.rt.sticky, e.node.id)|
  }

  /** A session moves off a live node without giving its load back, a load is given back before it was counted,
      a sweep meets a node that has come back, or a node comes back with sessions or counts left over. */
  ghost predicate Drifts(m: Machine, e: Move) {
    match e
    case AddMove(node) => node.id !in m.rt.ring.nodes && Pending(m.threads, node.id) != |Stuck(m.rt.sticky, node.id)|
    case Stick(i) =>
      i < |m.threads| && m.threads[i].Picked? && m.threads[i].sid in m.rt.sticky &&
        m.rt.sticky[m.threads[i].sid] in m.rt.ring.nodeLoad
    case Uncount(i) =>
      i < |m.threads| && m.threads[i].Unstuck? && m.threads[i].id in m.rt.ring.nodeLoad &&
        m.rt.ring.nodeLoad[m.threads[i].id] <= 0
    case Sweep(i) =>
      i < |m.threads| && m.threads[i].Sweeping? && m.threads[i].id in m.rt.ring.nodeLoad &&
        Stuck(m.rt.sticky, m.threads[i].id) != {}
    case _ => false
  }

  lemma NewSlack(h: Hashes, factor: int, m: Machine, node: Node)
    requires Keyed(m) && node.id !in m.rt.ring.nodes
    ensures var m' := Next(h, factor, m, AddMove(node));
            node.id in m'.rt.ring.nodeLoad && Slack(m', node.id) ==
              Pending(m.threads, node.id) - |Stuck(m.rt.sticky, node.id)|
  {
    hide AddNode, Stuck, Pending;
    AddKeepsLoads(h, factor, m.rt.ring, node);
  }

  /** Loads with pending counts cover the stuck sessions after a step, if and only if the step brings no node
      back short. */
  lemma MoveKeepsCoveredIff(h: Hashes, factor: int, m: Machine, e: Move)
    requires Keyed(m) && Covered(m)
    ensures Keyed(Next(h, factor, m, e))
    ensures Covered(Next(h, factor, m, e)) <==> !ReturnsShort(m, e)
  {
    hide Next, Slack, Stuck, Pending;
    NextKeys(h, factor, m, e);
    forall id | id in m.rt.ring.nodeLoad && id in Next(h, factor, m, e).rt.ring.nodeLoad
      ensures Slack(Next(h, factor, m, e), id) >= 0
    {
      MoveSlack(h, factor, m, e, id);
    }
    if e.AddMove? && e.node.id !in m.rt.ring.nodes {
      NewSlack(h, factor, m, e.node);
    }
  }

  /** They equal the stuck sessions after a step, if and only if the step does not drift. */
  lemma MoveKeepsExactlyIff(h: Hashes, factor: int, m: Machine, e: Move)
    requires Keyed(m) && Exactly(m)
    ensures Keyed(Next(h, factor, m, e))
    ensures Exactly(Next(h, factor, m, e)) <==> !Drifts(m, e)
  {
    NextKeys(h, factor, m, e);
    var m' := Next(h, factor, m, e);
    forall id | id in m.rt.ring.nodeLoad && id in m'.rt.ring.nodeLoad
      ensures Slack(m', id) == Drift(m, e, id)
    {
      MoveSlack(h, factor, m, e, id);
    }
    if Drifts(m, e) {
      DriftShows(h, factor, m, e);
    } else {
      hide Next, Slack, Stuck, Pending;
      if e.AddMove? && e.node.id !in m.rt.ring.nodes {
        NewSlack(h, factor, m, e.node);
      }
      forall id | id in m'.rt.ring.nodeLoad ensures Slack(m', id) == 0 {
        if id in m.rt.ring.nodeLoad {
          NoDrift(m, e, id);
        }
      }
    }
  }

  lemma NoDrift(m: Machine, e: Move, id: string)
    requires !Drifts(m, e) && id in m.rt.ring.nodeLoad
    ensures Drift(m, e, id) == 0
  {}

  lemma DriftShows(h: Hashes, factor: int, m: Machine, e: Move)
    requires Keyed(m) && Exactly(m) && Drifts(m, e) && Keyed(Next(h, factor, m, e))
    ensures !Exactly(Next(h, factor, m, e))
  {
    hide AddNode, RemoveNode, Stuck, Pending, Swept;
    var m' := Next(h, factor, m, e);
    if e.AddMove? {
      NewSlack(h, factor, m, e.node);
    } else {
      var pc := m.threads[e.i];
      var id := if e.Stick? then m.rt.sticky[pc.sid] else pc.id;
      MoveSlack(h, factor, m, e, id);
      assert Slack(m', id) != 0;
    }
  }

  ghost predicate CoveredThroughout(h: Hashes, factor: int, m: Machine, es: seq<Move>) {
    && Keyed(Run(h, factor, m, es)) && Covered(Run(h, factor, m, es))
    && (es != [] ==> CoveredThroughout(h, factor, m, es[..|es| - 1]))
  }

  ghost predicate NeverShort(h: Hashes, factor: int, m: Machine, es: seq<Move>) {
    es != [] ==>
      && NeverShort(h, factor, m, es[..|es| - 1])
      && !ReturnsShort(Run(h, factor, m, es[..|es| - 1]), es[|es| - 1])
  }

  ghost predicate ExactlyThroughout(h: Hashes, factor: int, m: Machine, es: seq<Move>) {
    && Keyed(Run(h, factor, m, es)) && Exactly(Run(h, factor, m, es))
    && (es != [] ==> ExactlyThroughout(h, factor, m, es[..|es| - 1]))
  }

  ghost predicate NeverDrifts(h: Hashes, factor: int, m: Machine, es: seq<Move>) {
    es != [] ==> NeverDrifts(h, factor, m, es[..|es| - 1]) && !Drifts(Run(h, factor, m, es[..|es| - 1]), es[|es| - 1])
  }

  /** In every interleaving: loads with pending counts cover the stuck sessions throughout, if and only if no
      node comes back short; they equal them throughout, if and only if no step drifts. */
  lemma {:induction false} LoadsIff(h: Hashes, factor: int, m: Machine, es: seq<Move>)
    requires Keyed(m)
    ensures Keyed(Run(h, factor, m, es))
    ensures Covered(m) ==> (CoveredThroughout(h, factor, m, es) <==> NeverShort(h, factor, m, es))
    ensures Exactly(m) ==> (ExactlyThroughout(h, factor, m, es) <==> NeverDrifts(h, factor, m, es))
  {
    hide Keyed, Covered, Exactly, Drifts, ReturnsShort, Next;
    if es == [] {
    } else {
      var k := |es| - 1;
      LoadsIff(h, factor, m, es[..k]);
      var mid := Run(h, factor, m, es[..k]);
      NextKeys(h, factor, mid, es[k]);
      if Covered(mid) {
        MoveKeepsCoveredIff(h, factor, mid, es[k]);
      }
      if Exactly(mid) {
        MoveKeepsExactlyIff(h, factor, mid, es[k]);
      }
    }
  }

  ghost predicate Quiet(m: Machine) {
    forall i :: 0 <= i < |m.threads| ==> m.threads[i] == Idle
  }

  /** Whenever no call is under way, the router's accounts are those of calls made one after another, provided
      no step was late and no node came back short; and exact if no step drifted. */
  lemma QuietAccounts(h: Hashes, factor: int, threads: nat, es: seq<Move>)
    requires NeverLate(h, factor, Start(threads), es) && NeverShort(h, factor, Start(threads), es)
    requires Quiet(Run(h, factor, Start(threads), es))
    ensures RInv(h, factor, Run(h, factor, Start(threads), es).rt)
    ensures NeverDrifts(h, factor, Start(threads), es) ==> Exact(Run(h, factor, Start(threads), es).rt)
  {
    var m := Start(threads);
    assert Accounted(m) && Keyed(m) && Covered(m) && Exactly(m);
    RingAlwaysSound(h, factor, threads, es);
    AccountedIff(h, factor, m, es);
    LoadsIff(h, factor, m, es);
    QuietIsInv(h, factor, Run(h, factor, m, es));
  }

  lemma QuietIsInv(h: Hashes, factor: int, m: Machine)
    requires Inv(h, factor, m.rt.ring) && Accounted(m) && Keyed(m) && Covered(m) && Quiet(m)
    ensures RInv(h, factor, m.rt)
    ensures Exactly(m) ==> Exact(m.rt)
  {
    hide Inv, Stuck;
    forall id ensures Counting(id) !in m.threads && Unstuck(id) !in m.threads {
    }
    forall id <- m.rt.ring.nodes ensures Slack(m, id) == m.rt.ring.nodeLoad[id] - |Stuck(m.rt.sticky, id)| {
      assert Counting(id) !in multiset(m.threads) && Unstuck(id) !in multiset(m.threads);
    }
  }

  // ---- One call alone

  lemma RunOfTwo(h: Hashes, factor: int, m: Machine, a: Move, b: Move)
    ensures Run(h, factor, m, [a, b]) == Next(h, factor, Next(h, factor, m, a), b)
  {
    hide Next;
    assert [a][..0] == [] && Run(h, factor, m, [a]) == Next(h, factor, m, a);
    assert [a, b][..1] == [a];
  }

  lemma RunOfFive(h: Hashes, factor: int, m: Machine, a: Move, b: Move, c: Move, d: Move, e: Move)
    ensures var m' := Run(h, factor, m, [a, b]);
            Run(h, factor, m, [a, b, c, d, e]) == Next(h, factor, Next(h, factor, Next(h, factor, m', c), d), e)
  {
    hide Next;
    var m' := Run(h, factor, m, [a, b]);
    assert [a, b, c][..2] == [a, b] && Run(h, factor, m, [a, b, c]) == Next(h, factor, m', c);
    assert [a, b, c, d][..3] == [a, b, c] && Run(h, factor, m, [a, b, c, d]) ==
           Next(h, factor, Next(h, factor, m', c), d);
    assert [a, b, c, d, e][..4] == [a, b, c, d];
  }

  lemma RunOfSix(h: Hashes, factor: int, m: Machine, a: Move, b: Move, c: Move, d: Move, e: Move, f: Move)
    ensures Run(h, factor, m, [a, b, c, d, e, f]) == Next(h, factor, Run(h, factor, m, [a, b, c, d, e]), f)
  {
    hide Next;
    assert [a, b, c, d, e, f][..5] == [a, b, c, d, e];
  }

  /** A routing call whose steps nothing comes between is the serial one. */
  lemma RouteAlone(h: Hashes, factor: int, m: Machine, i: nat, sid: string, pick: Option<string>)
    requires i < |m.threads| && m.threads[i] == Idle
    ensures Run(h, factor, m, [Read(i, sid), Verify(i), Pick(i, pick), Stick(i), Count(i)]) ==
            m.(rt := Route(m.rt, sid, pick).0)
  {
    hide Increment;
    RunOfTwo(h, factor, m, Read(i, sid), Verify(i));
    RunOfFive(h, factor, m, Read(i, sid), Verify(i), Pick(i, pick), Stick(i), Count(i));
    assert forall pc: Pc, pc': Pc {:trigger m.threads[i := pc][i := pc']} ::
           m.threads[i := pc][i := pc'] == m.threads[i := pc'];
    assert m.threads[i := Idle] == m.threads;
  }

  lemma EndAlone(h: Hashes, factor: int, m: Machine, i: nat, sid: string)
    requires i < |m.threads| && m.threads[i] == Idle
    ensures Run(h, factor, m, [Unstick(i, sid), Uncount(i)]) == m.(rt := End(m.rt, sid))
  {
    hide Decrement;
    RunOfTwo(h, factor, m, Unstick(i, sid), Uncount(i));
    if sid in m.rt.sticky {
      assert m.threads[i := Unstuck(m.rt.sticky[sid])][i := Idle] == m.threads;
    }
  }

  lemma DropAlone(h: Hashes, factor: int, m: Machine, i: nat, id: string)
    requires i < |m.threads| && m.threads[i] == Idle
    ensures Run(h, factor, m, [Remove(i, id), Sweep(i)]) == m.(rt := Drop(h, factor, m.rt, id))
  {
    hide RemoveNode;
    RunOfTwo(h, factor, m, Remove(i, id), Sweep(i));
    assert m.threads[i := Sweeping(id)][i := Idle] == m.threads;
  }

  // ---- Calls that overlap

  ghost predicate Lawful(h: Hashes, factor: int, loadFactor: real, m: Machine, es: seq<Move>) {
    es != [] ==>
      && Lawful(h, factor, loadFactor, m, es[..|es| - 1])
      && LegalMove(h, factor, loadFactor, Run(h, factor, m, es[..|es| - 1]), es[|es| - 1])
  }

  /** A removal that runs to its end between a pick and the sticking. */
  function LateRun(i: nat, j: nat, sid: string, n: string): seq<Move> {
    [Read(i, sid), Pick(i, Some(n)), Remove(j, n), Sweep(j), Stick(i), Count(i)]
  }

  lemma PicksAlone(h: Hashes, factor: int, m: Machine, i: nat, sid: string, n: string)
    requires i < |m.threads| && m.threads[i] == Idle && sid !in m.rt.sticky
    ensures Run(h, factor, m, [Read(i, sid), Pick(i, Some(n))]) == Goes(m, i, Picked(sid, n))
  {
    RunOfTwo(h, factor, m, Read(i, sid), Pick(i, Some(n)));
    assert m.threads[i := Picking(sid)][i := Picked(sid, n)] == m.threads[i := Picked(sid, n)];
  }

  /** It leaves the session stuck to a node that is gone, with no call under way. */
  lemma LateStick(h: Hashes, factor: int, m: Machine, i: nat, j: nat, sid: string, n: string)
    requires i < |m.threads| && j < |m.threads| && i != j && m.threads[i] == Idle && m.threads[j] == Idle
    requires Keyed(m) && sid !in m.rt.sticky
    ensures var m' := Run(h, factor, m, LateRun(i, j, sid, n));
            && m'.threads == m.threads && sid in m'.rt.sticky && m'.rt.sticky[sid] == n && n !in m'.rt.ring.nodes
            && (Quiet(m) ==> !Accounted(m'))
  {
    hide RemoveNode, Swept;
    PicksAlone(h, factor, m, i, sid, n);
    RunOfFive(h, factor, m, Read(i, sid), Pick(i, Some(n)), Remove(j, n), Sweep(j), Stick(i));
    RunOfSix(h, factor, m, Read(i, sid), Pick(i, Some(n)), Remove(j, n), Sweep(j), Stick(i), Count(i));
    RemoveTakesNode(h, factor, m.rt.ring, n);
    var t := m.threads;
    assert t[i := Picked(sid, n)][j := Sweeping(n)][j := Idle] == t[i := Picked(sid, n)];
    assert t[i := Picked(sid, n)][i := Counting(n)][i := Idle] == t;
  }

  /** A session that is ended between the sticking and the counting. */
  function EarlyEndRun(i: nat, j: nat, sid: string, n: string): seq<Move> {
    [Read(i, sid), Pick(i, Some(n)), Stick(i), Unstick(j, sid), Uncount(j), Count(i)]
  }

  /** On a node without load it leaves one that no session holds, with no call under way. */
  lemma EarlyEndLeaks(h: Hashes, factor: int, m: Machine, i: nat, j: nat, sid: string, n: string)
    requires i < |m.threads| && j < |m.threads| && i != j && m.threads[i] == Idle && m.threads[j] == Idle
    requires sid !in m.rt.sticky && n in m.rt.ring.nodeLoad && m.rt.ring.nodeLoad[n] == 0
    ensures Run(h, factor, m, EarlyEndRun(i, j, sid, n)) == m.(rt := m.rt.(ring := Increment(m.rt.ring, n)))
  {
    hide Increment;
    PicksAlone(h, factor, m, i, sid, n);
    RunOfFive(h, factor, m, Read(i, sid), Pick(i, Some(n)), Stick(i), Unstick(j, sid), Uncount(j));
    RunOfSix(h, factor, m, Read(i, sid), Pick(i, Some(n)), Stick(i), Unstick(j, sid), Uncount(j), Count(i));
    var t := m.threads;
    var stuck := Goes(m, i, Counting(n)).(rt := m.rt.(sticky := m.rt.sticky[sid := n]));
    assert t[i := Picked(sid, n)][i := Counting(n)] == t[i := Counting(n)];
    assert Next(h, factor, Goes(m, i, Picked(sid, n)), Stick(i)) == stuck;
    hide Run;
    assert m.rt.sticky[sid := n] - {sid} == m.rt.sticky;
    assert Next(h, factor, stuck, Unstick(j, sid)) == Machine(m.rt, t[i := Counting(n)][j := Unstuck(n)]);
    assert t[i := Counting(n)][j := Unstuck(n)][j := Idle] == t[i := Counting(n)];
    assert t[i := Counting(n)][i := Idle] == t;
  }

  /** Some pick is always legal. */
  lemma PickExists(h: Hashes, factor: int, r: Ring, loadFactor: real, hash: Point) returns (pick: Option<string>)
    requires Inv(h, factor, r)
    ensures Chosen(h, factor, r, loadFactor, hash, pick)
  {
    hide FirstSuitable, MaxLoad, StartIndex, Sum, Sorted, PointSet;
    if r.ring == [] {
      return None;
    }
    NodesLive(h, factor, r);
    assert forall p <- r.ring :: p in r.ringNodes;
    var first := FirstSuitable(r, StartIndex(r, hash), 0, |r.ring|, MaxLoad(r, loadFactor));
    if first.Some? {
      return first;
    } else if AnyHealthy(r) {
      var id :| id in r.nodes && r.nodes[id].healthy;
      return Some(id);
    }
    return OwnerAt(r, hash);
  }

  /** The only node is the only pick: a first read and pick of it, and no pick after them, is lawful from the start. */
  lemma FirstPickIsLawful(h: Hashes, factor: int, loadFactor: real, node: Node, sid: string, rest: seq<Move>)
    requires Replicas(factor, node) > 0 && forall e <- rest :: !e.Pick?
    ensures Lawful(h, factor, loadFactor, Start(2), [AddMove(node)] + ([Read(0, sid), Pick(0, Some(node.id))] + rest))
  {
    hide AddNode, Chosen, Inv, Lawful;
    var m := Next(h, factor, Start(2), AddMove(node));
    FirstNode(h, factor, node);
    var pick := PickExists(h, factor, m.rt.ring, loadFactor, h.key(sid));
    ChosenIsHealthyIff(h, factor, m.rt.ring, loadFactor, h.key(sid), pick);
    assert pick == Some(node.id);
    PickIsLawful(h, factor, loadFactor, m, sid, node.id);
    NoPickIsLawful(h, factor, loadFactor, m, [Read(0, sid), Pick(0, Some(node.id))], rest);
    LawfulFrom(h, factor, loadFactor, Start(2), AddMove(node), [Read(0, sid), Pick(0, Some(node.id))] + rest);
  }

  /** The first node of any router can be removed so late: a lawful run of two threads from the start after which
      no call is under way and the session is stuck to a node that is gone. */
  lemma LateStickHappens(h: Hashes, factor: int, loadFactor: real, node: Node, sid: string)
    requires Replicas(factor, node) > 0
    ensures var es := [AddMove(node)] + LateRun(0, 1, sid, node.id);
            && Lawful(h, factor, loadFactor, Start(2), es)
            && Quiet(Run(h, factor, Start(2), es))
            && !RInv(h, factor, Run(h, factor, Start(2), es).rt)
  {
    hide AddNode, Lawful, Run, LateRun;
    var late := LateRun(0, 1, sid, node.id);
    var m := Next(h, factor, Start(2), AddMove(node));
    FirstNode(h, factor, node);
    LateStick(h, factor, m, 0, 1, sid, node.id);
    RunAfter(h, factor, Start(2), AddMove(node), late);
    LateIsLawful(h, factor, loadFactor, node, sid);
  }

  lemma LateIsLawful(h: Hashes, factor: int, loadFactor: real, node: Node, sid: string)
    requires Replicas(factor, node) > 0
    ensures Lawful(h, factor, loadFactor, Start(2), [AddMove(node)] + LateRun(0, 1, sid, node.id))
  {
    hide Lawful;
    var rest := [Remove(1, node.id), Sweep(1), Stick(0), Count(0)];
    FirstPickIsLawful(h, factor, loadFactor, node, sid, rest);
    assert LateRun(0, 1, sid, node.id) == [Read(0, sid), Pick(0, Some(node.id))] + rest;
  }

  /** When that node comes back, it carries less load than the sessions stuck to it: a lawful run of two threads
      from the start after which no call is under way and loads no longer cover the sessions. */
  lemma NodeComesBackShort(h: Hashes, factor: int, loadFactor: real, node: Node, sid: string)
    requires Replicas(factor, node) > 0
    ensures var es := [AddMove(node)] + LateRun(0, 1, sid, node.id) + [AddMove(node)];
            var m := Run(h, factor, Start(2), es);
            && Lawful(h, factor, loadFactor, Start(2), es) && Quiet(m)
            && node.id in m.rt.ring.nodes && node.id in m.rt.ring.nodeLoad && m.rt.ring.nodeLoad[node.id] == 0
            && sid in Stuck(m.rt.sticky, node.id) && Keyed(m) && !Covered(m)
  {
    hide AddNode, Lawful, Run, LateRun, Inv, RInv;
    var late := [AddMove(node)] + LateRun(0, 1, sid, node.id);
    var m0 := Next(h, factor, Start(2), AddMove(node));
    FirstNode(h, factor, node);
    LateStick(h, factor, m0, 0, 1, sid, node.id);
    RunAfter(h, factor, Start(2), AddMove(node), LateRun(0, 1, sid, node.id));
    LateIsLawful(h, factor, loadFactor, node, sid);
    var m := Run(h, factor, Start(2), late);
    NoPickIsLawful(h, factor, loadFactor, Start(2), late, [AddMove(node)]);
    RunSnoc(h, factor, Start(2), late, AddMove(node));
    RingAlwaysSound(h, factor, 2, late);
    LoadsKeyed(h, factor, m.rt.ring);
    AddKeepsLoads(h, factor, m.rt.ring, node);
    AddGivesNode(h, factor, m.rt.ring, node);
    NewSlack(h, factor, m, node);
    NextKeys(h, factor, m, AddMove(node));
    NonePending(m, node.id);
    assert sid in Stuck(m.rt.sticky, node.id);
    assert |Stuck(m.rt.sticky, node.id)| > 0;
  }

  lemma NonePending(m: Machine, id: string)
    requires Quiet(m)
    ensures Pending(m.threads, id) == 0
  {
    assert Counting(id) !in m.threads && Unstuck(id) !in m.threads;
    assert Counting(id) !in multiset(m.threads) && Unstuck(id) !in multiset(m.threads);
  }

  /** Ending a session early leaks a load on the first node of any router: a lawful run of two threads from the
      start after which no call is under way, no session is stuck, and the node carries a load. */
  lemma EarlyEndHappens(h: Hashes, factor: int, loadFactor: real, node: Node, sid: string)
    requires Replicas(factor, node) > 0
    ensures var es := [AddMove(node)] + EarlyEndRun(0, 1, sid, node.id);
            var m := Run(h, factor, Start(2), es);
            && Lawful(h, factor, loadFactor, Start(2), es) && Quiet(m) && m.rt.sticky == map[]
            && node.id in m.rt.ring.nodeLoad && m.rt.ring.nodeLoad[node.id] == 1 && m.rt.ring.totalLoad == 1
  {
    hide AddNode, Lawful, Run;
    var m := Next(h, factor, Start(2), AddMove(node));
    var rest := [Stick(0), Unstick(1, sid), Uncount(1), Count(0)];
    FirstNode(h, factor, node);
    FirstLoad(h, factor, node);
    FirstPickIsLawful(h, factor, loadFactor, node, sid, rest);
    assert EarlyEndRun(0, 1, sid, node.id) == [Read(0, sid), Pick(0, Some(node.id))] + rest;
    hide EarlyEndRun;
    EarlyEndLeaks(h, factor, m, 0, 1, sid, node.id);
    RunAfter(h, factor, Start(2), AddMove(node), EarlyEndRun(0, 1, sid, node.id));
  }

  lemma FirstLoad(h: Hashes, factor: int, node: Node)
    ensures var r := AddNode(h, factor, EMPTY, node);
            node.id in r.nodeLoad && r.nodeLoad[node.id] == 0 && r.totalLoad == 0
  {}

  lemma FirstNode(h: Hashes, factor: int, node: Node)
    requires Replicas(factor, node) > 0
    ensures var r := AddNode(h, factor, EMPTY, node);
            r.nodes == map[node.id := node] && r.ring != [] && Inv(h, factor, r) && r.nodeLoad.Keys == r.nodes.Keys
  {
    EmptyIsValid(h, factor);
    AddKeepsInv(h, factor, EMPTY, node);
    var points := Points(h, node.id, Replicas(factor, node));
    SortedMembers([], points);
    assert points[|points| - 1] in points;
  }

  lemma {:induction false} RunAfter(h: Hashes, factor: int, m: Machine, e: Move, es: seq<Move>)
    ensures Run(h, factor, m, [e] + es) == Run(h, factor, Next(h, factor, m, e), es)
  {
    hide Next;
    if es == [] {
      assert [e] + es == [e];
    } else {
      RunAfter(h, factor, m, e, es[..|es| - 1]);
      assert ([e] + es)[..|es|] == [e] + es[..|es| - 1];
    }
  }

  lemma {:induction false} LawfulFrom(h: Hashes, factor: int, loadFactor: real, m: Machine, e: Move, es: seq<Move>)
    requires LegalMove(h, factor, loadFactor, m, e) && Lawful(h, factor, loadFactor, Next(h, factor, m, e), es)
    ensures Lawful(h, factor, loadFactor, m, [e] + es)
  {
    hide Next, LegalMove;
    if es == [] {
      assert [e] + es == [e];
    } else {
      LawfulFrom(h, factor, loadFactor, m, e, es[..|es| - 1]);
      RunAfter(h, factor, m, e, es[..|es| - 1]);
      assert ([e] + es)[..|es|] == [e] + es[..|es| - 1];
    }
  }

  lemma LawfulMore(h: Hashes, factor: int, loadFactor: real, m: Machine, es: seq<Move>, e: Move)
    requires Lawful(h, factor, loadFactor, m, es) && LegalMove(h, factor, loadFactor, Run(h, factor, m, es), e)
    ensures Lawful(h, factor, loadFactor, m, es + [e])
  {
    hide LegalMove, Run;
    assert (es + [e])[..|es|] == es;
  }

  lemma PickIsLawful(h: Hashes, factor: int, loadFactor: real, m: Machine, sid: string, n: string)
    requires |m.threads| == 2 && m.threads[0] == Idle && sid !in m.rt.sticky
    requires Inv(h, factor, m.rt.ring) && Chosen(h, factor, m.rt.ring, loadFactor, h.key(sid), Some(n))
    ensures Lawful(h, factor, loadFactor, m, [Read(0, sid), Pick(0, Some(n))])
  {
    hide Chosen, Inv, Lawful;
    LawfulNothing(h, factor, loadFactor, Next(h, factor, m, Read(0, sid)));
    LawfulFrom(h, factor, loadFactor, m, Read(0, sid), []);
    assert [Read(0, sid)] + [] == [Read(0, sid)];
    RunOfRead(h, factor, m, sid);
    hide Run;
    LawfulMore(h, factor, loadFactor, m, [Read(0, sid)], Pick(0, Some(n)));
    assert [Read(0, sid)] + [Pick(0, Some(n))] == [Read(0, sid), Pick(0, Some(n))];
  }

  /** Only picks can be unlawful. */
  lemma {:induction false} NoPickIsLawful(h: Hashes, factor: int, loadFactor: real, m: Machine, es: seq<Move>,
                                          rest: seq<Move>)
    requires Lawful(h, factor, loadFactor, m, es) && forall e <- rest :: !e.Pick?
    ensures Lawful(h, factor, loadFactor, m, es + rest)
  {
    hide Run, Lawful;
    if rest == [] {
      assert es + rest == es;
    } else {
      var k := |rest| - 1;
      NoPickIsLawful(h, factor, loadFactor, m, es, rest[..k]);
      assert !rest[k].Pick?;
      LawfulMore(h, factor, loadFactor, m, es + rest[..k], rest[k]);
      assert es + rest[..k] + [rest[k]] == es + rest;
    }
  }

  lemma RunSnoc(h: Hashes, factor: int, m: Machine, es: seq<Move>, e: Move)
    ensures Run(h, factor, m, es + [e]) == Next(h, factor, Run(h, factor, m, es), e)
  {
    hide Next;
    assert (es + [e])[..|es|] == es;
  }

  lemma LawfulNothing(h: Hashes, factor: int, loadFactor: real, m: Machine)
    ensures Lawful(h, factor, loadFactor, m, [])
  {}

  lemma RunOfRead(h: Hashes, factor: int, m: Machine, sid: string)
    requires |m.threads| > 0 && m.threads[0] == Idle && sid !in m.rt.sticky
    ensures Run(h, factor, m, [Read(0, sid)]) == Goes(m, 0, Picking(sid))
  {
    assert [Read(0, sid)][..0] == [];
  }
}
