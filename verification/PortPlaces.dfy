/** Where every allocated port is, in every interleaving of calls to the port allocator. */
module PortPlaces {
  import opened Basics
  import opened PortSpec
  import opened PortThreads

  ghost predicate At(place: map<int, Place>, p: int, at: Place) {
    p in place && place[p] == at
  }

  /** The ports a call has reserved or taken and neither listed, pooled nor dropped yet. */
  function HandOf(pc: Pc): seq<int> {
    match pc
    case Reserved(_, port) => Pair(port)
    case Pushing(port, _) => Pair(port)
    case Dropping(todo) => todo
    case Recording(_, todo) => todo
    case Listing(_, port, todo) => [port] + todo
    case Tallying(_, todo) => todo
    case Using(_, todo) => todo
    case Bound(_, port) => [port]
    case _ => []
  }

  ghost predicate HandPlaced(place: map<int, Place>, i: nat, hand: seq<int>) {
    NoRepeat(hand) && forall p :: p in hand <==> At(place, p, InHand(i))
  }

  ghost predicate PoolPlaced(place: map<int, Place>, pool: seq<int>) {
    PoolDistinct(pool) && forall p :: Pooled(pool, p) <==> At(place, p, InPool)
  }

  /** The call has deleted the port but not yet unlisted it from the session. */
  predicate Awaits(pc: Pc, p: int, sid: string) {
    (pc.Deleted? || pc.Stamped?) && pc.port == p && pc.sid == sid
  }

  function One(b: bool): int {
    if b then 1 else 0
  }

  function Awaiting(threads: seq<Pc>, p: int, sid: string): nat {
    if threads == [] then 0
    else Awaiting(threads[..|threads| - 1], p, sid) + if Awaits(threads[|threads| - 1], p, sid) then 1 else 0
  }

  /** A session's list holds each port as often as the port is listed for it or about to be unlisted. */
  ghost predicate ListPlaced(m: Machine, sid: string, p: int) {
    multiset(SessionPorts(m.st, sid))[p] == One(At(m.place, p, Listed(sid))) + Awaiting(m.threads, p, sid)
  }

  predicate NamedPc(pc: Pc, owner: map<int, string>) {
    pc.Listing? || pc.Bound? ==> pc.port in owner && owner[pc.port] == pc.sid
  }

  ghost predicate Names(place: map<int, Place>, owner: map<int, string>) {
    forall p <- place :: p in owner && (place[p].Listed? ==> owner[p] == place[p].sid)
  }

  /** Every allocated port is in exactly one place: in one pooled pair, in the hands of one call, or listed once for
      the one session that owns it. */
  ghost predicate Exclusively(m: Machine) {
    && m.place.Keys == m.st.owner.Keys
    && Names(m.place, m.st.owner)
    && PoolPlaced(m.place, m.st.pool)
    && (forall i: nat | i < |m.threads| ::
          HandPlaced(m.place, i, HandOf(m.threads[i])) && NamedPc(m.threads[i], m.st.owner))
    && (forall p <- m.place :: m.place[p].InHand? ==> m.place[p].i < |m.threads|)
    && (forall sid, p :: sid != "" ==> ListPlaced(m, sid, p))
  }

  /** The port a step deletes for a release. */
  predicate Deletes(m: Machine, e: Move) {
    e.Go? && e.i < |m.threads| && !Blocked(m, e.i) && m.threads[e.i].Releasing? && m.threads[e.i].todo != [] &&
    m.threads[e.i].todo[0] in m.st.owner
  }

  /** The step deletes a port that is pooled or in the hands of a call. */
  predicate Premature(m: Machine, e: Move) {
    Deletes(m, e) && m.threads[e.i].todo[0] in m.place && !m.place[m.threads[e.i].todo[0]].Listed?
  }

  // ---- The hand of the thread that steps

  ghost predicate OthersKept(place: map<int, Place>, place': map<int, Place>, i: nat) {
    forall j: nat, p :: j != i ==> (At(place', p, InHand(j)) <==> At(place, p, InHand(j)))
  }

  /** The first port of a hand goes elsewhere. */
  lemma TailPlaced(place: map<int, Place>, place': map<int, Place>, i: nat, hand: seq<int>)
    requires hand != [] && HandPlaced(place, i, hand) && !At(place', hand[0], InHand(i))
    requires forall p :: p != hand[0] ==> (At(place', p, InHand(i)) <==> At(place, p, InHand(i)))
    ensures HandPlaced(place', i, hand[1..])
  {
    forall p ensures p in hand[1..] <==> At(place', p, InHand(i)) {
      if p in hand {
        var k :| 0 <= k < |hand| && hand[k] == p;
        if k > 0 {
          assert hand[1..][k - 1] == p && hand[0] != hand[k];
        }
      }
    }
  }

  lemma NobodyMoves(place: map<int, Place>, i: nat)
    ensures OthersKept(place, place, i)
  {}

  lemma TakePair(place: map<int, Place>, i: nat, port: int)
    requires HandPlaced(place, i, [])
    requires port in place ==> place[port].InPool?
    requires port + 1 in place ==> place[port + 1].InPool?
    ensures HandPlaced(Taken(place, port, InHand(i)), i, Pair(port))
    ensures OthersKept(place, Taken(place, port, InHand(i)), i)
  {}

  lemma PutPair(place: map<int, Place>, i: nat, port: int)
    requires HandPlaced(place, i, Pair(port))
    ensures HandPlaced(Taken(place, port, InPool), i, []) && OthersKept(place, Taken(place, port, InPool), i)
  {
    forall p ensures !At(Taken(place, port, InPool), p, InHand(i)) {
      assert p in Pair(port) <==> p == port || p == port + 1;
    }
    assert port in Pair(port) && port + 1 in Pair(port);
  }

  lemma TakeOne(place: map<int, Place>, i: nat, port: int)
    requires HandPlaced(place, i, []) && port !in place
    ensures HandPlaced(place[port := InHand(i)], i, [port]) && OthersKept(place, place[port := InHand(i)], i)
  {}

  lemma DropHead(place: map<int, Place>, i: nat, hand: seq<int>)
    requires hand != [] && HandPlaced(place, i, hand)
    ensures HandPlaced(place - {hand[0]}, i, hand[1..]) && OthersKept(place, place - {hand[0]}, i)
  {
    assert hand[0] in hand;
    TailPlaced(place, place - {hand[0]}, i, hand);
  }

  lemma ListHead(place: map<int, Place>, i: nat, port: int, todo: seq<int>, sid: string)
    requires HandPlaced(place, i, [port] + todo)
    ensures HandPlaced(place[port := Listed(sid)], i, todo) && OthersKept(place, place[port := Listed(sid)], i)
  {
    var hand := [port] + todo;
    assert hand[0] == port && hand[1..] == todo && port in hand;
    TailPlaced(place, place[port := Listed(sid)], i, hand);
  }

  lemma RemoveListed(place: map<int, Place>, i: nat, port: int)
    requires HandPlaced(place, i, []) && port in place && place[port].Listed?
    ensures HandPlaced(place - {port}, i, []) && OthersKept(place, place - {port}, i)
  {}

  lemma PooledPair(place: map<int, Place>, pool: seq<int>)
    requires PoolPlaced(place, pool) && pool != []
    ensures At(place, pool[0], InPool) && At(place, pool[0] + 1, InPool)
  {
    assert Pooled(pool, pool[0]) && Pooled(pool, pool[0] + 1);
  }

  lemma SeekingKeepsHand(c: Config, st: State, place: map<int, Place>, i: nat, pc: Pc, bindable: bool)
    requires !pc.Recording? && !pc.Listing? && !pc.Tallying? && !pc.Using? && !pc.Releasing?
    requires place.Keys == st.owner.Keys && HandPlaced(place, i, HandOf(pc)) && PoolPlaced(place, st.pool)
    ensures var pc' := ActSeeking(c, st, pc, bindable).1;
            var place' := Moves(place, i, pc, pc');
            HandPlaced(place', i, HandOf(pc')) && OthersKept(place, place', i)
  {
    hide ScanStart, HandPlaced, OthersKept, PoolPlaced, Taken;
    NobodyMoves(place, i);
    if pc.Wanting? && st.pool != [] {
      PooledPair(place, st.pool);
      TakePair(place, i, st.pool[0]);
    } else if pc.HalfLocked? && pc.port !in st.owner && pc.port + 1 !in st.owner {
      TakePair(place, i, pc.port);
    } else if pc.Pushing? {
      PutPair(place, i, pc.port);
    } else if pc.Seeking? && pc.port !in st.owner {
      TakeOne(place, i, pc.port);
    } else if pc.Dropping? && pc.todo != [] {
      DropHead(place, i, pc.todo);
      assert HandOf(Drop(pc.todo[1..])) == pc.todo[1..];
    } else {
      assert HandOf(ActSeeking(c, st, pc, bindable).1) == HandOf(pc);
    }
  }

  lemma RecordingKeepsHand(st: State, place: map<int, Place>, i: nat, pc: Pc)
    requires pc.Recording? || pc.Listing? || pc.Tallying? || pc.Using?
    requires HandPlaced(place, i, HandOf(pc))
    ensures var pc' := ActRecording(st, pc).1;
            var place' := Moves(place, i, pc, pc');
            HandPlaced(place', i, HandOf(pc')) && OthersKept(place, place', i)
  {
    hide SessionPorts, HandPlaced, OthersKept;
    NobodyMoves(place, i);
    if pc.Recording? && pc.todo != [] {
      assert [pc.todo[0]] + pc.todo[1..] == pc.todo;
    } else if pc.Listing? {
      ListHead(place, i, pc.port, pc.todo, pc.sid);
    }
  }

  lemma ReleasingKeepsHand(st: State, place: map<int, Place>, i: nat, pc: Pc, now: int)
    requires pc.Releasing? || pc.Deleted? || pc.Stamped? || pc.Unlisted? || pc.Unused?
    requires place.Keys == st.owner.Keys && HandPlaced(place, i, [])
    requires pc.Releasing? && pc.todo != [] && pc.todo[0] in place ==> place[pc.todo[0]].Listed?
    ensures var pc' := ActReleasing(st, pc, now).1;
            var place' := Moves(place, i, pc, pc');
            HandPlaced(place', i, HandOf(pc')) && OthersKept(place, place', i)
  {
    hide Untrack, HandPlaced, OthersKept;
    NobodyMoves(place, i);
    if pc.Releasing? && pc.todo != [] && pc.todo[0] in place {
      RemoveListed(place, i, pc.todo[0]);
    }
  }

  // ---- The pool

  lemma PoolKept(place: map<int, Place>, place': map<int, Place>, pool: seq<int>)
    requires PoolPlaced(place, pool) && forall p :: At(place', p, InPool) <==> At(place, p, InPool)
    ensures PoolPlaced(place', pool)
  {}

  lemma PoolTakes(place: map<int, Place>, pool: seq<int>, i: nat)
    requires PoolPlaced(place, pool) && pool != []
    ensures PoolPlaced(Taken(place, pool[0], InHand(i)), pool[1..])
  {
    var rest := pool[1..];
    assert forall k :: 0 <= k < |rest| ==> rest[k] == pool[k + 1];
    forall p ensures Pooled(rest, p) <==> Pooled(pool, p) && p != pool[0] && p != pool[0] + 1 {
      assert p in pool <==> p == pool[0] || p in rest;
      assert p - 1 in pool <==> p - 1 == pool[0] || p - 1 in rest;
    }
  }

  lemma PoolGains(place: map<int, Place>, pool: seq<int>, i: nat, port: int)
    requires PoolPlaced(place, pool) && At(place, port, InHand(i)) && At(place, port + 1, InHand(i))
    ensures PoolPlaced(Taken(place, port, InPool), pool + [port])
  {
    assert !Pooled(pool, port) && !Pooled(pool, port + 1);
    forall p ensures Pooled(pool + [port], p) <==> Pooled(pool, p) || p == port || p == port + 1 {
    }
    forall k | 0 <= k < |pool| ensures pool[k] != port && pool[k] != port + 1 && port != pool[k] + 1 {
      assert Pooled(pool, pool[k]) && Pooled(pool, pool[k] + 1);
    }
  }

  lemma PairInHand(place: map<int, Place>, i: nat, port: int)
    requires HandPlaced(place, i, Pair(port))
    ensures At(place, port, InHand(i)) && At(place, port + 1, InHand(i))
  {
    assert port in Pair(port) && port + 1 in Pair(port);
  }

  lemma SeekingKeepsPool(c: Config, st: State, place: map<int, Place>, i: nat, pc: Pc, bindable: bool)
    requires !pc.Recording? && !pc.Listing? && !pc.Tallying? && !pc.Using? && !pc.Releasing?
    requires place.Keys == st.owner.Keys && HandPlaced(place, i, HandOf(pc)) && PoolPlaced(place, st.pool)
    ensures var (st', pc') := ActSeeking(c, st, pc, bindable);
            PoolPlaced(Moves(place, i, pc, pc'), st'.pool)
  {
    var (st', pc') := ActSeeking(c, st, pc, bindable);
    var place' := Moves(place, i, pc, pc');
    if pc.Wanting? && st.pool != [] {
      PoolTakes(place, st.pool, i);
    } else if pc.Pushing? {
      PairInHand(place, i, pc.port);
      PoolGains(place, st.pool, i, pc.port);
    } else if pc.HalfLocked? || pc.Seeking? {
      PoolKept(place, place', st.pool);
    } else if pc.Dropping? && pc.todo != [] {
      assert pc.todo[0] in pc.todo;
      PoolKept(place, place', st.pool);
    }
  }

  lemma OtherActsKeepPool(c: Config, st: State, place: map<int, Place>, i: nat, pc: Pc, now: int, bindable: bool)
    requires pc.Recording? || pc.Listing? || pc.Tallying? || pc.Using? ||
             pc.Releasing? || pc.Deleted? || pc.Stamped? || pc.Unlisted? || pc.Unused?
    requires place.Keys == st.owner.Keys && HandPlaced(place, i, HandOf(pc)) && PoolPlaced(place, st.pool)
    requires pc.Releasing? && pc.todo != [] && pc.todo[0] in place ==> place[pc.todo[0]].Listed?
    ensures var (st', pc') := Act(c, st, pc, now, bindable);
            PoolPlaced(Moves(place, i, pc, pc'), st'.pool)
  {
    hide PoolPlaced, SessionPorts, Untrack;
    var place' := Moves(place, i, pc, Act(c, st, pc, now, bindable).1);
    if pc.Listing? {
      assert pc.port in HandOf(pc);
    }
    PoolKept(place, place', st.pool);
  }

  // ---- Owners

  ghost predicate OwnersKept(place: map<int, Place>, owner: map<int, string>, owner': map<int, string>, i: nat)
    requires place.Keys == owner.Keys
  {
    forall p <- place :: place[p].InHand? && place[p].i != i ==> p in owner' && owner'[p] == owner[p]
  }

  lemma SeekingKeepsNames(c: Config, st: State, place: map<int, Place>, i: nat, pc: Pc, bindable: bool)
    requires !pc.Recording? && !pc.Listing? && !pc.Tallying? && !pc.Using? && !pc.Releasing?
    requires place.Keys == st.owner.Keys && Names(place, st.owner) && HandPlaced(place, i, HandOf(pc))
    requires PoolPlaced(place, st.pool)
    requires NamedPc(pc, st.owner)
    ensures var (st', pc') := ActSeeking(c, st, pc, bindable);
            var place' := Moves(place, i, pc, pc');
            place'.Keys == st'.owner.Keys && Names(place', st'.owner) && NamedPc(pc', st'.owner) &&
              OwnersKept(place, st.owner, st'.owner, i)
  {
    hide ScanStart, PoolPlaced;
    if pc.Wanting? && st.pool != [] {
      PooledPair(place, st.pool);
    } else if pc.Pushing? {
      PairInHand(place, i, pc.port);
    } else if pc.Dropping? && pc.todo != [] {
      assert pc.todo[0] in pc.todo;
    }
    hide HandPlaced;
  }

  lemma RecordingKeepsNames(st: State, place: map<int, Place>, i: nat, pc: Pc)
    requires pc.Recording? || pc.Listing? || pc.Tallying? || pc.Using?
    requires place.Keys == st.owner.Keys && Names(place, st.owner) && HandPlaced(place, i, HandOf(pc))
    requires NamedPc(pc, st.owner)
    ensures var (st', pc') := ActRecording(st, pc);
            var place' := Moves(place, i, pc, pc');
            place'.Keys == st'.owner.Keys && Names(place', st'.owner) && NamedPc(pc', st'.owner) &&
              OwnersKept(place, st.owner, st'.owner, i)
  {
    hide SessionPorts;
    if pc.Listing? {
      assert pc.port in HandOf(pc);
    } else if pc.Recording? && pc.todo != [] {
      assert pc.todo[0] in HandOf(pc);
    }
    hide HandPlaced;
  }

  lemma ReleasingKeepsNames(st: State, place: map<int, Place>, i: nat, pc: Pc, now: int)
    requires pc.Releasing? || pc.Deleted? || pc.Stamped? || pc.Unlisted? || pc.Unused?
    requires place.Keys == st.owner.Keys && Names(place, st.owner)
    requires pc.Releasing? && pc.todo != [] && pc.todo[0] in place ==> place[pc.todo[0]].Listed?
    ensures var (st', pc') := ActReleasing(st, pc, now);
            var place' := Moves(place, i, pc, pc');
            place'.Keys == st'.owner.Keys && Names(place', st'.owner) && NamedPc(pc', st'.owner) &&
              OwnersKept(place, st.owner, st'.owner, i)
  {
    hide Untrack;
  }

  // ---- Lists

  lemma {:induction false} WithoutCounts(ports: seq<int>, port: int, p: int)
    requires port in ports
    ensures multiset(Without(ports, port))[p] == multiset(ports)[p] - One(p == port)
  {
    assert ports == [ports[0]] + ports[1..];
    if ports[0] != port {
      WithoutCounts(ports[1..], port, p);
    }
  }

  lemma UntrackCounts(st: State, sid: string, port: int, s: string, p: int)
    requires port in SessionPorts(st, sid)
    ensures multiset(SessionPorts(st.(sessions := Untrack(st.sessions, sid, port)), s))[p] ==
            multiset(SessionPorts(st, s))[p] - One(s == sid && p == port)
  {
    hide Without;
    if s == sid {
      WithoutCounts(SessionPorts(st, sid), port, p);
    }
  }

  lemma SeekingKeepsLists(c: Config, st: State, place: map<int, Place>, i: nat, pc: Pc, bindable: bool, sid: string,
                          p: int)
    requires !pc.Recording? && !pc.Listing? && !pc.Tallying? && !pc.Using? && !pc.Releasing? && !pc.Deleted?
    requires !pc.Stamped?
    requires place.Keys == st.owner.Keys && HandPlaced(place, i, HandOf(pc)) && PoolPlaced(place, st.pool)
    ensures var (st', pc') := ActSeeking(c, st, pc, bindable);
            && st'.sessions == st.sessions && !Awaits(pc', p, sid)
            && (At(Moves(place, i, pc, pc'), p, Listed(sid)) <==> At(place, p, Listed(sid)))
  {
    hide ScanStart, PoolPlaced;
    if pc.Wanting? && st.pool != [] {
      PooledPair(place, st.pool);
    } else if pc.Pushing? {
      PairInHand(place, i, pc.port);
    } else if pc.Dropping? && pc.todo != [] {
      assert pc.todo[0] in pc.todo;
    }
    hide HandPlaced;
  }

  lemma ListGrows(ports: seq<int>, port: int, p: int)
    ensures multiset(ports + [port])[p] == multiset(ports)[p] + One(p == port)
  {}

  lemma RecordingKeepsLists(st: State, place: map<int, Place>, i: nat, pc: Pc, sid: string, p: int)
    requires pc.Recording? || pc.Listing? || pc.Tallying? || pc.Using?
    requires HandPlaced(place, i, HandOf(pc))
    ensures var (st', pc') := ActRecording(st, pc);
            && !Awaits(pc', p, sid)
            && multiset(SessionPorts(st', sid))[p] + One(At(place, p, Listed(sid))) ==
               multiset(SessionPorts(st, sid))[p] + One(At(Moves(place, i, pc, pc'), p, Listed(sid)))
  {
    hide SessionPorts;
    if pc.Listing? {
      assert pc.port in HandOf(pc);
      assert At(place, pc.port, InHand(i));
      hide HandPlaced;
      ListedGrows(st, pc.sid, pc.port, sid, p);
    } else {
      hide HandPlaced;
      SameList(ActRecording(st, pc).0, st, sid);
    }
  }

  lemma ListedGrows(st: State, s: string, port: int, sid: string, p: int)
    ensures multiset(SessionPorts(st.(sessions := st.sessions[s := SessionPorts(st, s) + [port]]), sid))[p] ==
            multiset(SessionPorts(st, sid))[p] + One(sid == s && p == port)
  {
    ListGrows(SessionPorts(st, s), port, p);
  }

  lemma DeleteTurnsListed(place: map<int, Place>, owner: map<int, string>, port: int, todo: seq<int>, sid: string,
                          p: int)
    requires Names(place, owner) && port in place && place[port].Listed?
    ensures One(At(place, p, Listed(sid))) == One(At(place - {port}, p, Listed(sid))) +
            One(Awaits(Deleted(port, owner[port], todo), p, sid))
  {}

  lemma ReleasingKeepsLists(st: State, place: map<int, Place>, i: nat, pc: Pc, now: int, sid: string, p: int)
    requires pc.Releasing? || pc.Deleted? || pc.Stamped? || pc.Unlisted? || pc.Unused?
    requires place.Keys == st.owner.Keys && Names(place, st.owner) && sid != ""
    requires pc.Releasing? && pc.todo != [] && pc.todo[0] in place ==> place[pc.todo[0]].Listed?
    requires pc.Stamped? && pc.sid != "" ==> pc.port in SessionPorts(st, pc.sid)
    ensures var (st', pc') := ActReleasing(st, pc, now);
            multiset(SessionPorts(st', sid))[p] + One(At(place, p, Listed(sid))) + One(Awaits(pc, p, sid)) ==
            multiset(SessionPorts(st, sid))[p] + One(At(Moves(place, i, pc, pc'), p, Listed(sid))) +
              One(Awaits(pc', p, sid))
  {
    hide Untrack, SessionPorts, One, At, Names;
    if pc.Stamped? {
      if pc.sid != "" {
        UntrackCounts(st, pc.sid, pc.port, sid, p);
      }
      ListedOnce(pc, p, sid);
    } else {
      SameList(ActReleasing(st, pc, now).0, st, sid);
      if pc.Releasing? && pc.todo != [] && pc.todo[0] in place {
        DeleteTurnsListed(place, st.owner, pc.todo[0], pc.todo[1..], sid, p);
        hide Moves;
        assert One(Awaits(pc, p, sid)) == 0 by { NotAwaiting(pc, p, sid); }
      }
    }
  }

  lemma NotAwaiting(pc: Pc, p: int, sid: string)
    requires !pc.Deleted? && !pc.Stamped?
    ensures One(Awaits(pc, p, sid)) == 0
  {}

  lemma ListedOnce(pc: Pc, p: int, sid: string)
    requires pc.Stamped?
    ensures One(Awaits(pc, p, sid)) == One(sid == pc.sid && p == pc.port)
    ensures One(Awaits(Unlisted(pc.todo), p, sid)) == 0 == One(false)
  {}

  lemma SameList(st: State, st': State, sid: string)
    requires st.sessions == st'.sessions
    ensures SessionPorts(st, sid) == SessionPorts(st', sid)
  {}

  lemma {:induction false} AwaitingUpdate(threads: seq<Pc>, i: nat, pc: Pc, p: int, sid: string)
    requires i < |threads|
    ensures Awaiting(threads[i := pc], p, sid) == Awaiting(threads, p, sid) - One(Awaits(threads[i], p, sid)) +
            One(Awaits(pc, p, sid))
    ensures Awaits(threads[i], p, sid) ==> Awaiting(threads, p, sid) > 0
  {
    var k := |threads| - 1;
    if i == k {
      assert threads[i := pc][..k] == threads[..k];
    } else {
      assert threads[i := pc][..k] == threads[..k][i := pc];
      AwaitingUpdate(threads[..k], i, pc, p, sid);
    }
  }

  // ---- A step

  /** What a thread's step makes of places and owners. */
  lemma ActKeepsPlaces(c: Config, st: State, place: map<int, Place>, i: nat, pc: Pc, now: int, bindable: bool)
    requires place.Keys == st.owner.Keys && Names(place, st.owner) && PoolPlaced(place, st.pool)
    requires HandPlaced(place, i, HandOf(pc)) && NamedPc(pc, st.owner)
    requires pc.Releasing? && pc.todo != [] && pc.todo[0] in place ==> place[pc.todo[0]].Listed?
    ensures var (st', pc') := Act(c, st, pc, now, bindable);
            var place' := Moves(place, i, pc, pc');
            && place'.Keys == st'.owner.Keys && Names(place', st'.owner) && PoolPlaced(place', st'.pool)
            && HandPlaced(place', i, HandOf(pc')) && NamedPc(pc', st'.owner)
            && OthersKept(place, place', i) && OwnersKept(place, st.owner, st'.owner, i)
  {
    hide Names, PoolPlaced, HandPlaced, NamedPc, OthersKept, OwnersKept, Moves, ActSeeking, ActRecording, ActReleasing;
    if pc.Releasing? || pc.Deleted? || pc.Stamped? || pc.Unlisted? || pc.Unused? {
      ReleasingKeepsHand(st, place, i, pc, now);
      ReleasingKeepsNames(st, place, i, pc, now);
      OtherActsKeepPool(c, st, place, i, pc, now, bindable);
    } else if pc.Recording? || pc.Listing? || pc.Tallying? || pc.Using? {
      RecordingKeepsHand(st, place, i, pc);
      RecordingKeepsNames(st, place, i, pc);
      OtherActsKeepPool(c, st, place, i, pc, now, bindable);
    } else {
      SeekingKeepsHand(c, st, place, i, pc, bindable);
      SeekingKeepsNames(c, st, place, i, pc, bindable);
      SeekingKeepsPool(c, st, place, i, pc, bindable);
    }
  }

  lemma ActKeepsLists(c: Config, st: State, place: map<int, Place>, i: nat, pc: Pc, now: int, bindable: bool,
                      sid: string, p: int)
    requires place.Keys == st.owner.Keys && Names(place, st.owner) && PoolPlaced(place, st.pool)
    requires HandPlaced(place, i, HandOf(pc)) && sid != ""
    requires pc.Releasing? && pc.todo != [] && pc.todo[0] in place ==> place[pc.todo[0]].Listed?
    requires pc.Stamped? && pc.sid != "" ==> pc.port in SessionPorts(st, pc.sid)
    ensures var (st', pc') := Act(c, st, pc, now, bindable);
            multiset(SessionPorts(st', sid))[p] + One(At(place, p, Listed(sid))) + One(Awaits(pc, p, sid)) ==
            multiset(SessionPorts(st, sid))[p] + One(At(Moves(place, i, pc, pc'), p, Listed(sid))) +
              One(Awaits(pc', p, sid))
  {
    hide Names, PoolPlaced, HandPlaced, Moves, ActSeeking, ActRecording, ActReleasing, SessionPorts, At;
    if pc.Releasing? || pc.Deleted? || pc.Stamped? || pc.Unlisted? || pc.Unused? {
      ReleasingKeepsLists(st, place, i, pc, now, sid, p);
    } else if pc.Recording? || pc.Listing? || pc.Tallying? || pc.Using? {
      RecordingKeepsLists(st, place, i, pc, sid, p);
    } else {
      SeekingKeepsLists(c, st, place, i, pc, bindable, sid, p);
      SameList(Act(c, st, pc, now, bindable).0, st, sid);
    }
  }

  lemma AwaitedIsListed(m: Machine, i: nat)
    requires Exclusively(m) && i < |m.threads| && m.threads[i].Stamped? && m.threads[i].sid != ""
    ensures m.threads[i].port in SessionPorts(m.st, m.threads[i].sid)
  {
    var pc := m.threads[i];
    hide HandPlaced, PoolPlaced, Names;
    assert ListPlaced(m, pc.sid, pc.port);
    AwaitingUpdate(m.threads, i, pc, pc.port, pc.sid);
    assert pc.port in multiset(SessionPorts(m.st, pc.sid));
  }

  lemma ListsStay(c: Config, m: Machine, i: nat, now: int, bindable: bool, sid: string, p: int)
    requires Exclusively(m) && i < |m.threads| && sid != ""
    requires var pc := m.threads[i]; pc.Releasing? && pc.todo != [] && pc.todo[0] in m.place ==>
               m.place[pc.todo[0]].Listed?
    ensures ListPlaced(Steps(c, m, i, now, bindable), sid, p)
  {
    var pc := m.threads[i];
    if pc.Stamped? && pc.sid != "" {
      AwaitedIsListed(m, i);
    }
    assert ListPlaced(m, sid, p) && HandPlaced(m.place, i, HandOf(pc));
    ActKeepsLists(c, m.st, m.place, i, pc, now, bindable, sid, p);
    hide Exclusively, Act, Moves, SessionPorts, Awaiting, At, Awaits;
    AwaitingUpdate(m.threads, i, Act(c, m.st, pc, now, bindable).1, p, sid);
  }

  lemma OtherHandStays(place: map<int, Place>, place': map<int, Place>, i: nat, j: nat, hand: seq<int>)
    requires OthersKept(place, place', i) && j != i && HandPlaced(place, j, hand)
    ensures HandPlaced(place', j, hand)
  {}

  lemma OtherNameStays(place: map<int, Place>, owner: map<int, string>, owner': map<int, string>, i: nat, j: nat,
                       pc: Pc)
    requires place.Keys == owner.Keys && OwnersKept(place, owner, owner', i) && j != i
    requires HandPlaced(place, j, HandOf(pc)) && NamedPc(pc, owner)
    ensures NamedPc(pc, owner')
  {
    if pc.Listing? || pc.Bound? {
      assert pc.port in HandOf(pc);
    }
  }

  lemma StepKeepsExclusively(c: Config, m: Machine, i: nat, now: int, bindable: bool)
    requires Exclusively(m) && i < |m.threads|
    requires var pc := m.threads[i]; pc.Releasing? && pc.todo != [] && pc.todo[0] in m.place ==>
               m.place[pc.todo[0]].Listed?
    ensures Exclusively(Steps(c, m, i, now, bindable))
  {
    var (pc, m') := (m.threads[i], Steps(c, m, i, now, bindable));
    assert HandPlaced(m.place, i, HandOf(pc)) && NamedPc(pc, m.st.owner);
    ActKeepsPlaces(c, m.st, m.place, i, pc, now, bindable);
    forall sid, p | sid != "" ensures ListPlaced(m', sid, p) {
      ListsStay(c, m, i, now, bindable, sid, p);
    }
    hide Names, PoolPlaced, HandPlaced, NamedPc, OwnersKept, ListPlaced, Act, Moves;
    forall j: nat | j < |m'.threads|
      ensures HandPlaced(m'.place, j, HandOf(m'.threads[j])) && NamedPc(m'.threads[j], m'.st.owner)
    {
      if j != i {
        OtherHandStays(m.place, m'.place, i, j, HandOf(m.threads[j]));
        OtherNameStays(m.place, m.st.owner, m'.st.owner, i, j, m.threads[j]);
      }
    }
    forall p | p in m'.place && m'.place[p].InHand? ensures m'.place[p].i < |m'.threads| {
      if m'.place[p].i != i {
        assert At(m'.place, p, InHand(m'.place[p].i)) ==> At(m.place, p, InHand(m'.place[p].i));
      }
    }
  }

  lemma PrematureBreaks(c: Config, m: Machine, e: Move)
    requires Exclusively(m) && Premature(m, e)
    ensures !Exclusively(Next(c, m, e))
  {
    var (pc, m', p) := (m.threads[e.i], Next(c, m, e), m.threads[e.i].todo[0]);
    assert m'.place == m.place - {p} && m'.st.pool == m.st.pool;
    hide Blocked;
    if m.place[p].InPool? {
      assert Pooled(m.st.pool, p) by { assert At(m.place, p, InPool); }
      assert !PoolPlaced(m'.place, m'.st.pool);
    } else {
      var j := m.place[p].i;
      assert HandPlaced(m.place, j, HandOf(m.threads[j])) && At(m.place, p, InHand(j));
      assert p in HandOf(m.threads[j]);
      assert !HandPlaced(m'.place, j, HandOf(m'.threads[j]));
    }
  }

  lemma BeginKeepsExclusively(m: Machine, i: nat, pc: Pc)
    requires Exclusively(m) && i < |m.threads| && HandOf(m.threads[i]) == [] && HandOf(pc) == []
    requires !m.threads[i].Deleted? && !m.threads[i].Stamped? && !pc.Deleted? && !pc.Stamped?
    ensures Exclusively(m.(threads := m.threads[i := pc]))
  {
    var m' := m.(threads := m.threads[i := pc]);
    hide Names, PoolPlaced;
    assert HandPlaced(m.place, i, HandOf(m.threads[i]));
    forall sid, p | sid != "" ensures ListPlaced(m', sid, p) {
      assert ListPlaced(m, sid, p);
      AwaitingUpdate(m.threads, i, pc, p, sid);
    }
    hide HandPlaced, ListPlaced;
  }

  lemma BeginsEmptyHanded(c: Config, st: State, e: Move)
    ensures var pc := Begin(c, st, e); HandOf(pc) == [] && !pc.Deleted? && !pc.Stamped?
  {}

  lemma CleanKeepsExclusively(c: Config, m: Machine, e: Move)
    requires Exclusively(m) && OfCleaner(e)
    ensures Exclusively(Clean(c, m, e))
  {
    hide Names, PoolPlaced, HandPlaced;
    var m' := Clean(c, m, e);
    forall sid, p | sid != "" ensures ListPlaced(m', sid, p) {
      assert ListPlaced(m, sid, p);
      SameList(m.st, m'.st, sid);
    }
  }

  /** A step keeps every allocated port in one place, if and only if it does not delete a port that is pooled or in
      the hands of a call. */
  lemma MoveKeepsExclusivelyIff(c: Config, m: Machine, e: Move)
    requires Exclusively(m)
    ensures Exclusively(Next(c, m, e)) <==> !Premature(m, e)
  {
    if Premature(m, e) {
      PrematureBreaks(c, m, e);
    } else {
      assert m.place.Keys == m.st.owner.Keys;
      hide Exclusively, Blocked, Begin, Steps, Clean;
      if OfCleaner(e) {
        CleanKeepsExclusively(c, m, e);
      } else if e.i < |m.threads| {
        if e.Go? {
          if !Blocked(m, e.i) {
            StepKeepsExclusively(c, m, e.i, e.now, e.bindable);
          }
        } else if m.threads[e.i] == Idle {
          BeginsEmptyHanded(c, m.st, e);
          BeginKeepsExclusively(m, e.i, Begin(c, m.st, e));
        }
      }
    }
  }

  // ---- Runs

  ghost predicate ExclusivelyThroughout(c: Config, m: Machine, es: seq<Move>) {
    Exclusively(Run(c, m, es)) && (es != [] ==> ExclusivelyThroughout(c, m, es[..|es| - 1]))
  }

  ghost predicate NeverPremature(c: Config, m: Machine, es: seq<Move>) {
    es != [] ==> NeverPremature(c, m, es[..|es| - 1]) && !Premature(Run(c, m, es[..|es| - 1]), es[|es| - 1])
  }

  /** In every interleaving: every allocated port is in one place throughout, if and only if no release deletes a
      port that is pooled or in the hands of a call. */
  lemma {:induction false} ExclusivelyIff(c: Config, m: Machine, es: seq<Move>)
    requires Exclusively(m)
    ensures ExclusivelyThroughout(c, m, es) <==> NeverPremature(c, m, es)
  {
    hide Exclusively, Premature, Next;
    if es == [] {
    } else {
      ExclusivelyIff(c, m, es[..|es| - 1]);
      if ExclusivelyThroughout(c, m, es[..|es| - 1]) {
        MoveKeepsExclusivelyIff(c, Run(c, m, es[..|es| - 1]), es[|es| - 1]);
      }
    }
  }

  lemma StartsExclusively(c: Config, threads: nat)
    ensures Exclusively(Start(c, threads))
  {
    var m := Start(c, threads);
    forall sid, p ensures ListPlaced(m, sid, p) {
      NoneAwait(m.threads, p, sid);
    }
  }

  lemma {:induction false} NoneAwait(threads: seq<Pc>, p: int, sid: string)
    requires forall i :: 0 <= i < |threads| ==> threads[i] == Idle
    ensures Awaiting(threads, p, sid) == 0
  {
    if threads == [] {
    } else {
      NoneAwait(threads[..|threads| - 1], p, sid);
    }
  }

  /** The step takes an unallocated port, or a pooled pair, into the hands of a call. */
  ghost function Obtained(m: Machine, m': Machine): set<int> {
    set p | p in m'.place && m'.place[p].InHand? && !At(m.place, p, m'.place[p])
  }

  /** In every interleaving without premature deletion a call only ever obtains ports that no session has and no
      other call has in hand. */
  lemma ObtainsFreePorts(c: Config, threads: nat, es: seq<Move>, e: Move)
    requires NeverPremature(c, Start(c, threads), es + [e])
    ensures var (m, m') := (Run(c, Start(c, threads), es), Run(c, Start(c, threads), es + [e]));
            forall p <- Obtained(m, m') :: At(m.place, p, InPool) || (p !in m.st.owner && p in m'.st.owner)
  {
    var start := Start(c, threads);
    StartsExclusively(c, threads);
    assert (es + [e])[..|es|] == es;
    ExclusivelyIff(c, start, es);
    ExclusivelyIff(c, start, es + [e]);
    var m := Run(c, start, es);
    hide Run, Exclusively;
    if e.Go? && e.i < |m.threads| && !Blocked(m, e.i) {
      ObtainsFree(c, m, e.i, e.now, e.bindable);
    }
  }

  lemma ObtainsFree(c: Config, m: Machine, i: nat, now: int, bindable: bool)
    requires Exclusively(m) && i < |m.threads|
    ensures var m' := Steps(c, m, i, now, bindable);
            forall p <- Obtained(m, m') :: At(m.place, p, InPool) || (p !in m.st.owner && p in m'.st.owner)
  {
    hide HandPlaced, PoolPlaced, ListPlaced, Names, NamedPc, SessionPorts, Untrack, ScanStart;
    if m.threads[i].Wanting? && m.st.pool != [] {
      PooledPair(m.place, m.st.pool);
    }
  }
}
