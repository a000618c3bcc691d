/** Byte-wise string order and sorting, as sort.Strings does it. */
module SortedNames {

  predicate Leq(a: string, b: string) {
    if a == "" then true
    else if b == "" then false
    else a[0] < b[0] || (a[0] == b[0] && Leq(a[1..], b[1..]))
  }

  lemma {:induction false} LeqTotal(a: string, b: string)
    ensures Leq(a, b) || Leq(b, a)
  {
    if a != "" && b != "" {
      LeqTotal(a[1..], b[1..]);
    }
  }

  lemma {:induction false} LeqAntisymmetric(a: string, b: string)
    requires Leq(a, b) && Leq(b, a)
    ensures a == b
  {
    if a != "" && b != "" {
      LeqAntisymmetric(a[1..], b[1..]);
      assert a == [a[0]] + a[1..] && b == [b[0]] + b[1..];
    }
  }

  lemma {:induction false} LeqTransitive(a: string, b: string, c: string)
    requires Leq(a, b) && Leq(b, c)
    ensures Leq(a, c)
  {
    if a != "" && b != "" && c != "" && a[0] == b[0] == c[0] {
      LeqTransitive(a[1..], b[1..], c[1..]);
    }
  }

  /** Each element is at most the next. */
  ghost predicate Sorted(s: seq<string>) {
    forall i, j :: 0 <= i < j < |s| ==> Leq(s[i], s[j])
  }

  function Insert(s: seq<string>, x: string): seq<string> {
    if s == [] then [x]
    else if Leq(s[|s| - 1], x) then s + [x]
    else Insert(s[..|s| - 1], x) + [s[|s| - 1]]
  }

  function Sort(s: seq<string>): seq<string> {
    if s == [] then [] else Insert(Sort(s[..|s| - 1]), s[|s| - 1])
  }

  lemma {:induction false} InsertAdds(s: seq<string>, x: string)
    ensures multiset(Insert(s, x)) == multiset(s) + multiset{x}
  {
    hide Leq;
    if s != [] {
      var n := |s| - 1;
      assert s == s[..n] + [s[n]];
      InsertAdds(s[..n], x);
    }
  }

  lemma {:induction false} InsertSorts(s: seq<string>, x: string)
    requires Sorted(s)
    ensures Sorted(Insert(s, x))
  {
    hide Leq;
    if s != [] {
      var n := |s| - 1;
      if Leq(s[n], x) {
        forall i | 0 <= i < |s| ensures Leq(s[i], x) {
          if i < n {
            LeqTransitive(s[i], s[n], x);
          }
        }
      } else {
        LeqTotal(s[n], x);
        InsertSorts(s[..n], x);
        InsertAdds(s[..n], x);
        var t := Insert(s[..n], x);
        hide Insert;
        forall i | 0 <= i < |t| ensures Leq(t[i], s[n]) {
          assert t[i] in multiset(t);
          assert t[i] == x || t[i] in s[..n];
        }
        assert Sorted(t + [s[n]]);
      }
    }
  }

  lemma {:induction false} SortSorts(s: seq<string>)
    ensures Sorted(Sort(s)) && multiset(Sort(s)) == multiset(s)
  {
    hide Leq, Insert;
    if s == [] {
    } else {
      var n := |s| - 1;
      assert s == s[..n] + [s[n]];
      SortSorts(s[..n]);
      InsertSorts(Sort(s[..n]), s[n]);
      InsertAdds(Sort(s[..n]), s[n]);
    }
  }

  lemma WithoutLast(s: seq<string>)
    requires s != []
    ensures multiset(s[..|s| - 1]) == multiset(s) - multiset{s[|s| - 1]}
    ensures Sorted(s) ==> Sorted(s[..|s| - 1])
  {
    hide Leq;
    assert s == s[..|s| - 1] + [s[|s| - 1]];
  }

  lemma LastIsLargest(s: seq<string>, x: string)
    requires Sorted(s) && x in multiset(s)
    ensures s != [] && (x == s[|s| - 1] || Leq(x, s[|s| - 1]))
  {
    hide Leq;
    var i :| 0 <= i < |s| && s[i] == x;
  }

  /** The sorted list of a collection of names does not depend on the order they came in. */
  lemma {:induction false} SortedIsUnique(a: seq<string>, b: seq<string>)
    requires Sorted(a) && Sorted(b) && multiset(a) == multiset(b)
    ensures a == b
  {
    hide Sorted, Leq;
    assert |a| == |multiset(a)| == |multiset(b)| == |b|;
    if a != [] {
      var n := |a| - 1;
      assert a[n] in multiset(a) && b[n] in multiset(b);
      LastIsLargest(b, a[n]);
      LastIsLargest(a, b[n]);
      if a[n] != b[n] {
        LeqAntisymmetric(a[n], b[n]);
      }
      WithoutLast(a);
      WithoutLast(b);
      SortedIsUnique(a[..n], b[..n]);
      assert a == a[..n] + [a[n]] && b == b[..n] + [b[n]];
    }
  }

  lemma SortDependsOnContents(a: seq<string>, b: seq<string>)
    requires multiset(a) == multiset(b)
    ensures Sort(a) == Sort(b)
  {
    hide Sort, Sorted;
    SortSorts(a);
    SortSorts(b);
    SortedIsUnique(Sort(a), Sort(b));
  }
}

/** Session takeover after a node has left: every survivor decides alone which sessions to claim. */
module Takeover {
  import opened SortedNames

  /** A call leg's local ports, if the session has that leg. */
  datatype Leg = NoLeg | Leg(rtp: int, rtcp: int)

  datatype Session = Session(node: string, caller: Leg, callee: Leg)

  /** fnv1a, left open. */
  type Hash = string -> nat

  /** selectTakeoverNode. */
  function SelectNode(hash: Hash, local: string, sid: string, nodes: seq<string>): string {
    if |nodes| == 0 then local
    else if |nodes| == 1 then nodes[0]
    else nodes[hash(sid) % |nodes|]
  }

  /** getActiveNodesSorted: the local node, then the others in map iteration order, sorted. A node is
      never among its own others, since it ignores its own messages. */
  function ActiveSorted(local: string, others: seq<string>): seq<string> {
    Sort([local] + others)
  }

  /** For each survivor, the other nodes it has heard from recently. */
  type Views = map<string, seq<string>>

  /** Survivor n's own computation gives session sid to n itself. */
  predicate Selects(hash: Hash, views: Views, n: string, sid: string) {
    n in views && SelectNode(hash, n, sid, ActiveSorted(n, views[n])) == n
  }

  // ---- Survivors that see the same nodes

  /** The survivors are the active nodes, and each lists every other one exactly once. */
  ghost predicate SameView(views: Views, active: set<string>) {
    views.Keys == active && forall n <- views :: multiset(views[n]) == multiset(active - {n})
  }

  ghost function Listed(names: set<string>): (s: seq<string>)
    ensures multiset(s) == multiset(names)
  {
    if names == {} then []
    else
      var n :| n in names;
      assert multiset(names) == multiset(names - {n}) + multiset{n};
      Listed(names - {n}) + [n]
  }

  /** The node a session goes to, from the set of active nodes alone. */
  ghost function Target(hash: Hash, active: set<string>, sid: string): string {
    SelectNode(hash, "", sid, Sort(Listed(active)))
  }

  /** Whatever order the others are listed in, a survivor computes the same sorted list of names. */
  lemma SurvivorComputesTarget(hash: Hash, active: set<string>, n: string, others: seq<string>, sid: string)
    requires n in active && multiset(others) == multiset(active - {n})
    ensures SelectNode(hash, n, sid, ActiveSorted(n, others)) == Target(hash, active, sid)
    ensures Target(hash, active, sid) in active
  {
    hide Sort, Listed, Sorted;
    assert multiset([n] + others) == multiset(active) by {
      assert multiset(active) == multiset(active - {n}) + multiset{n};
    }
    SortDependsOnContents([n] + others, Listed(active));
    SortSorts([n] + others);
    var nodes := ActiveSorted(n, others);
    assert |nodes| == |multiset(nodes)| == |active| > 0;
    forall i | 0 <= i < |nodes| ensures nodes[i] in active {
      assert nodes[i] in multiset(nodes);
    }
  }

  /** Exactly one survivor selects itself. */
  lemma SurvivorsAgree(hash: Hash, views: Views, active: set<string>, n: string, sid: string)
    requires SameView(views, active) && n in active
    ensures Selects(hash, views, n, sid) <==> n == Target(hash, active, sid)
    ensures Target(hash, active, sid) in active
  {
    hide Target, SelectNode, ActiveSorted;
    SurvivorComputesTarget(hash, active, n, views[n], sid);
  }

  // ---- The interleaved claiming

  type Store = map<string, Session>

  /** Shared store; each survivor's pending jobs with the session as it was read; the claims made. */
  datatype State = State(store: Store, jobs: map<string, Store>, claims: set<(string, string)>)

  /** ListStep: survivor n reads the named sessions and keeps its own share. ClaimStep: it carries out one
      of its jobs with the ports it was given, or fails to. */
  datatype Step =
    | ListStep(n: string, ids: set<string>)
    | ClaimStep(n: string, sid: string, succeeds: bool, caller: Leg, callee: Leg)

  function Share(hash: Hash, departed: string, views: Views, store: Store, n: string, ids: set<string>): Store {
    map s | s in ids && s in store && store[s].node == departed && Selects(hash, views, n, s) :: store[s]
  }

  function JobsOf(st: State, n: string): Store {
    if n in st.jobs then st.jobs[n] else map[]
  }

  /** The session as the claimer writes it back. */
  function Taken(s: Session, n: string, caller: Leg, callee: Leg): Session {
    Session(n, if s.caller.NoLeg? then NoLeg else caller, if s.callee.NoLeg? then NoLeg else callee)
  }

  function Next(hash: Hash, departed: string, views: Views, st: State, e: Step): State {
    var jobs := JobsOf(st, e.n);
    match e
    case ListStep(n, ids) => st.(jobs := st.jobs[n := jobs + Share(hash, departed, views, st.store, n, ids)])
    case ClaimStep(n, sid, succeeds, caller, callee) =>
      if sid !in jobs then st
      else
        var st1 := st.(jobs := st.jobs[n := jobs - {sid}]);
        if !succeeds then st1
        else st1.(store := st.store[sid := Taken(jobs[sid], n, caller, callee)], claims := st.claims + {(sid, n)})
  }

  function Run(hash: Hash, departed: string, views: Views, store: Store, es: seq<Step>): State {
    if es == [] then State(store, map[], {})
    else Next(hash, departed, views, Run(hash, departed, views, store, es[..|es| - 1]), es[|es| - 1])
  }

  /** Every pending job is the departed node's session as it was, selected by its survivor. */
  ghost predicate JobsOk(hash: Hash, departed: string, views: Views, store: Store, jobs: map<string, Store>) {
    forall n <- jobs, s <- jobs[n] ::
      Selects(hash, views, n, s) && s in store && store[s].node == departed && jobs[n][s] == store[s]
  }

  /** A session is as it was, or the departed node's and claimed by its new owner. */
  ghost predicate StoreOk(departed: string, store: Store, current: Store, claims: set<(string, string)>) {
    && current.Keys == store.Keys
    && (forall s <- store :: current[s] == store[s] ||
          (store[s].node == departed && current[s].node != departed && (s, current[s].node) in claims))
  }

  ghost predicate ClaimsOk(hash: Hash, departed: string, views: Views, store: Store, claims: set<(string, string)>) {
    forall c <- claims :: Selects(hash, views, c.1, c.0) && c.0 in store && store[c.0].node == departed
  }

  ghost predicate Inv(hash: Hash, departed: string, views: Views, store: Store, st: State) {
    && JobsOk(hash, departed, views, store, st.jobs)
    && StoreOk(departed, store, st.store, st.claims)
    && ClaimsOk(hash, departed, views, store, st.claims)
  }

  lemma ListKeeps(hash: Hash, departed: string, views: Views, store: Store, st: State, n: string, ids: set<string>)
    requires Inv(hash, departed, views, store, st)
    ensures var jobs := JobsOf(st, n) + Share(hash, departed, views, st.store, n, ids);
            JobsOk(hash, departed, views, store, st.jobs[n := jobs])
  {
    hide Selects, ClaimsOk;
  }

  lemma ClaimKeeps(hash: Hash, departed: string, views: Views, store: Store, st: State, n: string, sid: string,
                   taken: Session)
    requires departed !in views && Inv(hash, departed, views, store, st)
    requires sid in JobsOf(st, n) && taken.node == n
    ensures JobsOk(hash, departed, views, store, st.jobs[n := JobsOf(st, n) - {sid}])
    ensures ClaimsOk(hash, departed, views, store, st.claims + {(sid, n)})
    ensures StoreOk(departed, store, st.store[sid := taken], st.claims + {(sid, n)})
  {
    SelectsSurvivor(hash, views, n, sid);
    hide Selects;
  }

  lemma StepKeeps(hash: Hash, departed: string, views: Views, store: Store, st: State, e: Step)
    requires departed !in views && Inv(hash, departed, views, store, st)
    ensures Inv(hash, departed, views, store, Next(hash, departed, views, st, e))
  {
    hide Selects, JobsOk, ClaimsOk, Share;
    match e
    case ListStep(n, ids) => ListKeeps(hash, departed, views, store, st, n, ids);
    case ClaimStep(n, sid, succeeds, caller, callee) =>
      if sid in JobsOf(st, n) {
        ClaimKeeps(hash, departed, views, store, st, n, sid, Taken(JobsOf(st, n)[sid], n, caller, callee));
      }
  }

  lemma {:induction false} RunKeepsInv(hash: Hash, departed: string, views: Views, store: Store, es: seq<Step>)
    requires departed !in views
    ensures Inv(hash, departed, views, store, Run(hash, departed, views, store, es))
  {
    hide Selects, Next;
    if es == [] {
    } else {
      RunKeepsInv(hash, departed, views, store, es[..|es| - 1]);
      StepKeeps(hash, departed, views, store, Run(hash, departed, views, store, es[..|es| - 1]), es[|es| - 1]);
    }
  }

  /** No two survivors have both claimed the session. */
  ghost predicate OneClaimant(st: State, sid: string) {
    forall a <- st.claims, b <- st.claims :: a.0 == sid && b.0 == sid ==> a.1 == b.1
  }

  /** At most one survivor's own computation selects itself. */
  ghost predicate OneSelects(hash: Hash, views: Views, sid: string) {
    forall n, m :: Selects(hash, views, n, sid) && Selects(hash, views, m, sid) ==> n == m
  }

  /** Two survivors that both select themselves can both claim. */
  lemma TwoCanClaim(hash: Hash, departed: string, views: Views, store: Store, sid: string, n: string, m: string)
    returns (es: seq<Step>)
    requires sid in store && store[sid].node == departed && n != m
    requires Selects(hash, views, n, sid) && Selects(hash, views, m, sid)
    ensures (sid, n) in Run(hash, departed, views, store, es).claims
    ensures (sid, m) in Run(hash, departed, views, store, es).claims
  {
    hide Selects;
    var e0, e1 := ListStep(n, {sid}), ListStep(m, {sid});
    var e2, e3 := ClaimStep(n, sid, true, NoLeg, NoLeg), ClaimStep(m, sid, true, NoLeg, NoLeg);
    es := [e0, e1, e2, e3];
    assert es[..3] == [e0, e1, e2] && es[..3][..2] == [e0, e1] && [e0, e1][..1] == [e0] && [e0][..0] == [];
    var st0 := State(store, map[], {});
    var st1 := Next(hash, departed, views, st0, e0);
    var st2 := Next(hash, departed, views, st1, e1);
    assert Run(hash, departed, views, store, [e0]) == st1;
    assert Run(hash, departed, views, store, [e0, e1]) == st2;
    assert sid in st1.jobs[n] && sid in st2.jobs[n] && sid in st2.jobs[m];
  }

  /** In every interleaving at most one survivor claims a session of the departed node, if and only if at
      most one survivor's own computation selects itself. */
  lemma OneClaimantIff(hash: Hash, departed: string, views: Views, store: Store, sid: string)
    requires departed !in views && sid in store && store[sid].node == departed
    ensures (forall es :: OneClaimant(Run(hash, departed, views, store, es), sid)) <==>
            OneSelects(hash, views, sid)
  {
    hide Selects, Run, OneClaimant;
    if OneSelects(hash, views, sid) {
      forall es ensures OneClaimant(Run(hash, departed, views, store, es), sid) {
        ClaimantSelects(hash, departed, views, store, es, sid);
      }
    } else {
      var n, m :| Selects(hash, views, n, sid) && Selects(hash, views, m, sid) && n != m;
      var es := TwoCanClaim(hash, departed, views, store, sid, n, m);
      TwoClaims(Run(hash, departed, views, store, es), sid, n, m);
    }
  }

  lemma TwoClaims(st: State, sid: string, n: string, m: string)
    requires (sid, n) in st.claims && (sid, m) in st.claims && n != m
    ensures !OneClaimant(st, sid)
  {
    var a, b := (sid, n), (sid, m);
    assert a in st.claims && b in st.claims && a.1 != b.1;
  }

  lemma ClaimantSelects(hash: Hash, departed: string, views: Views, store: Store, es: seq<Step>, sid: string)
    requires departed !in views
    ensures OneSelects(hash, views, sid) ==>
            OneClaimant(Run(hash, departed, views, store, es), sid)
  {
    hide Selects, Run;
    RunKeepsInv(hash, departed, views, store, es);
  }

  /** When the survivors see the same nodes: in every interleaving each session has at most one claimant,
      only the departed node's sessions change, and each changes to the node everyone computes. */
  lemma AgreedTakeover(hash: Hash, departed: string, views: Views, active: set<string>, store: Store, es: seq<Step>,
                       sid: string)
    requires SameView(views, active) && departed !in active && sid in store
    ensures var st := Run(hash, departed, views, store, es);
            && OneClaimant(st, sid)
            && sid in st.store
            && (st.store[sid] != store[sid] ==>
                  store[sid].node == departed && st.store[sid].node == Target(hash, active, sid))
  {
    hide Target, Selects, Run;
    RunKeepsInv(hash, departed, views, store, es);
    forall n | Selects(hash, views, n, sid) ensures n == Target(hash, active, sid) {
      SelectsSurvivor(hash, views, n, sid);
      SurvivorsAgree(hash, views, active, n, sid);
    }
  }

  lemma SelectsSurvivor(hash: Hash, views: Views, n: string, sid: string)
    requires Selects(hash, views, n, sid)
    ensures n in views
  {}

  /** Survivor n has read session sid from the store. */
  ghost predicate HasListed(es: seq<Step>, n: string, sid: string) {
    exists i :: 0 <= i < |es| && es[i].ListStep? && es[i].n == n && sid in es[i].ids
  }

  ghost predicate NoFailure(es: seq<Step>) {
    forall i :: 0 <= i < |es| && es[i].ClaimStep? ==> es[i].succeeds
  }

  /** A listed session is pending or claimed. */
  lemma {:induction false} ListedIsPendingOrClaimed(hash: Hash, departed: string, views: Views, active: set<string>,
                                                    store: Store, es: seq<Step>, sid: string)
    requires SameView(views, active) && departed !in active && active != {} && NoFailure(es)
    requires sid in store && store[sid].node == departed && HasListed(es, Target(hash, active, sid), sid)
    ensures var st := Run(hash, departed, views, store, es); var n := Target(hash, active, sid);
            sid in JobsOf(st, n) || (sid in st.store && st.store[sid].node == n)
  {
    hide Target, Selects;
    var n, k := Target(hash, active, sid), |es| - 1;
    assert n in active && Selects(hash, views, n, sid) by {
      var any :| any in active;
      SurvivorsAgree(hash, views, active, any, sid);
      SurvivorsAgree(hash, views, active, n, sid);
    }
    var st := Run(hash, departed, views, store, es[..k]);
    RunKeepsInv(hash, departed, views, store, es[..k]);
    AgreedTakeover(hash, departed, views, active, store, es[..k], sid);
    if HasListed(es[..k], n, sid) {
      assert NoFailure(es[..k]);
      ListedIsPendingOrClaimed(hash, departed, views, active, store, es[..k], sid);
      StaysPendingOrClaimed(hash, departed, views, active, store, st, es[k], sid);
    } else {
      var i :| 0 <= i < |es| && es[i].ListStep? && es[i].n == n && sid in es[i].ids;
    }
  }

  lemma StaysPendingOrClaimed(hash: Hash, departed: string, views: Views, active: set<string>, store: Store, st: State,
                              e: Step, sid: string)
    requires SameView(views, active) && Inv(hash, departed, views, store, st) && (e.ClaimStep? ==> e.succeeds)
    requires var n := Target(hash, active, sid);
             sid in JobsOf(st, n) || (sid in st.store && st.store[sid].node == n)
    ensures var st' := Next(hash, departed, views, st, e); var n := Target(hash, active, sid);
            sid in JobsOf(st', n) || (sid in st'.store && st'.store[sid].node == n)
  {
    hide Target, Selects;
    if e.ClaimStep? && e.sid == sid && sid in JobsOf(st, e.n) {
      SelectsSurvivor(hash, views, e.n, sid);
      SurvivorsAgree(hash, views, active, e.n, sid);
    }
  }

  /** When every survivor has listed the departed node's sessions, nothing failed and no job is left, every
      one of those sessions belongs to a survivor. */
  lemma EverySessionIsClaimed(hash: Hash, departed: string, views: Views, active: set<string>, store: Store,
                              es: seq<Step>, sid: string)
    requires SameView(views, active) && departed !in active && active != {} && NoFailure(es)
    requires sid in store && store[sid].node == departed
    requires forall n <- active :: HasListed(es, n, sid)
    requires forall n <- active :: JobsOf(Run(hash, departed, views, store, es), n) == map[]
    ensures sid in Run(hash, departed, views, store, es).store
    ensures Run(hash, departed, views, store, es).store[sid].node == Target(hash, active, sid)
    ensures Target(hash, active, sid) in active
  {
    hide Target, HasListed, Run, NoFailure, JobsOf;
    var any :| any in active;
    SurvivorsAgree(hash, views, active, any, sid);
    ListedIsPendingOrClaimed(hash, departed, views, active, store, es, sid);
  }

  /** Two survivors that do not know of each other both claim a session. */
  lemma SplitViewsClaimTwice(hash: Hash)
    ensures var views := map["a" := [], "b" := []];
            var store := map["s" := Session("gone", NoLeg, NoLeg)];
            exists es :: !OneClaimant(Run(hash, "gone", views, store, es), "s")
  {
    var views: Views := map["a" := [], "b" := []];
    var store := map["s" := Session("gone", NoLeg, NoLeg)];
    assert Selects(hash, views, "a", "s") by { AloneSelects(hash, views, "a", "s"); }
    assert Selects(hash, views, "b", "s") by { AloneSelects(hash, views, "b", "s"); }
    assert "a" != "b" by { assert "a"[0] != "b"[0]; }
    OneClaimantIff(hash, "gone", views, store, "s");
  }

  lemma AloneSelects(hash: Hash, views: Views, n: string, sid: string)
    requires n in views && views[n] == []
    ensures Selects(hash, views, n, sid)
  {
    assert [n] + [] == [n] && [n][..0] == [];
    assert Sort([n]) == Insert(Sort([]), n) == [n];
  }

  // ---- The two computations of takeoverSessionsFromNode

  const TIMEOUT := 30  // seconds

  /** The other nodes heard from recently. */
  function Recent(clusterNodes: map<string, int>, now: int): set<string> {
    set n | n in clusterNodes && clusterNodes[n] > now - TIMEOUT
  }

  /** Whatever order the map is visited in, the result is the sorted list the model assumes. */
  method GetActiveNodesSorted(local: string, clusterNodes: map<string, int>, now: int) returns (nodes: seq<string>)
    ensures Sorted(nodes) && multiset(nodes) == multiset{local} + multiset(Recent(clusterNodes, now))
    ensures forall others :: multiset(others) == multiset(Recent(clusterNodes, now)) ==>
              nodes == ActiveSorted(local, others)
  {
    hide Sort, Sorted;
    var list := [local];
    ghost var others: seq<string> := [];
    var todo := clusterNodes.Keys;
    assert Recent(clusterNodes, now) - todo == {};
    while todo != {}
      invariant todo <= clusterNodes.Keys && list == [local] + others
      invariant multiset(others) == multiset(Recent(clusterNodes, now) - todo)
      decreases todo
    {
      var n :| n in todo;
      VisitNode(Recent(clusterNodes, now), todo, n);
      todo := todo - {n};
      if clusterNodes[n] > now - TIMEOUT {
        list := list + [n];
        others := others + [n];
      }
    }
    assert Recent(clusterNodes, now) - {} == Recent(clusterNodes, now);
    nodes := Sort(list);
    SortSorts(list);
    forall same | multiset(same) == multiset(Recent(clusterNodes, now)) ensures nodes == ActiveSorted(local, same) {
      SortDependsOnContents(list, [local] + same);
    }
  }

  lemma VisitNode(recent: set<string>, todo: set<string>, n: string)
    requires n in todo
    ensures multiset(recent - (todo - {n})) == multiset(recent - todo) + if n in recent then multiset{n} else multiset{}
  {
    if n in recent {
      assert recent - (todo - {n}) == (recent - todo) + {n};
      assert multiset((recent - todo) + {n}) == multiset(recent - todo) + multiset{n};
    } else {
      assert recent - (todo - {n}) == recent - todo;
    }
  }

  function Fetched(store: Store, ids: set<string>): Store {
    map s | s in ids && s in store :: store[s]
  }

  /** Keeps the departed node's sessions that this node selects itself for. */
  method CollectJobs(hash: Hash, departed: string, local: string, nodes: seq<string>,
                     fetched: Store) returns (jobs: Store)
    ensures forall views, store, ids ::
              (fetched == Fetched(store, ids) && local in views && nodes == ActiveSorted(local, views[local])) ==>
                jobs == Share(hash, departed, views, store, local, ids)
  {
    hide SelectNode, ActiveSorted;
    jobs := map[];
    var todo := fetched.Keys;
    while todo != {}
      invariant todo <= fetched.Keys
      invariant jobs == map s | s in fetched && s !in todo && fetched[s].node == departed &&
                SelectNode(hash, local, s, nodes) == local :: fetched[s]
      decreases todo
    {
      var s :| s in todo;
      todo := todo - {s};
      if fetched[s].node == departed {
        var target := SelectNode(hash, local, s, nodes);
        if target == local {
          jobs := jobs[s := fetched[s]];
        }
      }
    }
  }
}

/** Carrying out one claim: the ports it takes, and giving them back when it fails. */
module TakeoverPorts {
  import opened Basics
  import opened PortSpec
  import Runs = PortRuns
  import opened PortAllocators
  import opened Takeover

  /** releasePortsOnError. */
  function GiveBack(st: PortSpec.State, ports: seq<int>, now: int): PortSpec.State
    decreases |ports|
  {
    if ports == [] then st
    else GiveBack(if ports[0] > 0 then Release(st, ports[0], now).0 else st, ports[1..], now)
  }

  function Positive(ports: seq<int>): seq<int> {
    if ports == [] then [] else (if ports[0] > 0 then [ports[0]] else []) + Positive(ports[1..])
  }

  lemma {:induction false} GiveBackIsReleaseAll(st: PortSpec.State, ports: seq<int>, now: int)
    ensures GiveBack(st, ports, now) == ReleaseAll(st, Positive(ports), now)
    decreases |ports|
  {
    hide Release;
    if ports == [] {
    } else {
      var st1 := if ports[0] > 0 then Release(st, ports[0], now).0 else st;
      GiveBackIsReleaseAll(st1, ports[1..], now);
      if ports[0] > 0 {
        assert Positive(ports)[1..] == Positive(ports[1..]);
      } else {
        assert Positive(ports) == Positive(ports[1..]);
      }
    }
  }

  // ---- Recording ports for a session and taking them off its list again

  function Listing(sessions: map<string, seq<int>>, sid: string, ports: seq<int>): map<string, seq<int>> {
    if ports == [] then sessions else sessions[sid := ListOf(sessions, sid) + ports]
  }

  function UntrackAll(sessions: map<string, seq<int>>, sid: string, ports: seq<int>): map<string, seq<int>> {
    if ports == [] then sessions else UntrackAll(Untrack(sessions, sid, ports[0]), sid, ports[1..])
  }

  lemma {:induction false} WithoutMiddle(s: seq<int>, p: int, t: seq<int>)
    requires p !in s
    ensures Without(s + [p] + t, p) == s + t
  {
    if s == [] {
      assert [] + [p] + t == [p] + t && [] + t == t;
    } else {
      assert (s + [p] + t)[1..] == s[1..] + [p] + t;
      WithoutMiddle(s[1..], p, t);
      assert [s[0]] + (s[1..] + t) == s + t;
    }
  }

  lemma {:induction false} ListingComesOff(sessions: map<string, seq<int>>, sid: string, ports: seq<int>)
    requires NoRepeat(ports) && forall p <- ports :: p !in ListOf(sessions, sid)
    requires sid in sessions ==> sessions[sid] != []
    ensures UntrackAll(Listing(sessions, sid, ports), sid, ports) == sessions
  {
    if ports == [] {
    } else {
      var s, rest := ListOf(sessions, sid), ports[1..];
      assert s + ports == s + [ports[0]] + rest;
      WithoutMiddle(s, ports[0], rest);
      assert Untrack(Listing(sessions, sid, ports), sid, ports[0]) == Listing(sessions, sid, rest) by {
        if rest == [] {
          assert s + [] == s;
        }
      }
      ListingComesOff(sessions, sid, rest);
    }
  }

  lemma ReleaseOfNamed(st: PortSpec.State, sid: string, p: int, now: int)
    requires p in st.owner && st.owner[p] == sid && sid != ""
    ensures Release(st, p, now).0.owner == st.owner - {p}
    ensures Release(st, p, now).0.sessions == Untrack(st.sessions, sid, p)
  {}

  lemma {:induction false} ReleaseAllUntracks(st: PortSpec.State, sid: string, ports: seq<int>, now: int)
    requires sid != "" && NoRepeat(ports) && forall p <- ports :: p in st.owner && st.owner[p] == sid
    ensures ReleaseAll(st, ports, now).sessions == UntrackAll(st.sessions, sid, ports)
    decreases |ports|
  {
    hide Release, Untrack;
    if ports == [] {
    } else {
      ReleaseOfNamed(st, sid, ports[0], now);
      ReleaseAllUntracks(Release(st, ports[0], now).0, sid, ports[1..], now);
    }
  }

  lemma RecordPairEffect(st: PortSpec.State, sid: string, p: int)
    ensures var st' := RecordPair(st, p, sid);
            st'.sessions == Listing(st.sessions, sid, [p, p + 1]) && st'.owner == st.owner[p := sid][p + 1 := sid]
  {
    assert ListOf(st.sessions, sid) + [p] + [p + 1] == ListOf(st.sessions, sid) + [p, p + 1];
  }

  lemma PairGoesOn(c: Config, st: PortSpec.State, sid: string, bindable: Network)
    requires AllocatePair(c, st, sid, bindable).1.Some?
    ensures var (st', r) := AllocatePair(c, st, sid, bindable); var p := r.value;
            st'.sessions == Listing(st.sessions, sid, [p, p + 1]) && st'.owner == st.owner[p := sid][p + 1 := sid]
  {
    hide FindPair, Listing, RecordPair, SessionPorts;
    if st.pool != [] {
      RecordPairEffect(st.(pool := st.pool[1..]), sid, st.pool[0]);
    } else {
      var p := FindPair(c, st, bindable).value;
      RecordPairEffect(Reserve(st, p), sid, p);
    }
  }

  lemma FailureLeaves(c: Config, st: PortSpec.State, sid: string, bindable: Network)
    requires AllocatePair(c, st, sid, bindable).1 == None
    ensures var st' := AllocatePair(c, st, sid, bindable).0; st'.sessions == st.sessions && st'.owner == st.owner
  {
    hide FindPair, RecordPair;
  }

  lemma ListsHoldOwned(c: Config, st: PortSpec.State, sid: string)
    requires PortSpec.Inv(c, st)
    ensures sid in st.sessions ==> st.sessions[sid] != []
    ensures forall p <- ListOf(st.sessions, sid) :: p in Owned(st)
  {
    hide PoolDistinct, NoRepeat, Aligned, Counted;
  }

  /** Giving a freshly allocated pair back restores the session lists, if and only if the session has a
      name and the pair is positive. */
  lemma GiveBackRestoresIff(c: Config, st: PortSpec.State, sid: string, bindable: Network, now: int)
    requires PortSpec.Inv(c, st) && AllocatePair(c, st, sid, bindable).1.Some?
    ensures var (st', r) := AllocatePair(c, st, sid, bindable); var p := r.value;
            GiveBack(st', [p, p + 1], now).sessions == st.sessions <==> sid != "" && p > 0
  {
    hide PortSpec.Inv, AllocatePair, UntrackAll, ReleaseAll, GiveBack, Listing;
    var (st', r) := AllocatePair(c, st, sid, bindable);
    var p := r.value;
    Runs.AllocatePairKeeps(c, st, sid, bindable);
    PairGoesOn(c, st, sid, bindable);
    ListsHoldOwned(c, st, sid);
    var back := GiveBack(st', [p, p + 1], now);
    PositivePair(p);
    GiveBackIsReleaseAll(st', [p, p + 1], now);
    ListingComesOff(st.sessions, sid, [p, p + 1]);
    ListingComesOff(st.sessions, sid, [p]);
    if sid == "" {
      Runs.NamelessStays(st', Positive([p, p + 1]), now);
      assert ListOf(back.sessions, sid) == ListOf(st.sessions, sid) +
             [p, p + 1] by { ListingAt(st.sessions, sid, [p, p + 1]); }
    } else {
      ReleaseAllUntracks(st', sid, Positive([p, p + 1]), now);
      if p <= 0 {
        LeftOver(st.sessions, sid, p);
      }
    }
  }

  /** Giving a pair back to the nameless session leaves its list behind; so does giving back the pair at port 0. */
  lemma GiveBackLeaves(now: int)
    ensures var c := PortSpec.Config(10, 20, 0, 0, 4, true);
            var (st, r) := AllocatePair(c, PortSpec.New(c), "", _ => true);
            r == Some(10) && GiveBack(st, [10, 11], now).sessions != PortSpec.New(c).sessions
    ensures var c := PortSpec.Config(0, 20, 0, 0, 4, true);
            var (st, r) := AllocatePair(c, PortSpec.New(c), "s", _ => true);
            r == Some(0) && GiveBack(st, [0, 1], now).sessions != PortSpec.New(c).sessions
  {
    hide PortSpec.Inv, AllocatePair, GiveBack;
    var bindable: Network := _ => true;
    var c := PortSpec.Config(10, 20, 0, 0, 4, true);
    NewIsValid(c);
    Runs.FirstPair(c, "", bindable);
    GiveBackRestoresIff(c, PortSpec.New(c), "", bindable, now);
    var d := PortSpec.Config(0, 20, 0, 0, 4, true);
    NewIsValid(d);
    Runs.FirstPair(d, "s", bindable);
    GiveBackRestoresIff(d, PortSpec.New(d), "s", bindable, now);
  }

  lemma PositivePair(p: int)
    ensures Positive([p, p + 1]) == if p > 0 then [p, p + 1] else if p == 0 then [1] else []
  {
    assert [p, p + 1][1..] == [p + 1] && [p + 1][1..] == [];
    assert Positive([p + 1]) == if p + 1 > 0 then [p + 1] else [];
  }

  lemma ListingAt(sessions: map<string, seq<int>>, sid: string, ports: seq<int>)
    ensures ListOf(Listing(sessions, sid, ports), sid) == ListOf(sessions, sid) + ports
  {
    if ports == [] {
      assert ListOf(sessions, sid) + [] == ListOf(sessions, sid);
    }
  }

  /** With a port that is not positive, part of the pair stays on the list. */
  lemma LeftOver(sessions: map<string, seq<int>>, sid: string, p: int)
    requires p <= 0 && p !in ListOf(sessions, sid) && p + 1 !in ListOf(sessions, sid)
    ensures UntrackAll(Listing(sessions, sid, [p, p + 1]), sid, Positive([p, p + 1])) != sessions
  {
    PositivePair(p);
    var more := Listing(sessions, sid, [p, p + 1]);
    var s := ListOf(sessions, sid);
    ListingAt(sessions, sid, [p, p + 1]);
    if p == 0 {
      assert s + [0, 1] == (s + [0]) + [1] + [];
      WithoutMiddle(s + [0], 1, []);
      assert (s + [0]) + [] == s + [0];
      assert Without(more[sid], 1) == s + [0];
      var after := Untrack(more, sid, 1);
      assert UntrackAll(more, sid, [1]) == UntrackAll(after, sid, [1][1..]) == after;
      assert after[sid] == s + [0];
    } else {
      assert UntrackAll(more, sid, []) == more;
    }
  }

  // ---- One claim

  /** From st to st', exactly these ports were handed to the session. */
  ghost predicate Grown(c: Config, st: PortSpec.State, st': PortSpec.State, sid: string, ports: seq<int>) {
    && PortSpec.Inv(c, st')
    && st'.sessions == Listing(st.sessions, sid, ports)
    && Owned(st') == Owned(st) + Runs.PortSet(ports)
    && NoRepeat(ports)
    && (forall p <- ports :: p > 0 && p !in Owned(st) && p in st'.owner && st'.owner[p] == sid)
  }

  lemma GrowsByPair(c: Config, st: PortSpec.State, st': PortSpec.State, sid: string, ports: seq<int>, bindable: Network)
    requires PortSpec.Inv(c, st) && Grown(c, st, st', sid, ports) && ScanStart(c) >= 1
    ensures var (st'', r) := AllocatePair(c, st', sid, bindable);
            match r
            case Some(p) => Grown(c, st, st'', sid, ports + [p, p + 1]) && p > 0
            case None => Grown(c, st, st'', sid, ports)
  {
    hide PortSpec.Inv, AllocatePair, Listing, Owned, ScanStart, NoRepeat;
    var (st'', r) := AllocatePair(c, st', sid, bindable);
    Runs.AllocatePairKeeps(c, st', sid, bindable);
    Runs.PairOwned(c, st', sid, bindable);
    match r
    case None => FailureLeaves(c, st', sid, bindable);
    case Some(p) =>
      PairGoesOn(c, st', sid, bindable);
      ListingAppends(st.sessions, sid, ports, [p, p + 1]);
      PairIsNew(ports, p);
  }

  lemma ListingAppends(sessions: map<string, seq<int>>, sid: string, a: seq<int>, b: seq<int>)
    ensures Listing(Listing(sessions, sid, a), sid, b) == Listing(sessions, sid, a + b)
  {
    var s := ListOf(sessions, sid);
    assert (s + a) + b == s + (a + b);
    if a == [] { assert a + b == b; }
    if b == [] { assert a + b == a; }
  }

  lemma PairIsNew(ports: seq<int>, p: int)
    requires NoRepeat(ports) && p !in ports && p + 1 !in ports
    ensures NoRepeat(ports + [p, p + 1])
    ensures Runs.PortSet(ports + [p, p + 1]) == Runs.PortSet(ports) + {p, p + 1}
  {}

  /** Giving the ports back undoes the growth. */
  lemma Shrinks(c: Config, st: PortSpec.State, st': PortSpec.State, sid: string, ports: seq<int>, all: seq<int>,
                now: int)
    requires PortSpec.Inv(c, st) && Grown(c, st, st', sid, ports) && sid != "" && Positive(all) == ports
    ensures var back := GiveBack(st', all, now);
            PortSpec.Inv(c, back) && back.sessions == st.sessions && Owned(back) == Owned(st)
  {
    hide PortSpec.Inv, Listing, Owned, NoRepeat, GiveBack, ReleaseAll, Positive, UntrackAll;
    GiveBackIsReleaseAll(st', all, now);
    ReleaseAllUntracks(st', sid, ports, now);
    Runs.ReleaseAllKeeps(c, st', ports, now);
    ListsHoldOwned(c, st, sid);
    ListingComesOff(st.sessions, sid, ports);
    AddedAndTaken(Owned(st), ports);
  }

  lemma AddedAndTaken(a: set<int>, ports: seq<int>)
    requires forall p <- ports :: p !in a
    ensures a + Runs.PortSet(ports) - Runs.PortSet(ports) == a
  {
    var b := Runs.PortSet(ports);
    assert forall p :: p in b ==> p in ports;
    assert forall p :: p in a + b - b <==> p in a;
  }

  method ReleasePortsOnError(pa: PortAllocator, ports: seq<int>, now: int)
    modifies pa
    ensures pa.View() == GiveBack(old(pa.View()), ports, now)
  {
    hide Release;
    var i := 0;
    assert ports[0..] == ports;
    while i < |ports|
      invariant 0 <= i <= |ports|
      invariant GiveBack(pa.View(), ports[i..], now) == GiveBack(old(pa.View()), ports, now)
    {
      assert ports[i..][0] == ports[i] && ports[i..][1..] == ports[i + 1..];
      if ports[i] > 0 {
        var _ := pa.ReleasePort(ports[i], now);
      }
      i := i + 1;
    }
  }

  lemma NothingGrown(c: Config, st: PortSpec.State, sid: string)
    requires PortSpec.Inv(c, st)
    ensures Grown(c, st, st, sid, [])
  {
    hide PortSpec.Inv, Owned;
    assert Runs.PortSet([]) == {};
  }

  lemma PairIsPositive(c: Config, st: PortSpec.State, st': PortSpec.State, sid: string, ports: seq<int>)
    requires Grown(c, st, st', sid, ports)
    ensures forall p <- ports :: p > 0
  {}

  lemma GiveBackPair(st: PortSpec.State, p: int, now: int)
    requires p > 0
    ensures GiveBack(st, [p, p + 1], now) == Release(Release(st, p, now).0, p + 1, now).0
    ensures Positive([p, p + 1]) == [p, p + 1]
  {
    hide Release;
    PositivePair(p);
    assert [p, p + 1][1..] == [p + 1] && [p + 1][1..] == [];
    var st1 := Release(st, p, now).0;
    assert GiveBack(st, [p, p + 1], now) == GiveBack(st1, [p + 1], now);
    assert GiveBack(st1, [p + 1], now) == GiveBack(Release(st1, p + 1, now).0, [], now);
  }

  lemma PositiveLegs(caller: Leg, callee: Leg)
    requires forall p <- LegPorts(caller) + LegPorts(callee) :: p > 0
    ensures Positive(PortOr0(caller) + PortOr0(callee)) == LegPorts(caller) + LegPorts(callee)
  {
    var both := LegPorts(caller) + LegPorts(callee);
    assert (forall p <- LegPorts(caller) :: p in both) && (forall p <- LegPorts(callee) :: p in both);
    PositiveConcat(PortOr0(caller), PortOr0(callee));
    PositiveLeg(caller);
    PositiveLeg(callee);
  }

  lemma PositiveLeg(leg: Leg)
    requires forall p <- LegPorts(leg) :: p > 0
    ensures Positive(PortOr0(leg)) == LegPorts(leg)
  {
    if leg.Leg? {
      assert leg.rtp in LegPorts(leg) && leg.rtcp in LegPorts(leg);
      assert PortOr0(leg)[1..] == [leg.rtcp] && [leg.rtcp][1..] == [];
      assert Positive([leg.rtcp]) == [leg.rtcp];
    } else {
      assert [0, 0][1..] == [0] && [0][1..] == [];
    }
  }

  lemma {:induction false} PositiveConcat(a: seq<int>, b: seq<int>)
    ensures Positive(a + b) == Positive(a) + Positive(b)
  {
    if a == [] {
      assert a + b == b;
    } else {
      assert (a + b)[1..] == a[1..] + b;
      PositiveConcat(a[1..], b);
    }
  }

  function LegPorts(leg: Leg): seq<int> {
    if leg.NoLeg? then [] else [leg.rtp, leg.rtcp]
  }

  /** The port variables of a leg, zero when there is none. */
  function PortOr0(leg: Leg): seq<int> {
    if leg.NoLeg? then [0, 0] else [leg.rtp, leg.rtcp]
  }

  /** One allocation on the way, after `ports` were handed out since state st. */
  method AllocateLeg(pa: PortAllocator, sid: string, bindable: Network, ghost st: PortSpec.State, ghost ports: seq<int>)
    returns (leg: Leg)
    modifies pa
    ensures leg.Leg? ==> leg.rtcp == leg.rtp + 1
    ensures PortSpec.Inv(pa.config, st) && ScanStart(pa.config) >= 1 &&
            Grown(pa.config, st, old(pa.View()), sid, ports) ==>
              Grown(pa.config, st, pa.View(), sid, ports + LegPorts(leg))
  {
    hide AllocatePair, PortSpec.Inv, Owned, Grown, ScanStart;
    assert ports + [] == ports;
    ghost var before := pa.View();
    if PortSpec.Inv(pa.config, st) && ScanStart(pa.config) >= 1 && Grown(pa.config, st, before, sid, ports) {
      GrowsByPair(pa.config, st, before, sid, ports, bindable);
    }
    var got := pa.AllocatePortPair(sid, bindable);
    return if got.Some? then Leg(got.value, got.value + 1) else NoLeg;
  }

  /** One claim, with what the network allows during each allocation and whether encoding and storing
      succeed. On every error the session lists, the ports in use and the invariant are as before; on
      success exactly the new legs' ports were added. */
  method ExecuteSessionTakeover(pa: PortAllocator, sid: string, session: Session, local: string,
                                bindable: Network, bindable': Network, marshals: bool, stores: bool, now: int)
    returns (r: Option<Session>)
    modifies pa
    ensures r.Some? ==> marshals && stores && r.value == Taken(session, local, r.value.caller, r.value.callee)
    ensures sid != "" && ScanStart(pa.config) >= 1 && PortSpec.Inv(pa.config, old(pa.View())) ==>
              match r
              case None => Restored(pa.config, old(pa.View()), pa.View())
              case Some(s) =>
                Grown(pa.config, old(pa.View()), pa.View(), sid, LegPorts(s.caller) + LegPorts(s.callee))
  {
    hide AllocatePair, GiveBack, PortSpec.Inv, Owned, Grown, Restored, Release, ScanStart;
    ghost var good := sid != "" && ScanStart(pa.config) >= 1 && PortSpec.Inv(pa.config, pa.View());
    ghost var st := pa.View();
    if good {
      NothingGrown(pa.config, st, sid);
    }
    var caller, callee := NoLeg, NoLeg;
    if session.caller.Leg? {
      caller := AllocateLeg(pa, sid, bindable, st, []);
      assert [] + LegPorts(caller) == LegPorts(caller);
      if caller.NoLeg? {
        if good {
          GrownByNothing(pa.config, st, pa.View(), sid);
        }
        return None;
      }
    }
    if session.callee.Leg? {
      callee := AllocateLeg(pa, sid, bindable', st, LegPorts(caller));
      if callee.NoLeg? {
        ghost var st1 := pa.View();
        if good {
          UndoCaller(pa.config, st, st1, sid, caller, now);
        }
        if caller.Leg? && caller.rtp > 0 {
          var _ := pa.ReleasePort(caller.rtp, now);
          var _ := pa.ReleasePort(caller.rtcp, now);
        }
        return None;
      }
    }
    assert LegPorts(caller) + [] == LegPorts(caller);
    if !marshals || !stores {
      if good {
        UndoBoth(pa.config, st, pa.View(), sid, caller, callee, now);
      }
      ReleasePortsOnError(pa, PortOr0(caller) + PortOr0(callee), now);
      return None;
    }
    return Some(Session(local, caller, callee));
  }

  /** The invariant holds, and the session lists and the ports in use are as they were. */
  ghost predicate Restored(c: Config, st: PortSpec.State, st': PortSpec.State) {
    PortSpec.Inv(c, st') && st'.sessions == st.sessions && Owned(st') == Owned(st)
  }

  lemma GrownByNothing(c: Config, st: PortSpec.State, st': PortSpec.State, sid: string)
    requires Grown(c, st, st', sid, [])
    ensures Restored(c, st, st')
  {
    hide PortSpec.Inv, Owned;
    assert Runs.PortSet([]) == {};
  }

  lemma UndoCaller(c: Config, st: PortSpec.State, st': PortSpec.State, sid: string, caller: Leg, now: int)
    requires PortSpec.Inv(c, st) && sid != "" && Grown(c, st, st', sid, LegPorts(caller) + [])
    requires caller.Leg? ==> caller.rtcp == caller.rtp + 1
    ensures if caller.NoLeg? then Restored(c, st, st')
            else caller.rtp > 0 && Restored(c, st, Release(Release(st', caller.rtp, now).0, caller.rtcp, now).0)
  {
    hide PortSpec.Inv, Owned, Grown, Release, GiveBack, Positive;
    assert LegPorts(caller) + [] == LegPorts(caller);
    if caller.NoLeg? {
      GrownByNothing(c, st, st', sid);
    } else {
      PairIsPositive(c, st, st', sid, LegPorts(caller));
      assert caller.rtp in LegPorts(caller);
      GiveBackPair(st', caller.rtp, now);
      Shrinks(c, st, st', sid, LegPorts(caller), LegPorts(caller), now);
    }
  }

  lemma UndoBoth(c: Config, st: PortSpec.State, st': PortSpec.State, sid: string, caller: Leg, callee: Leg, now: int)
    requires PortSpec.Inv(c, st) && sid != "" && Grown(c, st, st', sid, LegPorts(caller) + LegPorts(callee))
    ensures Restored(c, st, GiveBack(st', PortOr0(caller) + PortOr0(callee), now))
  {
    hide PortSpec.Inv, Owned, Grown, GiveBack, Positive;
    PairIsPositive(c, st, st', sid, LegPorts(caller) + LegPorts(callee));
    PositiveLegs(caller, callee);
    Shrinks(c, st, st', sid, LegPorts(caller) + LegPorts(callee), PortOr0(caller) + PortOr0(callee), now);
  }
}
