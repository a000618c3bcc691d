/** Sorted sequences of ring points. */
module SortedPoints {

  /** A 32-bit hash value. */
  type Point = x: int | 0 <= x < 0x1_0000_0000

  ghost predicate Sorted(s: seq<Point>) {
    forall i, j :: 0 <= i < j < |s| ==> s[i] <= s[j]
  }

  function Insert(s: seq<Point>, x: Point): seq<Point> {
    if s == [] then [x]
    else if s[|s| - 1] <= x then s + [x]
    else Insert(s[..|s| - 1], x) + [s[|s| - 1]]
  }

  /** sort.Slice: some sorting of s, here by insertion. */
  function Sort(s: seq<Point>): seq<Point> {
    if s == [] then [] else Insert(Sort(s[..|s| - 1]), s[|s| - 1])
  }

  lemma {:induction false} InsertAdds(s: seq<Point>, x: Point)
    ensures multiset(Insert(s, x)) == multiset(s) + multiset{x}
  {
    if s != [] {
      var n := |s| - 1;
      assert s == s[..n] + [s[n]];
      InsertAdds(s[..n], x);
    }
  }

  lemma {:induction false} InsertSorts(s: seq<Point>, x: Point)
    requires Sorted(s)
    ensures Sorted(Insert(s, x))
  {
    if s != [] && s[|s| - 1] > x {
      var n := |s| - 1;
      InsertSorts(s[..n], x);
      InsertAdds(s[..n], x);
      var t := Insert(s[..n], x);
      hide Insert;
      forall i | 0 <= i < |t| ensures t[i] <= s[n] {
        assert t[i] in multiset(t);
        assert t[i] == x || t[i] in s[..n];
      }
      assert Sorted(t + [s[n]]);
    }
  }

  lemma {:induction false} SortSorts(s: seq<Point>)
    ensures Sorted(Sort(s)) && multiset(Sort(s)) == multiset(s)
  {
    if s != [] {
      var n := |s| - 1;
      assert s == s[..n] + [s[n]];
      SortSorts(s[..n]);
      InsertSorts(Sort(s[..n]), s[n]);
      InsertAdds(Sort(s[..n]), s[n]);
    }
  }

  lemma WithoutLast(s: seq<Point>)
    requires s != []
    ensures multiset(s[..|s| - 1]) == multiset(s) - multiset{s[|s| - 1]}
    ensures Sorted(s) ==> Sorted(s[..|s| - 1])
  {
    assert s == s[..|s| - 1] + [s[|s| - 1]];
  }

  lemma LastIsLargest(s: seq<Point>, x: Point)
    requires Sorted(s) && x in multiset(s)
    ensures s != [] && x <= s[|s| - 1]
  {
    var i :| 0 <= i < |s| && s[i] == x;
  }

  /** A multiset has only one sorted sequence. */
  lemma {:induction false} SortedIsUnique(a: seq<Point>, b: seq<Point>)
    requires Sorted(a) && Sorted(b) && multiset(a) == multiset(b)
    ensures a == b
  {
    hide Sorted;
    assert |a| == |multiset(a)| == |multiset(b)| == |b|;
    if a != [] {
      var n := |a| - 1;
      LargestAgree(a, b);
      WithoutLast(a);
      WithoutLast(b);
      SortedIsUnique(a[..n], b[..n]);
      assert a == a[..n] + [a[n]] && b == b[..n] + [b[n]];
    }
  }

  lemma LargestAgree(a: seq<Point>, b: seq<Point>)
    requires Sorted(a) && Sorted(b) && multiset(a) == multiset(b) && a != [] && b != []
    ensures a[|a| - 1] == b[|b| - 1]
  {
    hide Sorted;
    var x, y := a[|a| - 1], b[|b| - 1];
    assert x in multiset(a) && y in multiset(b);
    LastIsLargest(b, x);
    LastIsLargest(a, y);
  }

  /** The elements of s outside a set, in order. */
  function Outside(s: seq<Point>, gone: set<Point>): seq<Point> {
    if s == [] then []
    else Outside(s[..|s| - 1], gone) + (if s[|s| - 1] in gone then [] else [s[|s| - 1]])
  }

  lemma {:induction false} OutsideMembers(s: seq<Point>, gone: set<Point>)
    ensures forall x :: x in Outside(s, gone) <==> x in s && x !in gone
    ensures forall x :: multiset(Outside(s, gone))[x] == if x in gone then 0 else multiset(s)[x]
  {
    if s == [] {
    } else {
      var n := |s| - 1;
      assert s == s[..n] + [s[n]];
      OutsideMembers(s[..n], gone);
    }
  }

  lemma {:induction false} OutsideSorted(s: seq<Point>, gone: set<Point>)
    requires Sorted(s)
    ensures Sorted(Outside(s, gone))
  {
    if s == [] {
    } else {
      var n := |s| - 1;
      OutsideSorted(s[..n], gone);
      OutsideMembers(s[..n], gone);
      var t := Outside(s[..n], gone);
      forall i | 0 <= i < |t| ensures t[i] <= s[n] {
        assert t[i] in t;
      }
    }
  }

  lemma OutsideKeeps(s: seq<Point>, gone: set<Point>)
    ensures forall x :: x in Outside(s, gone) <==> x in s && x !in gone
    ensures Sorted(s) ==> Sorted(Outside(s, gone))
    ensures forall x :: multiset(Outside(s, gone))[x] == if x in gone then 0 else multiset(s)[x]
  {
    hide Outside, Sorted;
    OutsideMembers(s, gone);
    if Sorted(s) {
      OutsideSorted(s, gone);
    }
  }

  /** Index of the first point at or after hash, or the length. */
  function FirstAt(s: seq<Point>, hash: Point): (i: nat)
    ensures i <= |s|
  {
    if s == [] then 0
    else
      var i := FirstAt(s[..|s| - 1], hash);
      if i < |s| - 1 then i else if s[|s| - 1] >= hash then |s| - 1 else |s|
  }

  lemma {:induction false} FirstAtIsFirst(s: seq<Point>, hash: Point)
    ensures forall k :: 0 <= k < FirstAt(s, hash) ==> s[k] < hash
    ensures FirstAt(s, hash) < |s| ==> s[FirstAt(s, hash)] >= hash
  {
    if s != [] {
      FirstAtIsFirst(s[..|s| - 1], hash);
    }
  }

  /** sort.Search. */
  method BinarySearch(s: seq<Point>, hash: Point) returns (i: nat)
    requires Sorted(s)
    ensures i == FirstAt(s, hash)
  {
    FirstAtIsFirst(s, hash);
    var lo, hi := 0, |s|;
    while lo < hi
      invariant 0 <= lo <= hi <= |s|
      invariant forall k :: 0 <= k < lo ==> s[k] < hash
      invariant forall k :: hi <= k < |s| ==> s[k] >= hash
    {
      var mid := lo + (hi - lo) / 2;
      if s[mid] < hash {
        lo := mid + 1;
      } else {
        hi := mid;
      }
    }
    i := lo;
    var f := FirstAt(s, hash);
    assert f < |s| ==> s[f] >= hash;
    assert lo < |s| ==> s[lo] >= hash;
  }

  /** p is the point a hash falls to: the first at or after it, or the lowest of all. */
  ghost predicate IsSuccessor(points: set<Point>, hash: Point, p: Point) {
    && p in points
    && (p >= hash ==> forall q <- points :: q >= hash ==> p <= q)
    && (p < hash ==> (forall q <- points :: q < hash && p <= q))
  }

  function Successor(ring: seq<Point>, hash: Point): Point
    requires ring != []
  {
    var i := FirstAt(ring, hash);
    ring[if i < |ring| then i else 0]
  }

  function Members(ring: seq<Point>): set<Point> {
    set p: Point | p in ring
  }

  lemma SuccessorIsSuccessor(ring: seq<Point>, hash: Point)
    requires ring != [] && Sorted(ring)
    ensures IsSuccessor(Members(ring), hash, Successor(ring, hash))
  {
    FirstAtIsFirst(ring, hash);
    forall q | q in ring
      ensures var p := Successor(ring, hash);
              (p >= hash ==> (q >= hash ==> p <= q)) && (p < hash ==> q < hash && p <= q)
    {
      var k :| 0 <= k < |ring| && ring[k] == q;
    }
  }

  lemma SuccessorIsUnique(points: set<Point>, hash: Point, p: Point, q: Point)
    requires IsSuccessor(points, hash, p) && IsSuccessor(points, hash, q)
    ensures p == q
  {}

  /** When a hash's point goes, the hash and the point fall to the same point afterwards. */
  lemma SuccessorThroughGone(points: set<Point>, gone: set<Point>, hash: Point, p: Point, q: Point)
    requires IsSuccessor(points, hash, p) && p in gone && IsSuccessor(points - gone, p, q)
    ensures IsSuccessor(points - gone, hash, q)
  {}

  /** More points: a hash stays where it was, or falls to one of the new points. */
  lemma SuccessorWithMore(points: set<Point>, more: set<Point>, hash: Point, p: Point, p': Point)
    requires IsSuccessor(points, hash, p) && IsSuccessor(points + more, hash, p')
    ensures p' == p || p' in more
  {}

  /** Fewer points: a hash whose point survives stays there, and no other does. */
  lemma SuccessorWithFewer(points: set<Point>, gone: set<Point>, hash: Point, p: Point, p': Point)
    requires IsSuccessor(points, hash, p) && IsSuccessor(points - gone, hash, p')
    ensures p' == p <==> p !in gone
  {
    if p !in gone {
      assert p in points - gone;
      assert p' in points;
    }
  }
}

/** Sums over the values of a map. */
module MapSums {

  ghost function SumOver(m: map<string, int>, keys: set<string>): int
    requires keys <= m.Keys
  {
    if keys == {} then 0
    else
      var k :| k in keys;
      m[k] + SumOver(m, keys - {k})
  }

  ghost function Sum(m: map<string, int>): int {
    SumOver(m, m.Keys)
  }

  /** The sum does not depend on which key is taken out first. */
  lemma {:induction false} SumSplit(m: map<string, int>, keys: set<string>, k: string)
    requires keys <= m.Keys && k in keys
    ensures SumOver(m, keys) == m[k] + SumOver(m, keys - {k})
    decreases |keys|
  {
    var j :| j in keys && SumOver(m, keys) == m[j] + SumOver(m, keys - {j});
    if j != k {
      SumSplit(m, keys - {j}, k);
      SumSplit(m, keys - {k}, j);
      assert keys - {j} - {k} == keys - {k} - {j};
    }
  }

  lemma {:induction false} SumAgrees(m: map<string, int>, n: map<string, int>, keys: set<string>)
    requires keys <= m.Keys && keys <= n.Keys && forall k <- keys :: m[k] == n[k]
    ensures SumOver(m, keys) == SumOver(n, keys)
    decreases |keys|
  {
    if keys != {} {
      var k :| k in keys;
      SumSplit(m, keys, k);
      SumSplit(n, keys, k);
      SumAgrees(m, n, keys - {k});
    }
  }

  lemma SumUpdate(m: map<string, int>, k: string, v: int)
    ensures Sum(m[k := v]) == Sum(m) + v - (if k in m then m[k] else 0)
  {
    var n := m[k := v];
    SumSplit(n, n.Keys, k);
    assert n.Keys - {k} == m.Keys - {k};
    SumAgrees(m, n, m.Keys - {k});
    if k in m {
      SumSplit(m, m.Keys, k);
    } else {
      assert m.Keys - {k} == m.Keys;
    }
  }

  lemma SumRemove(m: map<string, int>, k: string)
    requires k in m
    ensures Sum(m - {k}) == Sum(m) - m[k]
  {
    var n := m - {k};
    SumSplit(m, m.Keys, k);
    assert n.Keys == m.Keys - {k};
    SumAgrees(m, n, n.Keys);
  }
}

/** The consistent-hash ring as a value, and what adding and removing nodes does to key ownership. */
module HashRings {
  import opened Basics
  import opened SortedPoints
  import opened MapSums

  datatype Node = Node(id: string, weight: int, healthy: bool)

  /** The two hash functions, left open: of a node's replica, and of a key. */
  datatype Hashes = Hashes(replica: (string, int) -> Point, key: string -> Point)

  datatype Ring = Ring(nodes: map<string, Node>, ring: seq<Point>, ringNodes: map<Point, string>,
                       nodeLoad: map<string, int>, totalLoad: int)

  const EMPTY := Ring(map[], [], map[], map[], 0)

  function Replicas(factor: int, node: Node): int {
    if node.weight > 0 then factor * node.weight else factor
  }

  /** The points of a node's first n replicas. */
  function Points(h: Hashes, id: string, n: int): seq<Point> {
    if n <= 0 then [] else Points(h, id, n - 1) + [h.replica(id, n - 1)]
  }

  function PointSet(h: Hashes, factor: int, node: Node): set<Point> {
    Members(Points(h, node.id, Replicas(factor, node)))
  }

  function Claim(ringNodes: map<Point, string>, points: set<Point>, id: string): map<Point, string> {
    map p | p in ringNodes.Keys + points :: if p in points then id else ringNodes[p]
  }

  function AddNode(h: Hashes, factor: int, r: Ring, node: Node): Ring {
    if node.id in r.nodes then r
    else
      var points := Points(h, node.id, Replicas(factor, node));
      Ring(r.nodes[node.id := node], Sort(r.ring + points), Claim(r.ringNodes, PointSet(h, factor, node), node.id),
           r.nodeLoad[node.id := 0], r.totalLoad)
  }

  function RemoveNode(h: Hashes, factor: int, r: Ring, id: string): Ring {
    if id !in r.nodes then r
    else
      var gone := PointSet(h, factor, r.nodes[id].(id := id));
      Ring(r.nodes - {id}, Outside(r.ring, gone), r.ringNodes - gone, r.nodeLoad - {id},
           r.totalLoad - (if id in r.nodeLoad then r.nodeLoad[id] else 0))
  }

  ghost predicate Inv(h: Hashes, factor: int, r: Ring) {
    && Sorted(r.ring)
    && (forall p :: p in r.ring <==> p in r.ringNodes)
    && (forall p <- r.ringNodes :: r.ringNodes[p] in r.nodes && p in PointSet(h, factor, r.nodes[r.ringNodes[p]]))
    && (forall id <- r.nodes :: r.nodes[id].id == id)
    && r.nodeLoad.Keys == r.nodes.Keys
    && (forall id <- r.nodeLoad :: r.nodeLoad[id] >= 0)
    && r.totalLoad == Sum(r.nodeLoad)
  }

  /** The ring point a hash falls to. */
  function PointAt(r: Ring, hash: Point): Point
    requires r.ring != []
  {
    Successor(r.ring, hash)
  }

  /** The node responsible for a hash. */
  function OwnerAt(r: Ring, hash: Point): Option<string> {
    if r.ring == [] || PointAt(r, hash) !in r.ringNodes then None else Some(r.ringNodes[PointAt(r, hash)])
  }

  lemma EmptyIsValid(h: Hashes, factor: int)
    ensures Inv(h, factor, EMPTY)
  {}

  lemma SortedMembers(s: seq<Point>, points: seq<Point>)
    ensures Sorted(Sort(s + points))
    ensures forall p :: p in Sort(s + points) <==> p in s || p in points
  {
    SortSorts(s + points);
    forall p ensures p in Sort(s + points) <==> p in s || p in points {
      assert p in Sort(s + points) <==> p in multiset(Sort(s + points));
      assert p in s + points <==> p in multiset(s + points);
    }
  }

  lemma AddKeepsInv(h: Hashes, factor: int, r: Ring, node: Node)
    requires Inv(h, factor, r)
    ensures Inv(h, factor, AddNode(h, factor, r, node))
  {
    hide Sort, Points, Sorted, Sum;
    if node.id !in r.nodes {
      SortedMembers(r.ring, Points(h, node.id, Replicas(factor, node)));
      SumUpdate(r.nodeLoad, node.id, 0);
    }
  }

  lemma RemoveKeepsInv(h: Hashes, factor: int, r: Ring, id: string)
    requires Inv(h, factor, r)
    ensures Inv(h, factor, RemoveNode(h, factor, r, id))
  {
    hide Outside, Points, Sorted, Sum;
    if id in r.nodes {
      OutsideKeeps(r.ring, PointSet(h, factor, r.nodes[id]));
      SumRemove(r.nodeLoad, id);
    }
  }

  /** On a non-empty ring every hash has a live owner. */
  lemma OwnerIsLive(h: Hashes, factor: int, r: Ring, hash: Point)
    requires Inv(h, factor, r) && r.ring != []
    ensures PointAt(r, hash) in r.ringNodes
    ensures OwnerAt(r, hash).Some? && OwnerAt(r, hash).value in r.nodes
    ensures IsSuccessor(r.ringNodes.Keys, hash, PointAt(r, hash))
  {
    hide Successor, PointSet, IsSuccessor;
    SuccessorIsSuccessor(r.ring, hash);
    assert Members(r.ring) == r.ringNodes.Keys;
    SuccessorInPoints(r.ringNodes.Keys, hash, PointAt(r, hash));
  }

  lemma SuccessorInPoints(points: set<Point>, hash: Point, p: Point)
    requires IsSuccessor(points, hash, p)
    ensures p in points
  {}

  /** Adding a node moves hashes only to the new node, with or without colliding points. */
  lemma AddMovesOnlyToNewNode(h: Hashes, factor: int, r: Ring, node: Node, hash: Point)
    requires Inv(h, factor, r)
    ensures var r' := AddNode(h, factor, r, node);
            OwnerAt(r', hash) == OwnerAt(r, hash) || OwnerAt(r', hash) == Some(node.id)
  {
    hide Successor, Sort, Points, IsSuccessor, Sorted, Sum;
    var r' := AddNode(h, factor, r, node);
    AddKeepsInv(h, factor, r, node);
    if r.ring != [] {
      assert r.ring[0] in r.ring && r.ring[0] in r'.ringNodes && r.ring[0] in r'.ring;
    }
    if node.id !in r.nodes && r'.ring != [] {
      OwnerIsLive(h, factor, r', hash);
      if r.ring == [] {
        assert PointAt(r', hash) in PointSet(h, factor, node);
      } else {
        OwnerIsLive(h, factor, r, hash);
        assert r'.ringNodes.Keys == r.ringNodes.Keys + PointSet(h, factor, node);
        SuccessorWithMore(r.ringNodes.Keys, PointSet(h, factor, node), hash, PointAt(r, hash), PointAt(r', hash));
      }
    }
  }

  /** No point of the node is held by another node. */
  ghost predicate CollisionFree(h: Hashes, factor: int, r: Ring, id: string)
    requires id in r.nodes
  {
    forall p <- PointSet(h, factor, r.nodes[id]) :: p in r.ringNodes ==> r.ringNodes[p] == id
  }

  /** Removing a node leaves a hash at its point exactly when the point is none of the node's. */
  lemma RemoveMovesOnlyItsPoints(h: Hashes, factor: int, r: Ring, id: string, hash: Point)
    requires Inv(h, factor, r) && id in r.nodes && r.ring != []
    ensures var r' := RemoveNode(h, factor, r, id);
            r'.ring != [] && PointAt(r', hash) == PointAt(r, hash) <==>
            PointAt(r, hash) !in PointSet(h, factor, r.nodes[id])
  {
    hide Successor, Outside, PointSet, IsSuccessor, Sorted, Sum;
    var r' := RemoveNode(h, factor, r, id);
    var gone := PointSet(h, factor, r.nodes[id]);
    RemoveKeepsInv(h, factor, r, id);
    OutsideKeeps(r.ring, gone);
    OwnerIsLive(h, factor, r, hash);
    assert PointAt(r, hash) in r.ring;
    if r'.ring != [] {
      OwnerIsLive(h, factor, r', hash);
      assert r'.ringNodes.Keys == r.ringNodes.Keys - gone;
      SuccessorWithFewer(r.ringNodes.Keys, gone, hash, PointAt(r, hash), PointAt(r', hash));
    }
  }

  /** The point that takes over from p when these points are gone. */
  ghost predicate TakesOver(r: Ring, gone: set<Point>, p: Point, q: Point) {
    q in r.ringNodes && IsSuccessor(r.ringNodes.Keys - gone, p, q)
  }

  /** Every point of the node that another node holds is taken over by a point of that same other node. */
  ghost predicate Spared(h: Hashes, factor: int, r: Ring, id: string)
    requires id in r.nodes
  {
    var gone := PointSet(h, factor, r.nodes[id]);
    forall p <- gone :: p in r.ringNodes && r.ringNodes[p] != id ==>
      exists q :: TakesOver(r, gone, p, q) && r.ringNodes[q] == r.ringNodes[p]
  }

  /** Hashes of other nodes all keep their owner. */
  ghost predicate OthersStay(r: Ring, r': Ring, id: string) {
    forall hash :: OwnerAt(r, hash) != Some(id) ==> OwnerAt(r', hash) == OwnerAt(r, hash)
  }

  lemma PointAfterRemoval(h: Hashes, factor: int, r: Ring, id: string, hash: Point)
    requires Inv(h, factor, r) && id in r.nodes
    ensures var (r', gone) := (RemoveNode(h, factor, r, id), PointSet(h, factor, r.nodes[id]));
            && (r'.ring != [] ==> TakesOver(r, gone, hash, PointAt(r', hash)) && PointAt(r', hash) !in gone
                                  && OwnerAt(r', hash) == Some(r.ringNodes[PointAt(r', hash)]))
            && (forall q :: TakesOver(r, gone, hash, q) ==> r'.ring != [] && q == PointAt(r', hash))
  {
    hide Successor, Outside, PointSet, IsSuccessor, Sorted, Sum;
    var (r', gone) := (RemoveNode(h, factor, r, id), PointSet(h, factor, r.nodes[id]));
    RemoveKeepsInv(h, factor, r, id);
    assert r'.ringNodes.Keys == r.ringNodes.Keys - gone;
    if r'.ring != [] {
      OwnerIsLive(h, factor, r', hash);
    }
    forall q | TakesOver(r, gone, hash, q) ensures r'.ring != [] && q == PointAt(r', hash) {
      SuccessorInPoints(r.ringNodes.Keys - gone, hash, q);
      assert q in r'.ringNodes && q in r'.ring;
      SuccessorIsUnique(r.ringNodes.Keys - gone, hash, q, PointAt(r', hash));
    }
  }

  /** Owners of one hash of another node, when its node is spared. */
  lemma SparedStays(h: Hashes, factor: int, r: Ring, id: string, hash: Point)
    requires Inv(h, factor, r) && id in r.nodes && Spared(h, factor, r, id) && OwnerAt(r, hash) != Some(id)
    ensures OwnerAt(RemoveNode(h, factor, r, id), hash) == OwnerAt(r, hash)
  {
    hide Successor, Outside, PointSet, IsSuccessor, Sorted, Sum;
    var (r', gone) := (RemoveNode(h, factor, r, id), PointSet(h, factor, r.nodes[id]));
    if r.ring == [] {
      assert Outside([], gone) == [] by { OutsideNothing(gone); }
    } else {
      var p := PointAt(r, hash);
      OwnerIsLive(h, factor, r, hash);
      RemoveMovesOnlyItsPoints(h, factor, r, id, hash);
      PointAfterRemoval(h, factor, r, id, hash);
      if p in gone {
        var q :| TakesOver(r, gone, p, q) && r.ringNodes[q] == r.ringNodes[p];
        SuccessorThroughGone(r.ringNodes.Keys, gone, hash, p, q);
        assert TakesOver(r, gone, hash, q);
      }
    }
  }

  /** A point is its own owner's hash. */
  lemma PointOwnsItself(h: Hashes, factor: int, r: Ring, p: Point)
    requires Inv(h, factor, r) && p in r.ringNodes
    ensures r.ring != [] && PointAt(r, p) == p && OwnerAt(r, p) == Some(r.ringNodes[p])
  {
    hide Successor, Sorted, Sum, PointSet;
    assert p in r.ring;
    OwnerIsLive(h, factor, r, p);
    SuccessorIsUnique(r.ringNodes.Keys, p, p, PointAt(r, p));
  }

  /** Removing a node changes no other node's hashes, if and only if each of its points that another node
      holds is taken over by a point of that other node. */
  lemma RemoveSparesOthersIff(h: Hashes, factor: int, r: Ring, id: string)
    requires Inv(h, factor, r) && id in r.nodes
    ensures OthersStay(r, RemoveNode(h, factor, r, id), id) <==> Spared(h, factor, r, id)
  {
    hide RemoveNode, OwnerAt, PointSet, IsSuccessor, Inv;
    var (r', gone) := (RemoveNode(h, factor, r, id), PointSet(h, factor, r.nodes[id]));
    if Spared(h, factor, r, id) {
      forall hash | OwnerAt(r, hash) != Some(id) ensures OwnerAt(r', hash) == OwnerAt(r, hash) {
        SparedStays(h, factor, r, id, hash);
      }
    }
    if OthersStay(r, r', id) {
      forall p | p in gone && p in r.ringNodes && r.ringNodes[p] != id
        ensures exists q :: TakesOver(r, gone, p, q) && r.ringNodes[q] == r.ringNodes[p]
      {
        PointOwnsItself(h, factor, r, p);
        PointAfterRemoval(h, factor, r, id, p);
        OwnedIsOnRing(r', p);
        assert TakesOver(r, gone, p, PointAt(r', p));
      }
    }
  }

  lemma OwnedIsOnRing(r: Ring, hash: Point)
    requires OwnerAt(r, hash).Some?
    ensures r.ring != []
  {}

  /** Without collisions only the hashes of the removed node change owner. */
  lemma RemoveMovesOnlyItsHashes(h: Hashes, factor: int, r: Ring, id: string, hash: Point)
    requires Inv(h, factor, r) && id in r.nodes && CollisionFree(h, factor, r, id) && OwnerAt(r, hash) != Some(id)
    ensures OwnerAt(RemoveNode(h, factor, r, id), hash) == OwnerAt(r, hash)
  {
    hide OwnerAt, RemoveNode, Inv, IsSuccessor;
    assert Spared(h, factor, r, id);
    RemoveSparesOthersIff(h, factor, r, id);
  }

  lemma OutsideNothing(gone: set<Point>)
    ensures Outside([], gone) == []
  {}

  /** With a collision, removing one node takes a hash away from another: two nodes added to an empty ring hold
      its one point, the later node owns it, and removing the earlier one empties the ring. */
  lemma CollisionMovesOthers()
    ensures var h := Hashes((_, _) => 0, _ => 0);
            var r := AddNode(h, 1, AddNode(h, 1, EMPTY, Node("a", 1, true)), Node("b", 1, true));
            Inv(h, 1, r) && OwnerAt(r, 0) == Some("b") && OwnerAt(RemoveNode(h, 1, r, "a"), 0) == None
  {
    hide Sum, AddNode;
    var h := Hashes((_, _) => 0, _ => 0);
    var (a, b) := (Node("a", 1, true), Node("b", 1, true));
    EmptyIsValid(h, 1);
    AddKeepsInv(h, 1, EMPTY, a);
    AddKeepsInv(h, 1, AddNode(h, 1, EMPTY, a), b);
    var r := AddNode(h, 1, AddNode(h, 1, EMPTY, a), b);
    TwoOnOnePoint(h, a, b);
    OnePoint(h, a);
    OwnerIsLive(h, 1, r, 0);
    NoZeros();
  }

  lemma TwoOnOnePoint(h: Hashes, a: Node, b: Node)
    requires a.id != b.id && a.weight == b.weight == 1 && h.replica(a.id, 0) == h.replica(b.id, 0) == 0
    ensures AddNode(h, 1, AddNode(h, 1, EMPTY, a), b) ==
            Ring(map[a.id := a, b.id := b], [0, 0], map[0 := b.id], map[a.id := 0, b.id := 0], 0)
  {
    hide Points, Sort;
    OnePoint(h, a);
    OnePoint(h, b);
    TwoZeros();
  }

  lemma TwoZeros()
    ensures Sort([] + [0]) == [0] && Sort([0] + [0]) == [0, 0]
  {
    assert [] + [0] == [0] && [0][..0] == [];
    assert Sort([0]) == Insert([], 0) == [0];
    assert [0] + [0] == [0, 0] && [0, 0][..1] == [0];
  }

  lemma NoZeros()
    ensures Outside([0, 0], {0}) == []
  {
    assert [0, 0][..1] == [0] && [0][..0] == [];
    assert Outside([0], {0}) == [];
  }

  lemma OnePoint(h: Hashes, node: Node)
    requires node.weight == 1 && h.replica(node.id, 0) == 0
    ensures Points(h, node.id, 1) == [0] && PointSet(h, 1, node) == {0}
  {
    assert Points(h, node.id, 1) == Points(h, node.id, 0) + [0] == [0];
  }

  /** Removing a node just added restores the whole ring exactly when none of its points was taken. */
  lemma RemoveUndoesAddIff(h: Hashes, factor: int, r: Ring, node: Node)
    requires Inv(h, factor, r) && node.id !in r.nodes
    ensures RemoveNode(h, factor, AddNode(h, factor, r, node), node.id) == r <==>
            PointSet(h, factor, node) !! r.ringNodes.Keys
  {
    hide Sort, Outside, Points, Sum, Sorted;
    var r1 := AddNode(h, factor, r, node);
    var gone := PointSet(h, factor, node);
    var r2 := RemoveNode(h, factor, r1, node.id);
    assert r1.nodes[node.id] == node;
    assert r2.nodes == r.nodes && r2.nodeLoad == r.nodeLoad && r2.totalLoad == r.totalLoad;
    if gone !! r.ringNodes.Keys {
      assert r2.ringNodes == r.ringNodes;
      RingRestored(r.ring, Points(h, node.id, Replicas(factor, node)));
    } else {
      var p :| p in gone && p in r.ringNodes;
      assert p !in r2.ringNodes;
    }
  }

  lemma RingRestored(ring: seq<Point>, points: seq<Point>)
    requires Sorted(ring) && forall p <- points :: p !in ring
    ensures Outside(Sort(ring + points), Members(points)) == ring
  {
    hide Sort, Outside, Sorted;
    var gone := Members(points);
    SortSorts(ring + points);
    OutsideKeeps(Sort(ring + points), gone);
    var back := Outside(Sort(ring + points), gone);
    forall p ensures multiset(back)[p] == multiset(ring)[p] {
      assert multiset(ring + points)[p] == multiset(ring)[p] + multiset(points)[p];
      assert p in points <==> multiset(points)[p] > 0;
      assert p in ring <==> multiset(ring)[p] > 0;
    }
    assert multiset(back) == multiset(ring);
    SortedIsUnique(back, ring);
  }

  // ---- Choosing a node by load

  /** The average load times the load factor, rounded down, but at least one. */
  function MaxLoad(r: Ring, loadFactor: real): int
    requires |r.nodes| > 0
  {
    var m := (r.totalLoad as real / |r.nodes| as real * loadFactor).Floor;
    if m < 1 then 1 else m
  }

  /** Node at the i-th ring position from idx on. */
  function NodeFrom(r: Ring, idx: nat, i: nat): string
    requires r.ring != [] && forall p <- r.ring :: p in r.ringNodes
  {
    r.ringNodes[r.ring[(idx + i) % |r.ring|]]
  }

  predicate Suitable(r: Ring, id: string, maxLoad: int) {
    id in r.nodes && r.nodes[id].healthy && id in r.nodeLoad && r.nodeLoad[id] < maxLoad
  }

  /** The first suitable node among the next n ring positions. */
  function FirstSuitable(r: Ring, idx: nat, i: nat, n: nat, maxLoad: int): Option<string>
    requires r.ring != [] && forall p <- r.ring :: p in r.ringNodes
    decreases n
  {
    if n == 0 then None
    else if Suitable(r, NodeFrom(r, idx, i), maxLoad) then Some(NodeFrom(r, idx, i))
    else FirstSuitable(r, idx, i + 1, n - 1, maxLoad)
  }

  ghost predicate AnyHealthy(r: Ring) {
    exists id :: id in r.nodes && r.nodes[id].healthy
  }

  function StartIndex(r: Ring, hash: Point): nat {
    var i := FirstAt(r.ring, hash);
    if i < |r.ring| then i else 0
  }

  /** What the load-aware lookup may return: the first healthy node with room in ring order; failing
      that any healthy node, as map iteration happens to find it; failing that the primary. */
  ghost predicate Chosen(h: Hashes, factor: int, r: Ring, loadFactor: real, hash: Point, result: Option<string>)
    requires Inv(h, factor, r)
  {
    if r.ring == [] then result == None
    else
      assert r.ring[0] in r.ring;
      NodesLive(h, factor, r);
      match FirstSuitable(r, StartIndex(r, hash), 0, |r.ring|, MaxLoad(r, loadFactor))
      case Some(id) => result == Some(id)
      case None =>
        if AnyHealthy(r) then result.Some? && result.value in r.nodes && r.nodes[result.value].healthy
        else result == OwnerAt(r, hash)
  }

  lemma NodesLive(h: Hashes, factor: int, r: Ring)
    requires Inv(h, factor, r) && r.ring != []
    ensures |r.nodes| > 0
  {
    assert r.ring[0] in r.ring;
    assert r.ringNodes[r.ring[0]] in r.nodes;
  }

  /** The scan finds the first suitable node, or none of the positions has one. */
  lemma {:induction false} FirstSuitableIsFirst(r: Ring, idx: nat, i: nat, n: nat, maxLoad: int)
    requires r.ring != [] && forall p <- r.ring :: p in r.ringNodes
    ensures match FirstSuitable(r, idx, i, n, maxLoad)
            case None => forall k :: i <= k < i + n ==> !Suitable(r, NodeFrom(r, idx, k), maxLoad)
            case Some(id) =>
              exists k :: i <= k < i + n && id == NodeFrom(r, idx, k) && Suitable(r, id, maxLoad) &&
                          forall j :: i <= j < k ==> !Suitable(r, NodeFrom(r, idx, j), maxLoad)
    decreases n
  {
    hide Suitable, NodeFrom;
    if n == 0 {
    } else {
      FirstSuitableIsFirst(r, idx, i + 1, n - 1, maxLoad);
      if Suitable(r, NodeFrom(r, idx, i), maxLoad) {
        assert i <= i < i + n;
      }
    }
  }

  /** The scan starts anywhere and still passes every ring point. */
  lemma ScanPassesAll(r: Ring, idx: nat, p: Point) returns (k: nat)
    requires r.ring != [] && (forall q <- r.ring :: q in r.ringNodes) && p in r.ring
    ensures k < |r.ring| && NodeFrom(r, idx, k) == r.ringNodes[p]
  {
    var j :| 0 <= j < |r.ring| && r.ring[j] == p;
    OffsetOf(idx, |r.ring|, j);
    k := (j - idx) % |r.ring|;
  }

  /** A node with room is chosen whenever the ring has one. */
  lemma ChosenHasRoom(h: Hashes, factor: int, r: Ring, loadFactor: real, hash: Point, result: Option<string>, p: Point)
    requires Inv(h, factor, r) && r.ring != [] && Chosen(h, factor, r, loadFactor, hash, result)
    requires p in r.ring && p in r.ringNodes && |r.nodes| > 0 && Suitable(r, r.ringNodes[p], MaxLoad(r, loadFactor))
    ensures result.Some? && Suitable(r, result.value, MaxLoad(r, loadFactor))
  {
    hide FirstSuitable, MaxLoad, StartIndex, Sum, Sorted, NodeFrom, Suitable;
    NodesLive(h, factor, r);
    var idx, m := StartIndex(r, hash), MaxLoad(r, loadFactor);
    FirstSuitableIsFirst(r, idx, 0, |r.ring|, m);
    var k := ScanPassesAll(r, idx, p);
  }

  /** The node chosen is live, and healthy exactly when some node is healthy. */
  lemma ChosenIsHealthyIff(h: Hashes, factor: int, r: Ring, loadFactor: real, hash: Point, result: Option<string>)
    requires Inv(h, factor, r) && r.ring != [] && Chosen(h, factor, r, loadFactor, hash, result)
    ensures result.Some? && result.value in r.nodes
    ensures r.nodes[result.value].healthy <==> AnyHealthy(r)
  {
    hide FirstSuitable, MaxLoad, StartIndex, Sum, Sorted, NodeFrom;
    NodesLive(h, factor, r);
    FirstSuitableIsFirst(r, StartIndex(r, hash), 0, |r.ring|, MaxLoad(r, loadFactor));
    OwnerIsLive(h, factor, r, hash);
  }
}
