/** The binary heap of buffered packets: `container/heap` over PacketHeap, with each packet's
    `index` field kept equal to its heap position. */
module PacketHeaps {
  import opened SequenceNumbers

  datatype Packet = Packet(seqNum: Seq16, timestamp: int, payload: seq<bv8>, receivedAt: int)

  class BufferedPacket {
    const data: Packet
    var index: int

    constructor (data: Packet)
      ensures this.data == data
    {
      this.data := data;
      index := 0;
    }
  }

  /** Distance of a packet ahead of the playout position `base`. */
  ghost function Rank(base: Seq16, p: BufferedPacket): Seq16 {
    Ahead(base, p.data.seqNum)
  }

  function Parent(i: nat): nat
    requires i > 0
  {
    (i - 1) / 2
  }

  ghost predicate InWindow(s: seq<BufferedPacket>, base: Seq16) {
    forall i :: 0 <= i < |s| ==> Rank(base, s[i]) < HALF
  }

  ghost predicate OrderedAt(s: seq<BufferedPacket>, base: Seq16, i: nat)
    requires 0 < i < |s|
  {
    Rank(base, s[Parent(i)]) <= Rank(base, s[i])
  }

  /** The heap order on the first n items. */
  ghost predicate Ordered(s: seq<BufferedPacket>, base: Seq16, n: nat)
    requires n <= |s|
  {
    forall i :: 0 < i < n ==> OrderedAt(s, base, i)
  }

  /** Heap order on the first n items, except that item j may be smaller than its parent. */
  ghost predicate OrderedButUp(s: seq<BufferedPacket>, base: Seq16, n: nat, j: nat)
    requires n <= |s|
  {
    && (forall i :: 0 < i < n && i != j ==> OrderedAt(s, base, i))
    && (forall i :: 0 < i < n && Parent(i) == j && j > 0 ==>
          Rank(base, s[Parent(j)]) <= Rank(base, s[i]))
  }

  /** Heap order on the first n items, except around item i: it may be smaller than its parent
      (when `up`) and larger than its children. */
  ghost predicate OrderedBut(s: seq<BufferedPacket>, base: Seq16, n: nat, i: nat, up: bool)
    requires n <= |s|
  {
    && (forall k :: 0 < k < n && Parent(k) != i && !(up && k == i) ==> OrderedAt(s, base, k))
    && (forall k :: 0 < k < n && Parent(k) == i && i > 0 ==>
          Rank(base, s[Parent(i)]) <= Rank(base, s[k]))
  }

  ghost function Swapped(s: seq<BufferedPacket>, i: nat, j: nat): seq<BufferedPacket>
    requires i < |s| && j < |s|
  {
    s[i := s[j]][j := s[i]]
  }

  ghost predicate Permuted(s: seq<BufferedPacket>, t: seq<BufferedPacket>) {
    && |s| == |t|
    && multiset(s) == multiset(t)
  }

  lemma SwappedPermutes(s: seq<BufferedPacket>, i: nat, j: nat)
    requires i < |s| && j < |s|
    ensures Permuted(Swapped(s, i, j), s)
  {}

  /** Taking one item out of a permutation leaves the other members. */
  lemma PermutedOut(s: seq<BufferedPacket>, x: BufferedPacket, t: seq<BufferedPacket>)
    requires Permuted(s + [x], t)
    ensures x in t
    ensures forall p | p in s :: p in t
    ensures forall p | p in t && p != x :: p in s
  {
    assert x in multiset(s + [x]);
    forall p | p in s ensures p in t {
      assert p in multiset(s + [x]);
    }
    forall p | p in t && p != x ensures p in s {
      assert p in multiset(t);
    }
  }

  /** The root of an ordered heap is minimal. */
  lemma {:induction false} RootIsOldest(s: seq<BufferedPacket>, base: Seq16, i: nat)
    requires i < |s| && Ordered(s, base, |s|)
    ensures Rank(base, s[0]) <= Rank(base, s[i])
    decreases i
  {
    if i > 0 {
      RootIsOldest(s, base, Parent(i));
      assert OrderedAt(s, base, i);
    }
  }

  /** One step of `up`: swapping a smaller item with its parent moves the defect to the parent. */
  lemma UpStep(s: seq<BufferedPacket>, base: Seq16, n: nat, j: nat)
    requires 0 < j < n <= |s| && OrderedButUp(s, base, n, j)
    requires Rank(base, s[j]) < Rank(base, s[Parent(j)])
    ensures OrderedButUp(Swapped(s, Parent(j), j), base, n, Parent(j))
  {
    var i := Parent(j);
    var t := Swapped(s, i, j);
    assert i > 0 ==> OrderedAt(s, base, i);
    forall k | 0 < k < n && k != i ensures OrderedAt(t, base, k) {
      if k != j {
        assert OrderedAt(s, base, k);
      }
    }
    forall k | 0 < k < n && Parent(k) == i && i > 0
      ensures Rank(base, t[Parent(i)]) <= Rank(base, t[k])
    {
      if k != j {
        assert OrderedAt(s, base, k);
      }
    }
  }

  /** One step of `down`: swapping an item with its smaller child moves the defect to the child. */
  lemma DownStep(s: seq<BufferedPacket>, base: Seq16, n: nat, i: nat, j: nat, up: bool)
    requires 0 < j < n <= |s| && Parent(j) == i && OrderedBut(s, base, n, i, up)
    requires forall k :: 0 < k < n && Parent(k) == i ==> Rank(base, s[j]) <= Rank(base, s[k])
    requires Rank(base, s[j]) < Rank(base, s[i])
    ensures OrderedBut(Swapped(s, i, j), base, n, j, false)
  {
    var t := Swapped(s, i, j);
    forall k | 0 < k < n && Parent(k) != j ensures OrderedAt(t, base, k) {
      if Parent(k) != i && k != i {
        assert OrderedAt(s, base, k);
      }
    }
    forall k | 0 < k < n && Parent(k) == j ensures Rank(base, t[Parent(j)]) <= Rank(base, t[k]) {
      assert OrderedAt(s, base, k);
    }
  }

  /** When no child of i is smaller, only the defect towards the parent can remain. */
  lemma DownStop(s: seq<BufferedPacket>, base: Seq16, n: nat, i: nat, up: bool)
    requires n <= |s| && i < |s| && OrderedBut(s, base, n, i, up)
    requires forall k :: 0 < k < n && Parent(k) == i ==> Rank(base, s[i]) <= Rank(base, s[k])
    ensures OrderedButUp(s, base, n, i)
    ensures !up ==> Ordered(s, base, n)
  {
    forall k | 0 < k < n && !(up && k == i) ensures OrderedAt(s, base, k) {
    }
  }

  /** Swapping item i with the last one disturbs the order of the others only around i. */
  lemma SwapLast(s: seq<BufferedPacket>, base: Seq16, i: nat)
    requires i < |s| && Ordered(s, base, |s|)
    ensures OrderedBut(Swapped(s, i, |s| - 1), base, |s| - 1, i, true)
  {
    var n := |s| - 1;
    var t := Swapped(s, i, n);
    forall k | 0 < k < n && Parent(k) != i && k != i ensures OrderedAt(t, base, k) {
      assert OrderedAt(s, base, k);
    }
    forall k | 0 < k < n && Parent(k) == i && i > 0 ensures Rank(base, t[Parent(i)]) <= Rank(base, t[k]) {
      assert OrderedAt(s, base, k) && OrderedAt(s, base, i);
    }
  }

  class PacketHeap {
    var items: seq<BufferedPacket>
    ghost var nodes: set<BufferedPacket>  // the packet objects this heap may re-index

    constructor ()
      ensures items == [] && nodes == {}
    {
      items := [];
      nodes := {};
    }

    /** Every packet's index field is its position. */
    ghost predicate Indexed()
      reads this, nodes
    {
      forall i :: 0 <= i < |items| ==> items[i] in nodes && items[i].index == i
    }

    method Swap(i: nat, j: nat)
      requires i < |items| && j < |items| && Indexed()
      modifies `items, nodes
      ensures items == Swapped(old(items), i, j) && Permuted(items, old(items))
      ensures Indexed()
    {
      SwappedPermutes(items, i, j);
      var a, b := items[i], items[j];
      items := items[i := b][j := a];
      b.index := i;
      a.index := j;
    }

    method Less(i: nat, j: nat, ghost base: Seq16) returns (less: bool)
      requires i < |items| && j < |items| && InWindow(items, base)
      ensures less <==> Rank(base, items[i]) < Rank(base, items[j])
    {
      SeqLessByRank(base, items[i].data.seqNum, items[j].data.seqNum);
      less := SeqLess(items[i].data.seqNum, items[j].data.seqNum);
    }

    method Up(start: nat, n: nat, ghost base: Seq16)
      requires start < n <= |items| && Indexed() && InWindow(items, base)
      requires OrderedButUp(items, base, n, start)
      modifies `items, nodes
      ensures Indexed() && Permuted(items, old(items)) && items[n..] == old(items)[n..]
      ensures InWindow(items, base) && Ordered(items, base, n)
    {
      var j: nat := start;
      while j > 0
        invariant j < n <= |items|
        invariant Indexed() && InWindow(items, base) && OrderedButUp(items, base, n, j)
        invariant Permuted(items, old(items)) && items[n..] == old(items)[n..]
      {
        var i := Parent(j);
        var less := Less(j, i, base);
        if !less {
          break;
        }
        UpStep(items, base, n, j);
        Swap(i, j);
        j := i;
      }
    }

    /** The smaller of the one or two children of item i. */
    method SmallerChild(i: nat, n: nat, ghost base: Seq16) returns (j: nat)
      requires 2 * i + 1 < n <= |items| && InWindow(items, base)
      ensures 0 < j < n && Parent(j) == i < j
      ensures forall k :: 0 < k < n && Parent(k) == i ==> Rank(base, items[j]) <= Rank(base, items[k])
    {
      j := 2 * i + 1;
      if j + 1 < n {
        var right := Less(j + 1, j, base);
        if right {
          j := j + 1;
        }
      }
      assert forall k :: k > 0 && Parent(k) == i ==> k == 2 * i + 1 || k == 2 * i + 2;
    }

    method Down(start: nat, n: nat, ghost base: Seq16) returns (moved: bool)
      requires start < |items| && n <= |items| && Indexed() && InWindow(items, base)
      requires OrderedBut(items, base, n, start, true)
      modifies `items, nodes
      ensures Indexed() && Permuted(items, old(items)) && items[n..] == old(items)[n..]
      ensures InWindow(items, base)
      ensures moved ==> Ordered(items, base, n)
      ensures !moved ==> items == old(items) && OrderedButUp(items, base, n, start)
    {
      var i: nat := start;
      while 2 * i + 1 < n
        invariant start <= i < |items| && n <= |items|
        invariant Indexed() && InWindow(items, base) && OrderedBut(items, base, n, i, i == start)
        invariant Permuted(items, old(items)) && items[n..] == old(items)[n..]
        invariant i == start ==> items == old(items)
        decreases |items| - i
      {
        var j := SmallerChild(i, n, base);
        var less := Less(j, i, base);
        if !less {
          DownStop(items, base, n, i, i == start);
          moved := i > start;
          return;
        }
        DownStep(items, base, n, i, j, i == start);
        Swap(i, j);
        i := j;
      }
      DownStop(items, base, n, i, i == start);
      moved := i > start;
    }

    /** A legal heap for the playout position `base`. */
    ghost predicate Valid(base: Seq16)
      reads this, nodes
    {
      Indexed() && InWindow(items, base) && Ordered(items, base, |items|)
    }

    method Push(x: BufferedPacket, ghost base: Seq16)
      requires Valid(base) && x !in nodes && Rank(base, x) < HALF
      modifies this, nodes, x
      ensures Valid(base) && nodes == old(nodes) + {x}
      ensures Permuted(items, old(items) + [x])
    {
      x.index := |items|;
      items := items + [x];
      nodes := nodes + {x};
      assert OrderedButUp(items, base, |items|, |items| - 1) by {
        forall i | 0 < i < |items| - 1 ensures OrderedAt(items, base, i) {
          assert OrderedAt(old(items), base, i);
        }
      }
      Up(|items| - 1, |items|, base);
    }

    /** Drops the last item once the items before it are in heap order. */
    method DropLast(ghost base: Seq16) returns (item: BufferedPacket)
      requires |items| > 0 && Indexed() && InWindow(items, base) && Ordered(items, base, |items| - 1)
      modifies `items, nodes
      ensures Valid(base) && item !in items && items + [item] == old(items)
    {
      var n := |items| - 1;
      item := items[n];
      item.index := -1;
      items := items[..n];
      assert Ordered(items, base, n) by {
        forall k | 0 < k < n ensures OrderedAt(items, base, k) {
          assert OrderedAt(old(items), base, k);
        }
      }
    }

    method Pop(ghost base: Seq16) returns (item: BufferedPacket)
      requires |items| > 0 && Valid(base)
      modifies `items, nodes
      ensures Valid(base) && item == old(items)[0] && item !in items
      ensures Permuted(items + [item], old(items))
    {
      var n := |items| - 1;
      SwapLast(items, base, 0);
      Swap(0, n);
      assert items[n..] == [old(items)[0]];
      var moved := Down(0, n, base);
      assert items[n] == items[n..][0];
      item := DropLast(base);
    }

    /** Moves item i behind the others and restores their order. */
    method MoveOut(i: nat, ghost base: Seq16)
      requires i < |items| - 1 && Valid(base)
      modifies `items, nodes
      ensures Indexed() && InWindow(items, base) && Permuted(items, old(items))
      ensures Ordered(items, base, |items| - 1) && items[|items| - 1] == old(items)[i]
    {
      var n := |items| - 1;
      SwapLast(items, base, i);
      Swap(i, n);
      assert items[n..] == [old(items)[i]];
      var moved := Down(i, n, base);
      if !moved {
        Up(i, n, base);
      }
      assert items[n] == items[n..][0];
    }

    method Remove(i: nat, ghost base: Seq16) returns (item: BufferedPacket)
      requires i < |items| && Valid(base)
      modifies `items, nodes
      ensures Valid(base) && item == old(items)[i] && item !in items
      ensures Permuted(items + [item], old(items))
    {
      if |items| - 1 != i {
        MoveOut(i, base);
      }
      item := DropLast(base);
    }
  }

  /** Moving the playout position up to, but not past, the packets keeps window and order. */
  lemma Rebase(s: seq<BufferedPacket>, base: Seq16, base': Seq16)
    requires InWindow(s, base) && Ordered(s, base, |s|)
    requires forall p | p in s :: Ahead(base, base') <= Rank(base, p)
    ensures InWindow(s, base') && Ordered(s, base', |s|)
  {
    forall i | 0 <= i < |s| ensures Rank(base', s[i]) == Rank(base, s[i]) - Ahead(base, base') {
      assert s[i] in s;
      AheadRebase(base, base', s[i].data.seqNum);
    }
    forall i | 0 < i < |s| ensures OrderedAt(s, base', i) {
      assert OrderedAt(s, base, i);
    }
  }

  /** What `Pop` returns is the oldest packet. */
  lemma RootIsOldestOfAll(s: seq<BufferedPacket>, base: Seq16)
    requires |s| > 0 && Ordered(s, base, |s|)
    ensures forall p | p in s :: Rank(base, s[0]) <= Rank(base, p)
  {
    forall p | p in s ensures Rank(base, s[0]) <= Rank(base, p) {
      var i :| 0 <= i < |s| && s[i] == p;
      RootIsOldest(s, base, i);
    }
  }
}
