/** What the models share. */
module Basics {

  datatype Option<+T> = None | Some(value: T)

  ghost predicate NoRepeat<T>(s: seq<T>) {
    forall i, j :: 0 <= i < j < |s| ==> s[i] != s[j]
  }

  // ---- Going round a circle of n places

  /** From any start h the place r is reached after some number of steps below n. */
  lemma OffsetOf(h: nat, n: int, r: int)
    requires n > 0 && 0 <= r < n
    ensures 0 <= (r - h) % n < n && (h + (r - h) % n) % n == r
  {
    var q := (r - h) / n;
    assert (r - h) % n == r - h - q * n;
    assert (h + (r - h) % n) == r + (-q) * n;
    ModOfShifted(r, -q, n);
  }

  lemma MultipleIsLarge(a: int, n: int)
    requires n > 0 && a != 0
    ensures a * n >= n || a * n <= -n
  {
    if a >= 1 {
      assert a * n == (a - 1) * n + n && (a - 1) * n >= 0;
    } else {
      assert a * n == -((-a - 1) * n) - n && (-a - 1) * n >= 0;
    }
  }

  lemma ModOfShifted(r: int, k: int, n: int)
    requires 0 <= r < n
    ensures (r + k * n) % n == r
  {
    var x := r + k * n;
    var q, m := x / n, x % n;
    assert x == q * n + m;
    assert (q - k) * n == q * n - k * n == r - m;
    if q != k {
      MultipleIsLarge(q - k, n);
    }
  }

  // ---- Counting the threads at some point

  function CountIf<T>(s: seq<T>, f: T -> bool): (n: nat)
    ensures n <= |s|
  {
    if s == [] then 0 else CountIf(s[..|s| - 1], f) + if f(s[|s| - 1]) then 1 else 0
  }

  lemma {:induction false} CountUpdate<T>(s: seq<T>, f: T -> bool, i: nat, x: T)
    requires i < |s|
    ensures CountIf(s[i := x], f) == CountIf(s, f) - (if f(s[i]) then 1 else 0) + (if f(x) then 1 else 0)
    ensures CountIf(s, f) - (if f(s[i]) then 1 else 0) <= |s| - 1
  {
    var k := |s| - 1;
    if i == k {
      assert s[i := x][..k] == s[..k];
    } else {
      assert s[i := x][..k] == s[..k][i := x];
      CountUpdate(s[..k], f, i, x);
    }
  }

  lemma {:induction false} CountNone<T>(s: seq<T>, f: T -> bool)
    requires forall x <- s :: !f(x)
    ensures CountIf(s, f) == 0
  {
    if s == [] {
    } else {
      CountNone(s[..|s| - 1], f);
    }
  }
}
