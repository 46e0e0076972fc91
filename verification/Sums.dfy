/** Finite sums over an index range, and powers of two. */
module Sums {

  ghost function Sum(n: nat, g: nat -> int): int {
    if n == 0 then 0 else Sum(n - 1, g) + g(n - 1)
  }

  lemma {:induction false} SumExt(n: nat, g: nat -> int, h: nat -> int)
    requires forall i: nat :: i < n ==> g(i) == h(i)
    ensures Sum(n, g) == Sum(n, h)
  {
    if n > 0 {
      SumExt(n - 1, g, h);
    }
  }

  /** Two summands that agree except at k give sums that differ by the change at k. */
  lemma {:induction false} SumUpdate(n: nat, g: nat -> int, h: nat -> int, k: nat)
    requires k < n
    requires forall i: nat :: i < n && i != k ==> g(i) == h(i)
    ensures Sum(n, h) == Sum(n, g) - g(k) + h(k)
  {
    if k == n - 1 {
      SumExt(n - 1, g, h);
    } else {
      SumUpdate(n - 1, g, h, k);
    }
  }

  lemma {:induction false} SumUpdateTwo(n: nat, g: nat -> int, h: nat -> int, j: nat, k: nat)
    requires j < n && k < n && j != k
    requires forall i: nat :: i < n && i != j && i != k ==> g(i) == h(i)
    ensures Sum(n, h) == Sum(n, g) - g(j) + h(j) - g(k) + h(k)
  {
    var mid := (i: nat) => if i == j then h(i) else g(i);
    SumUpdate(n, g, mid, j);
    SumUpdate(n, mid, h, k);
  }

  lemma {:induction false} SumAdd(n: nat, g: nat -> int, h: nat -> int, s: nat -> int)
    requires forall i: nat :: i < n ==> s(i) == g(i) + h(i)
    ensures Sum(n, s) == Sum(n, g) + Sum(n, h)
  {
    if n > 0 {
      SumAdd(n - 1, g, h, s);
    }
  }

  lemma {:induction false} SumMono(n: nat, g: nat -> int, h: nat -> int)
    requires forall i: nat :: i < n ==> g(i) <= h(i)
    ensures Sum(n, g) <= Sum(n, h)
  {
    if n > 0 {
      SumMono(n - 1, g, h);
    }
  }

  lemma {:induction false} SumZero(n: nat, g: nat -> int)
    requires forall i: nat :: i < n ==> g(i) == 0
    ensures Sum(n, g) == 0
  {
    if n > 0 {
      SumZero(n - 1, g);
    }
  }

  /** A sum of non-negative terms is at least any one, and any two, of them. */
  lemma {:induction false} SumAtLeast(n: nat, g: nat -> int, k: nat)
    requires k < n && forall i: nat :: i < n ==> 0 <= g(i)
    ensures g(k) <= Sum(n, g)
  {
    var z := (i: nat) => if i == k then g(i) else 0;
    var o := (i: nat) => 0;
    SumMono(n, z, g);
    SumUpdate(n, o, z, k);
    SumZero(n, o);
  }

  lemma {:induction false} SumAtLeastTwo(n: nat, g: nat -> int, j: nat, k: nat)
    requires j < n && k < n && j != k && forall i: nat :: i < n ==> 0 <= g(i)
    ensures g(j) + g(k) <= Sum(n, g)
  {
    var z := (i: nat) => if i == k || i == j then g(i) else 0;
    var o := (i: nat) => 0;
    SumMono(n, z, g);
    SumUpdateTwo(n, o, z, j, k);
    SumZero(n, o);
  }

  function Pow2(n: nat): (p: nat)
    ensures p >= 1
  {
    if n == 0 then 1 else 2 * Pow2(n - 1)
  }

  lemma {:induction false} Pow2Add(m: nat, n: nat)
    ensures Pow2(m + n) == Pow2(m) * Pow2(n)
  {
    if m > 0 {
      Pow2Add(m - 1, n);
      assert Pow2(m) * Pow2(n) == 2 * (Pow2(m - 1) * Pow2(n));
    }
  }

  lemma {:induction false} Pow2Mono(m: nat, n: nat)
    requires m <= n
    ensures Pow2(m) <= Pow2(n)
  {
    if m < n {
      Pow2Mono(m, n - 1);
    }
  }
}
