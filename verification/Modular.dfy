/** Counting round a ring of n places. */
module Modular {
  const TWO32 := 0x1_0000_0000

  type u32 = x: int | 0 <= x < 0x1_0000_0000

  /** 32-bit increment and decrement. */
  function Inc(x: u32): u32 {
    (x + 1) % 0x1_0000_0000
  }

  function Dec(x: u32): u32 {
    (x + 0xFFFF_FFFF) % 0x1_0000_0000
  }

  const MINUS_ONE: u32 := 0xFFFF_FFFF

  /** The place of item k on the ring. */
  function Place(k: nat, n: nat): (r: nat)
    requires n > 0
    ensures r < n
    ensures k < n ==> r == k
  {
    k % n
  }

  lemma WholeTurn(n: nat)
    requires n > 0
    ensures Place(n, n) == 0
  {
  }

  lemma NonZeroMultiple(n: int, d: int)
    requires n > 0 && d != 0
    ensures n * d >= n || n * d <= -n
  {
  }

  lemma DivModUnique(k: nat, n: nat, q: nat, r: nat)
    requires n > 0 && k == n * q + r && r < n
    ensures k % n == r && k / n == q
  {
    var p := k / n;
    assert n * (p - q) == r - k % n;
    if p != q {
      NonZeroMultiple(n, p - q);
    }
  }

  lemma PlaceNext(k: nat, n: nat)
    requires n > 0
    ensures Place(k + 1, n) == if Place(k, n) == n - 1 then 0 else Place(k, n) + 1
  {
    var q, r := k / n, k % n;
    if r == n - 1 {
      assert k + 1 == n * (q + 1) + 0;
      DivModUnique(k + 1, n, q + 1, 0);
    } else {
      DivModUnique(k + 1, n, q, r + 1);
    }
  }

  /** How many times item k has been round the ring. */
  function Turns(k: nat, n: nat): nat
    requires n > 0
  {
    k / n
  }

  lemma TurnsNext(k: nat, n: nat)
    requires n > 0
    ensures Turns(k + 1, n) == if Place(k, n) == n - 1 then Turns(k, n) + 1 else Turns(k, n)
  {
    var q, r := k / n, k % n;
    if r == n - 1 {
      assert k + 1 == n * (q + 1) + 0;
      DivModUnique(k + 1, n, q + 1, 0);
    } else {
      DivModUnique(k + 1, n, q, r + 1);
    }
  }

  lemma MulAtLeast(n: int, d: int)
    requires n > 0 && d >= 2
    ensures n * d >= 2 * n
  {
  }

  lemma MultipleBelowTwo(n: int, d: int)
    requires n > 0 && 0 <= n * d < 2 * n
    ensures d == 0 || d == 1
  {
    if d < 0 {
      NonZeroMultiple(n, d);
    } else if d >= 2 {
      MulAtLeast(n, d);
    }
  }

  /** Items less than two rounds apart share a place only if they are equal or exactly one round apart. */
  lemma SamePlace(a: nat, b: nat, n: nat)
    requires n > 0 && b <= a < b + 2 * n
    ensures Place(a, n) == Place(b, n) <==> a == b || a == b + n
  {
    var q, r := b / n, b % n;
    if a == b + n {
      assert a == n * (q + 1) + r;
      DivModUnique(a, n, q + 1, r);
    } else if a % n == r {
      var p := a / n;
      assert a - b == n * (p - q);
      MultipleBelowTwo(n, p - q);
    }
  }
}
