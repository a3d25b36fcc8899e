/** Powers of two and the bitwise and, as the masks of the code use them. */
module Binary {

  function Pow2(k: nat): nat {
    if k == 0 then 1 else 2 * Pow2(k - 1)
  }

  ghost predicate IsPow2(n: nat) {
    exists k: nat :: n == Pow2(k)
  }

  // Bit by bit; a negative x is taken in two's complement.
  function And(x: int, m: nat): nat
    decreases m
  {
    if m == 0 then 0 else 2 * And(x / 2, m / 2) + if x % 2 == 1 && m % 2 == 1 then 1 else 0
  }

  // The test n & (n - 1) == 0 recognises exactly the powers of two.
  lemma {:induction false} BitTestIsPow2(n: nat)
    requires n > 0
    ensures And(n, n - 1) == 0 <==> IsPow2(n)
  {
    if n == 1 {
      assert n == Pow2(0);
    } else if n % 2 == 1 {
      assert And(n, n - 1) == 2 * And(n / 2, (n - 1) / 2);
      assert (n - 1) / 2 == n / 2;
      AndSelf(n / 2);
      forall k: nat ensures n != Pow2(k) { Pow2Even(k); }
    } else {
      assert (n - 1) / 2 == n / 2 - 1;
      BitTestIsPow2(n / 2);
      if IsPow2(n / 2) { var k: nat :| n / 2 == Pow2(k); assert n == Pow2(k + 1); }
      if IsPow2(n) { var k: nat :| n == Pow2(k); assert n / 2 == Pow2(k - 1); }
    }
  }

  lemma {:induction false} AndSelf(n: nat)
    ensures And(n, n) == n
  {
    if n > 0 { AndSelf(n / 2); }
  }

  lemma Pow2Even(k: nat)
    ensures Pow2(k) == 1 || Pow2(k) % 2 == 0
  {
  }

  lemma {:induction false} Pow2Monotone(j: nat, k: nat)
    requires j <= k
    ensures 1 <= Pow2(j) <= Pow2(k)
    decreases k
  {
    if j < k { Pow2Monotone(j, k - 1); } else if k > 0 { Pow2Monotone(k - 1, k - 1); }
  }

  lemma Pow2Step(k: nat)
    ensures Pow2(k + 1) == 2 * Pow2(k) && Pow2(k) > 0 && Pow2(0) == 1
  {
    Pow2Monotone(0, k);
  }

  // The mask p - 1 of a power of two p keeps the remainder by p.
  lemma {:induction false} AndIsRemainder(x: int, k: nat)
    ensures Pow2(k) > 0 && And(x, Pow2(k) - 1) == x % Pow2(k)
    decreases k
  {
    Pow2Monotone(0, k);
    if k > 0 {
      var h := Pow2(k - 1);
      Pow2Monotone(0, k - 1);
      AndIsRemainder(x / 2, k - 1);
      assert (2 * h - 1) / 2 == h - 1 && (2 * h - 1) % 2 == 1;
      HalvedRemainder(x, h);
    }
  }

  lemma HalvedRemainder(x: int, h: nat)
    requires h > 0
    ensures x % (2 * h) == 2 * (x / 2 % h) + x % 2
  {
    var q, r := x / 2 / h, x / 2 % h;
    assert x == 2 * (h * q + r) + x % 2;
    RemainderUnique(x, 2 * h, q, 2 * r + x % 2);
  }

  lemma RemainderUnique(x: int, m: nat, q: int, r: nat)
    requires m > 0 && x == m * q + r && r < m
    ensures x % m == r
  {
    var d := x / m - q;
    assert m * d == r - x % m;
    assert d > 0 ==> m * d >= m;
    assert d < 0 ==> m * d + m <= 0;
  }

  lemma Pow2Mask(x: int, n: nat)
    requires IsPow2(n)
    ensures n > 0 && And(x, n - 1) == x % n
  {
    var k: nat :| n == Pow2(k);
    AndIsRemainder(x, k);
  }

  // A mask shifted left by k bits, and the result shifted back.
  lemma {:induction false} AndShifted(x: nat, m: nat, k: nat)
    ensures Pow2(k) > 0 && And(x, Pow2(k) * m) == Pow2(k) * And(x / Pow2(k), m)
    decreases k
  {
    hide And;
    Pow2Step(k);
    if k == 0 {
      assert Pow2(0) == 1;
    } else {
      var h := Pow2(k - 1);
      AndShifted(x / 2, m, k - 1);
      ShiftParts(x, h, m);
      AndEven(x, h * m);
      var r := And(x / 2 / h, m);
      assert 2 * (h * r) == (2 * h) * r;
    }
  }

  lemma AndEven(x: nat, n: nat)
    ensures And(x, 2 * n) == 2 * And(x / 2, n)
  {
  }

  lemma ShiftParts(x: nat, h: nat, m: nat)
    requires h > 0
    ensures (2 * h) * m == 2 * (h * m) && x / 2 / h == x / (2 * h)
  {
    var q, r := x / 2 / h, x / 2 % h;
    assert x == 2 * (h * q + r) + x % 2;
    assert x == (2 * h) * q + (2 * r + x % 2);
    QuotientUnique(x, 2 * h, q, 2 * r + x % 2);
  }

  lemma QuotientUnique(x: int, m: nat, q: int, r: nat)
    requires m > 0 && x == m * q + r && r < m
    ensures x / m == q
  {
    RemainderUnique(x, m, q, r);
    assert m * (x / m - q) == 0;
  }

  lemma Pow2Doubles(n: nat)
    requires IsPow2(n)
    ensures IsPow2(2 * n)
  {
    var k: nat :| n == Pow2(k);
    assert 2 * n == Pow2(k + 1);
  }
}
