/**
 Machine words as numbers: the bitwise operators by their bits.
 */
module Words {

  function Pow2(n: nat): (r: nat)
    ensures r > 0
  {
    if n == 0 then 1 else 2 * Pow2(n - 1)
  }

  /** Exclusive or of the lowest `n` bits. */
  function Xor(a: nat, b: nat, n: nat): (r: nat)
    ensures r < Pow2(n)
  {
    if n == 0 then 0 else 2 * Xor(a / 2, b / 2, n - 1) + (if a % 2 == b % 2 then 0 else 1)
  }

  lemma {:induction false} XorStep(a: nat, b: nat, n: nat)
    requires n > 0
    ensures Xor(a, b, n) / 2 == Xor(a / 2, b / 2, n - 1)
    ensures Xor(a, b, n) % 2 == if a % 2 == b % 2 then 0 else 1
  {
  }

  lemma {:induction false} XorUndone(a: nat, b: nat, n: nat)
    requires a < Pow2(n)
    ensures Xor(Xor(a, b, n), b, n) == a
  {
    if n > 0 {
      var x := Xor(a, b, n);
      assert a / 2 < Pow2(n - 1);
      XorUndone(a / 2, b / 2, n - 1);
      XorStep(a, b, n);
      XorStep(x, b, n);
      hide Xor, Pow2;
      assert Xor(x, b, n) == 2 * (Xor(x, b, n) / 2) + Xor(x, b, n) % 2;
    }
  }

  lemma {:induction false} XorSwapped(a: nat, b: nat, n: nat)
    ensures Xor(a, b, n) == Xor(b, a, n)
  {
    if n > 0 {
      XorSwapped(a / 2, b / 2, n - 1);
    }
  }

  lemma {:induction false} PowSum(m: nat, n: nat)
    ensures Pow2(m + n) == Pow2(m) * Pow2(n)
  {
    if m > 0 {
      PowSum(m - 1, n);
      assert Pow2(m + n) == 2 * Pow2(m - 1 + n);
    }
  }

  lemma {:induction false} Doubled(n: nat)
    ensures Pow2(2 * n) == Pow2(n) * Pow2(n)
  {
    PowSum(n, n);
  }

  lemma {:induction false} Powers()
    ensures Pow2(8) == 0x100 && Pow2(32) == 0x1_0000_0000 && Pow2(64) == 0x1_0000_0000_0000_0000
  {
    assert Pow2(4) == 16;
    Doubled(4);
    Doubled(8);
    Doubled(16);
    Doubled(32);
  }

  /** Bitwise and of the lowest `n` bits. */
  function And(a: nat, b: nat, n: nat): (r: nat)
    ensures r < Pow2(n)
  {
    if n == 0 then 0 else 2 * And(a / 2, b / 2, n - 1) + (if a % 2 == 1 && b % 2 == 1 then 1 else 0)
  }

  /** The complement of the lowest `n` bits. */
  function Not(a: nat, n: nat): (r: nat)
    ensures r < Pow2(n)
  {
    if n == 0 then 0 else 2 * Not(a / 2, n - 1) + (1 - a % 2)
  }

  lemma {:induction false} AndOnes(a: nat, n: nat)
    requires a < Pow2(n)
    ensures And(a, Not(0, n), n) == a
  {
    if n > 0 {
      AndOnes(a / 2, n - 1);
      var ones := Not(0, n);
      assert ones / 2 == Not(0, n - 1) && ones % 2 == 1;
    }
  }

  /** Masking with the complement of `2^k - 1` takes the remainder off. */
  lemma {:induction false} MaskClears(a: nat, k: nat, n: nat)
    requires a < Pow2(n) && k <= n
    ensures And(a, Not(Pow2(k) - 1, n), n) == a - a % Pow2(k)
  {
    hide And, Not, Pow2;
    if k == 0 {
      NoMask(a, n);
    } else {
      var m := Pow2(k - 1);
      PowStep(k);
      PowStep(n);
      HalfBelow(a, Pow2(n - 1));
      MaskClears(a / 2, k - 1, n - 1);
      MaskStep(a, m, n);
      HalvedRemainder(a, m);
      assert Pow2(k) - 1 == 2 * m - 1 && Pow2(k) == 2 * m;
    }
  }

  lemma {:induction false} NoMask(a: nat, n: nat)
    requires a < Pow2(n)
    ensures And(a, Not(Pow2(0) - 1, n), n) == a - a % Pow2(0)
  {
    AndOnes(a, n);
    assert Pow2(0) == 1;
  }

  lemma {:induction false} HalfBelow(a: nat, b: nat)
    requires a < 2 * b
    ensures a / 2 < b
  {
  }

  lemma {:induction false} PowStep(k: nat)
    requires k > 0
    ensures Pow2(k) == 2 * Pow2(k - 1)
  {
  }

  lemma {:induction false} MaskStep(a: nat, m: nat, n: nat)
    requires m > 0 && n > 0
    ensures And(a, Not(2 * m - 1, n), n) == 2 * And(a / 2, Not(m - 1, n - 1), n - 1)
  {
    var low := 2 * m - 1;
    assert low / 2 == m - 1 && low % 2 == 1;
    var mask := Not(low, n);
    assert mask == 2 * Not(m - 1, n - 1);
    assert mask / 2 == Not(m - 1, n - 1) && mask % 2 == 0;
  }

  lemma {:induction false} HalvedRemainder(a: nat, m: nat)
    requires m > 0
    ensures a % (2 * m) == 2 * (a / 2 % m) + a % 2
    ensures a - a % (2 * m) == 2 * (a / 2 - a / 2 % m)
  {
    var h := a / 2;
    assert a == 2 * h + a % 2 && h == m * (h / m) + h % m;
    assert a == (2 * m) * (h / m) + (2 * (h % m) + a % 2);
    Division(a, 2 * m, a / (2 * m), a % (2 * m), h / m, 2 * (h % m) + a % 2);
  }

  lemma {:induction false} Division(n: int, m: nat, q: int, r: int, q': int, r': int)
    requires n == m * q + r == m * q' + r' && 0 <= r < m && 0 <= r' < m
    ensures q == q' && r == r'
  {
    if q < q' {
      Multiples(m, q, q');
    } else if q > q' {
      Multiples(m, q', q);
    }
  }

  lemma {:induction false} Multiples(m: nat, a: int, b: int)
    requires a < b
    ensures m * a + m <= m * b
  {
    assert m * b == m * (a + 1) + m * (b - a - 1);
  }
}
