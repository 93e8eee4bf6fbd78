/** Powers and remainders over the naturals: the algebra that the VDF and the
    primality test of `VdfOrdering` rest on. */
module ModularArithmetic {

  function Pow(b: nat, e: nat): nat {
    if e == 0 then 1 else b * Pow(b, e - 1)
  }

  /** `BigUint::modpow`: the remainder of `b^e` by a non-zero modulus. */
  function ModPow(b: nat, e: nat, m: nat): nat
    requires m > 0
  {
    Pow(b, e) % m
  }

  lemma NonZeroMultiple(d: int, m: int)
    requires m >= 0
    ensures d >= 1 ==> d * m >= m
    ensures d <= -1 ==> d * m <= -m
  {
  }

  lemma DivModUnique(x: int, q: int, r: int, m: int)
    requires 0 <= r < m && x == q * m + r
    ensures x / m == q && x % m == r
  {
    assert x == (x / m) * m + x % m;
    assert (x / m - q) * m == r - x % m;
    NonZeroMultiple(x / m - q, m);
  }

  lemma SmallMod(x: int, m: int)
    requires 0 <= x < m
    ensures x % m == x
  {
    DivModUnique(x, 0, x, m);
  }

  lemma ModAddMultiple(a: int, k: int, m: int)
    requires m > 0
    ensures (a + k * m) % m == a % m
  {
    assert a == (a / m) * m + a % m;
    assert a + k * m == (a / m + k) * m + a % m;
    DivModUnique(a + k * m, a / m + k, a % m, m);
  }

  /** Two numbers have the same remainder exactly when their difference is a multiple. */
  lemma SameRemainder(a: int, b: int, m: int)
    requires m > 0
    ensures a % m == b % m <==> (a - b) % m == 0
  {
    if a % m == b % m {
      assert a == (a / m) * m + a % m;
      assert b == (b / m) * m + b % m;
      assert a - b == (a / m - b / m) * m + 0;
      DivModUnique(a - b, a / m - b / m, 0, m);
    }
    if (a - b) % m == 0 {
      var k := (a - b) / m;
      assert a == b + k * m;
      ModAddMultiple(b, k, m);
    }
  }

  lemma ModMul(a: int, b: int, m: int)
    requires m > 0
    ensures (a * b) % m == ((a % m) * b) % m
    ensures (a * b) % m == ((a % m) * (b % m)) % m
  {
    ModMulLeft(a, b, m);
    ModMulLeft(b, a % m, m);
    assert b * (a % m) == (a % m) * b;
    assert (b % m) * (a % m) == (a % m) * (b % m);
  }

  lemma ModMulLeft(a: int, b: int, m: int)
    requires m > 0
    ensures (a * b) % m == ((a % m) * b) % m
  {
    var q, r := a / m, a % m;
    assert a == q * m + r;
    assert a * b == r * b + (q * b) * m by {
      assert (q * m + r) * b == q * m * b + r * b;
      assert q * m * b == (q * b) * m;
    }
    ModAddMultiple(r * b, q * b, m);
  }

  lemma ModMulCongruent(a: int, a': int, b: int, b': int, m: int)
    requires m > 0 && a % m == a' % m && b % m == b' % m
    ensures (a * b) % m == (a' * b') % m
  {
    ModMul(a, b, m);
    ModMul(a', b', m);
  }

  lemma {:induction false} PowAdd(b: nat, i: nat, j: nat)
    ensures Pow(b, i + j) == Pow(b, i) * Pow(b, j)
  {
    if i != 0 {
      PowAdd(b, i - 1, j);
      assert b * (Pow(b, i - 1) * Pow(b, j)) == (b * Pow(b, i - 1)) * Pow(b, j);
    }
  }

  lemma {:induction false} PowMul(b: nat, i: nat, j: nat)
    ensures Pow(Pow(b, i), j) == Pow(b, i * j)
  {
    if j == 0 {
      assert i * j == 0;
    } else {
      PowMul(b, i, j - 1);
      PowAdd(b, i, i * (j - 1));
      assert i + i * (j - 1) == i * j;
    }
  }

  lemma {:induction false} PowPositive(b: nat, e: nat)
    requires b > 0
    ensures Pow(b, e) > 0
  {
    if e != 0 { PowPositive(b, e - 1); }
  }

  /** Reducing the base first does not change the modular power. */
  lemma {:induction false} ModPowBase(b: nat, e: nat, m: nat)
    requires m > 0
    ensures ModPow(b % m, e, m) == ModPow(b, e, m)
  {
    if e != 0 {
      ModPowBase(b, e - 1, m);
      var r := b % m;
      SmallMod(r, m);
      ModMulCongruent(r, b, Pow(r, e - 1), Pow(b, e - 1), m);
    }
  }

  /** Squaring a modular power doubles its exponent. */
  lemma ModPowSquare(b: nat, e: nat, m: nat)
    requires m > 0
    ensures (ModPow(b, e, m) * ModPow(b, e, m)) % m == ModPow(b, 2 * e, m)
    ensures ModPow(ModPow(b, e, m), 2, m) == ModPow(b, 2 * e, m)
  {
    PowAdd(b, e, e);
    ModMul(Pow(b, e), Pow(b, e), m);
    var x := ModPow(b, e, m);
    assert Pow(x, 2) == x * Pow(x, 1) == x * (x * Pow(x, 0)) == x * x;
  }
}
