/** Primes, Euclid's lemma and Fermat's little theorem. */
module Primes {
  import opened ModularArithmetic

  predicate Divides(d: nat, n: int)
    requires d > 0
  {
    n % d == 0
  }

  predicate IsPrime(n: nat) {
    n >= 2 && forall d :: 2 <= d < n ==> !Divides(d, n)
  }

  /** Euclid's lemma, by the remainder chain p mod a, p mod (p mod a), ... down to 1. */
  lemma {:induction false} EuclidSmall(p: nat, a: nat, b: nat)
    requires IsPrime(p) && 0 < a < p && Divides(p, a * b)
    ensures Divides(p, b)
    decreases a
  {
    if a > 1 {
      var q, r := p / a, p % a;
      assert !Divides(a, p);
      assert p == q * a + r;
      var k := a * b / p;
      assert r * b == (b - q * k) * p by {
        assert a * b == k * p;
        assert (p - q * a) * b == p * b - q * (a * b);
        assert q * (k * p) == (q * k) * p;
      }
      DivModUnique(r * b, b - q * k, 0, p);
      EuclidSmall(p, r, b);
    }
  }

  lemma EuclidLemma(p: nat, a: nat, b: nat)
    requires IsPrime(p) && Divides(p, a * b)
    ensures Divides(p, a) || Divides(p, b)
  {
    if !Divides(p, a) {
      ModMulLeft(a, b, p);
      EuclidSmall(p, a % p, b);
    }
  }

  /** Modulo a prime, 1 has no square roots besides 1 and -1. */
  lemma SquareRootsOfOne(p: nat, x: nat)
    requires IsPrime(p) && x < p && (x * x) % p == 1
    ensures x == 1 || x == p - 1
  {
    SmallMod(1, p);
    SmallMod(0, p);
    SmallMod(x, p);
    if x > 1 {
      SameRemainder(x * x, 1, p);
      assert (x - 1) * (x + 1) == x * x - 1;
      EuclidLemma(p, x - 1, x + 1);
      SmallMod(x - 1, p);
      if x + 1 < p { SmallMod(x + 1, p); }
    }
  }

  // ---- Fermat's little theorem: k -> a*k mod p permutes 1..p-1 ----

  ghost function Product(s: set<nat>): nat {
    if s == {} then 1 else var x :| x in s; x * Product(s - {x})
  }

  lemma {:induction false} ProductRemove(s: set<nat>, x: nat)
    requires x in s
    ensures Product(s) == x * Product(s - {x})
    decreases |s|
  {
    var y :| y in s && Product(s) == y * Product(s - {y});
    if y != x {
      ProductRemove(s - {y}, x);
      ProductRemove(s - {x}, y);
      assert s - {y} - {x} == s - {x} - {y};
      var rest := Product(s - {x} - {y});
      assert y * (x * rest) == x * (y * rest);
    }
  }

  ghost function Scaled(s: set<nat>, a: nat, p: nat): set<nat>
    requires p > 0
  {
    set k | k in s :: (a * k) % p
  }

  /** Scaling is injective on 1..p-1. */
  lemma ScaleInjective(p: nat, a: nat, j: nat, k: nat)
    requires IsPrime(p) && !Divides(p, a)
    requires j <= k < p && (a * j) % p == (a * k) % p
    ensures j == k
  {
    SameRemainder(a * k, a * j, p);
    assert a * k - a * j == a * (k - j);
    EuclidLemma(p, a, k - j);
  }

  lemma {:induction false} ScaledProduct(s: set<nat>, a: nat, p: nat)
    requires IsPrime(p) && !Divides(p, a) && forall k :: k in s ==> 0 < k < p
    ensures |Scaled(s, a, p)| == |s|
    ensures Product(Scaled(s, a, p)) % p == (Pow(a, |s|) * Product(s)) % p
    decreases |s|
  {
    if s == {} {
      assert Scaled(s, a, p) == {};
    } else {
      var x :| x in s;
      var t, y := s - {x}, (a * x) % p;
      ScaledProduct(t, a, p);
      forall k | k in t ensures (a * k) % p != y {
        if (a * k) % p == y {
          if k <= x { ScaleInjective(p, a, k, x); } else { ScaleInjective(p, a, x, k); }
        }
      }
      assert Scaled(s, a, p) == Scaled(t, a, p) + {y};
      assert Scaled(s, a, p) - {y} == Scaled(t, a, p);
      ProductRemove(Scaled(s, a, p), y);
      ProductRemove(s, x);
      ScaledProductStep(a, x, Product(Scaled(t, a, p)), Pow(a, |t|), Product(t), p);
    }
  }

  lemma ScaledProductStep(a: nat, x: nat, scaled: nat, power: nat, product: nat, p: nat)
    requires p > 0 && scaled % p == (power * product) % p
    ensures (((a * x) % p) * scaled) % p == ((a * power) * (x * product)) % p
  {
    ModMul(a * x, scaled, p);
    ModMul(a * x, power * product, p);
    assert (a * x) * (power * product) == (a * power) * (x * product);
  }

  /** The residues 1..p-1. */
  ghost function Residues(p: nat): (s: set<nat>)
    requires p > 0
    ensures |s| == p - 1 && forall k :: k in s <==> 0 < k < p
  {
    if p == 1 then {} else Residues(p - 1) + {p - 1}
  }

  lemma {:induction false} SubsetOfSameSize(s: set<nat>, t: set<nat>)
    requires s <= t && |s| == |t|
    ensures s == t
  {
    if s != {} {
      var x :| x in s;
      SubsetOfSameSize(s - {x}, t - {x});
    } else {
      assert |t| == 0;
    }
  }

  lemma {:induction false} PrimeDividesNoProduct(p: nat, s: set<nat>)
    requires IsPrime(p) && forall k :: k in s ==> 0 < k < p
    ensures !Divides(p, Product(s))
    decreases |s|
  {
    if s != {} {
      var x :| x in s;
      ProductRemove(s, x);
      PrimeDividesNoProduct(p, s - {x});
      if Divides(p, Product(s)) {
        EuclidSmall(p, x, Product(s - {x}));
      }
    }
  }

  lemma ScaledResidues(p: nat, a: nat)
    requires IsPrime(p) && !Divides(p, a)
    ensures Scaled(Residues(p), a, p) == Residues(p)
  {
    var s := Residues(p);
    forall k | k in s ensures (a * k) % p in s {
      SmallMod(k, p);
      if Divides(p, a * k) { EuclidLemma(p, a, k); }
    }
    assert Scaled(s, a, p) <= s;
    ScaledProduct(s, a, p);
    SubsetOfSameSize(Scaled(s, a, p), s);
  }

  /** Fermat's little theorem, for the prime n + 1. */
  lemma FermatLittle(p: nat, a: nat, n: nat)
    requires IsPrime(p) && !Divides(p, a) && p == n + 1
    ensures ModPow(a, n, p) == 1
  {
    var s := Residues(p);
    ScaledResidues(p, a);
    FermatFromPermutation(p, a, s, n);
  }

  lemma FermatFromPermutation(p: nat, a: nat, s: set<nat>, n: nat)
    requires IsPrime(p) && !Divides(p, a) && forall k :: k in s ==> 0 < k < p
    requires Scaled(s, a, p) == s && |s| == n
    ensures ModPow(a, n, p) == 1
  {
    ScaledProduct(s, a, p);
    PrimeDividesNoProduct(p, s);
    SmallMod(0, p);
    PowPositive(a, |s|);
    CancelFactor(p, Pow(a, |s|), Product(s));
  }

  lemma CancelFactor(p: nat, x: nat, m: nat)
    requires IsPrime(p) && x > 0 && !Divides(p, m) && (x * m) % p == m % p
    ensures x % p == 1
  {
    SameRemainder(x * m, m, p);
    assert (x - 1) * m == x * m - m;
    EuclidLemma(p, x - 1, m);
    SameRemainder(x, 1, p);
  }
}
