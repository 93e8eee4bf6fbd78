/** The deterministic Miller-Rabin test of src/queue/vdf_ordering.rs. */
module PrimalityTest {
  import opened ModularArithmetic
  import opened Primes

  const MILLER_RABIN_ROUNDS: nat := 40

  const SMALL_PRIME_SIEVE: seq<nat> :=
    [2, 3, 5, 7, 11, 13, 17, 19, 23, 29, 31, 37, 41, 43, 47, 53, 59, 61, 67, 71, 73, 79, 83, 89, 97]

  /** The number read from SHA-256 over (candidate, round); nothing is assumed about it. */
  type WitnessDigest = (nat, nat) -> nat

  /** `deterministic_witness`. */
  function DeterministicWitness(digest: WitnessDigest, n: nat, round: nat): (a: nat)
    requires n > 3
    ensures 2 <= a <= n - 2
  {
    digest(n, round) % (n - 3) + 2
  }

  /** The exponent of two in m, and what is left of m without it. */
  function Twos(m: nat): nat
    requires m > 0
  {
    if m % 2 == 0 then 1 + Twos(m / 2) else 0
  }

  function OddPart(m: nat): nat
    requires m > 0
  {
    if m % 2 == 0 then OddPart(m / 2) else m
  }

  lemma {:induction false} OddDecomposition(m: nat)
    requires m > 0
    ensures m == Pow(2, Twos(m)) * OddPart(m) && OddPart(m) % 2 == 1
  {
    if m % 2 == 0 {
      OddDecomposition(m / 2);
      var power, odd := Pow(2, Twos(m / 2)), OddPart(m / 2);
      assert 2 * (power * odd) == (2 * power) * odd;
      assert Pow(2, Twos(m)) == 2 * power;
    }
  }

  /** n is a strong probable prime to base a: a^d is 1, or some a^(2^i d) with i < r is -1. */
  ghost predicate StrongProbablePrime(n: nat, a: nat)
    requires n > 1
  {
    var d, r := OddPart(n - 1), Twos(n - 1);
    ModPow(a, d, n) == 1 || exists i :: 0 <= i < r && IsMinusOne(n, a, i, d)
  }

  ghost predicate IsMinusOne(n: nat, a: nat, i: nat, d: nat)
    requires n > 1
  {
    ModPow(a, Pow(2, i) * d, n) == n - 1
  }

  /** What the test answers. */
  ghost predicate Accepts(digest: WitnessDigest, n: nat) {
    n in SMALL_PRIME_SIEVE ||
    (n > 97 && (forall k :: 0 <= k < |SMALL_PRIME_SIEVE| ==> !Divides(SMALL_PRIME_SIEVE[k], n)) &&
     forall round :: 0 <= round < MILLER_RABIN_ROUNDS ==>
       StrongProbablePrime(n, DeterministicWitness(digest, n, round)))
  }

  // ---- No prime is ever rejected ----

  /** If a square is 1 modulo a prime, the chain a^d, a^(2d), ... ends at 1 only through -1. */
  lemma {:induction false} ChainReachesMinusOne(n: nat, a: nat, d: nat, r: nat)
    requires IsPrime(n) && ModPow(a, Pow(2, r) * d, n) == 1
    ensures ModPow(a, d, n) == 1 || exists i :: 0 <= i < r && IsMinusOne(n, a, i, d)
  {
    if r == 0 {
      assert Pow(2, 0) * d == d;
    } else {
      var e := Pow(2, r - 1) * d;
      assert Pow(2, r) * d == 2 * e;
      ModPowSquare(a, e, n);
      SquareRootsOfOne(n, ModPow(a, e, n));
      if ModPow(a, e, n) == 1 {
        ChainReachesMinusOne(n, a, d, r - 1);
      } else {
        assert IsMinusOne(n, a, r - 1, d);
      }
    }
  }

  lemma PrimePassesEveryBase(n: nat, a: nat)
    requires IsPrime(n) && 0 < a < n
    ensures StrongProbablePrime(n, a)
  {
    SmallMod(a, n);
    FermatLittle(n, a, n - 1);
    OddDecomposition(n - 1);
    ChainReachesMinusOne(n, a, OddPart(n - 1), Twos(n - 1));
  }

  lemma PrimeIsAccepted(digest: WitnessDigest, n: nat)
    requires IsPrime(n)
    ensures Accepts(digest, n)
  {
    if n !in SMALL_PRIME_SIEVE {
      if n <= 100 { PrimeBelow101InSieve(n); }
      forall round | 0 <= round < MILLER_RABIN_ROUNDS
        ensures StrongProbablePrime(n, DeterministicWitness(digest, n, round))
      {
        PrimePassesEveryBase(n, DeterministicWitness(digest, n, round));
      }
    }
  }

  // ---- Below 101^2 the sieve alone makes the test exact ----

  /** Trial division by the primes up to 7 decides everything below 121. */
  predicate PassesTrial(n: nat) {
    n % 2 != 0 && n % 3 != 0 && n % 5 != 0 && n % 7 != 0
  }

  lemma TrialSettlesSmallDivisors(n: nat, d: nat)
    requires 2 <= d <= 10 && Divides(d, n)
    ensures !PassesTrial(n)
  {
    var e := if d % 2 == 0 then 2 else if d % 3 == 0 then 3 else d;
    assert Divides(e, d) by { SmallMod(0, d); ModAddMultiple(0, 1, d); }
    DividesTransitive(e, d, n);
    assert e == 2 || e == 3 || e == 5 || e == 7;
  }

  lemma TrialPrime(n: nat)
    requires 11 <= n <= 100 && PassesTrial(n)
    ensures IsPrime(n)
  {
    forall d | 2 <= d < n ensures !Divides(d, n) {
      if Divides(d, n) {
        var k := n / d;
        assert n == d * k;
        if d <= 10 {
          TrialSettlesSmallDivisors(n, d);
        } else {
          CofactorRange(d, k, n);
          DivModUnique(n, d, 0, k);
          TrialSettlesSmallDivisors(n, k);
        }
      }
    }
  }

  lemma CofactorRange(d: nat, k: nat, n: nat)
    requires 11 <= d < n <= 100 && n == d * k
    ensures 2 <= k <= 10
  {
    if k <= 1 {
      NonZeroMultiple(1 - k, d);
    }
    NonZeroMultiple(k, d);
    assert 11 * k <= d * k;
  }

  predicate LargeSieveEntry(p: nat) {
    p == 11 || p == 13 || p == 17 || p == 19 || p == 23 || p == 29 || p == 31 || p == 37 || p == 41 ||
    p == 43 || p == 47 || p == 53 || p == 59 || p == 61 || p == 67 || p == 71 || p == 73 || p == 79 ||
    p == 83 || p == 89 || p == 97
  }

  lemma SieveEntries(p: nat)
    ensures p in SMALL_PRIME_SIEVE <==> p == 2 || p == 3 || p == 5 || p == 7 || LargeSieveEntry(p)
  {
    var s := SMALL_PRIME_SIEVE;
    assert s[0] == 2 && s[1] == 3 && s[2] == 5 && s[3] == 7 && s[4] == 11 && s[5] == 13 && s[6] == 17;
    assert s[7] == 19 && s[8] == 23 && s[9] == 29 && s[10] == 31 && s[11] == 37 && s[12] == 41 && s[13] == 43;
    assert s[14] == 47 && s[15] == 53 && s[16] == 59 && s[17] == 61 && s[18] == 67 && s[19] == 71;
    assert s[20] == 73 && s[21] == 79 && s[22] == 83 && s[23] == 89 && s[24] == 97;
  }

  lemma LargeSieveEntryIsTrial(p: nat)
    ensures LargeSieveEntry(p) <==> 11 <= p <= 100 && PassesTrial(p)
  {
  }

  lemma SieveIsPrime(p: nat)
    requires p in SMALL_PRIME_SIEVE
    ensures IsPrime(p)
  {
    SieveEntries(p);
    LargeSieveEntryIsTrial(p);
    if p > 7 { TrialPrime(p); } else { TinyPrime(p); }
  }

  lemma TinyPrime(p: nat)
    requires p == 2 || p == 3 || p == 5 || p == 7
    ensures IsPrime(p)
  {
    forall d | 2 <= d < p ensures !Divides(d, p) {
      assert d == 2 || d == 3 || d == 4 || d == 5 || d == 6;
    }
  }

  lemma PrimeBelow101InSieve(p: nat)
    requires IsPrime(p) && p <= 100
    ensures p in SMALL_PRIME_SIEVE
  {
    SieveEntries(p);
    LargeSieveEntryIsTrial(p);
    if p > 7 {
      assert !Divides(2, p) && !Divides(3, p) && !Divides(5, p) && !Divides(7, p);
    } else if p > 2 {
      assert !Divides(2, p);
    }
  }

  predicate NoDivisorBelow(n: nat, k: nat) {
    forall d :: 2 <= d < k ==> !Divides(d, n)
  }

  /** A composite number has a prime factor no larger than its square root. */
  lemma {:induction false} SmallPrimeFactor(n: nat, d: nat) returns (p: nat)
    requires 2 <= d <= n && NoDivisorBelow(n, d) && !IsPrime(n)
    ensures 2 <= p < n && p * p <= n && IsPrime(p) && Divides(p, n)
    decreases n - d
  {
    if !Divides(d, n) {
      p := SmallPrimeFactor(n, d + 1);
    } else {
      p := d;
      LeastDivisorIsPrime(n, d);
      var k := n / d;
      assert n == d * k;
      LeastDivisorCofactor(n, d, k);
    }
  }

  lemma LeastDivisorCofactor(n: nat, d: nat, k: nat)
    requires 2 <= d < n && n == d * k && NoDivisorBelow(n, d)
    ensures d * d <= n
  {
    NonZeroMultiple(k - 1, d);
    NonZeroMultiple(d - k, d);
    NonZeroMultiple(1 - k, d);
    assert k >= 2;
    DivModUnique(n, d, 0, k);
    assert Divides(k, n);
    assert d * k - d * d == d * (k - d);
  }

  lemma LeastDivisorIsPrime(n: nat, d: nat)
    requires 2 <= d <= n && NoDivisorBelow(n, d) && Divides(d, n)
    ensures IsPrime(d)
  {
    forall e | 2 <= e < d ensures !Divides(e, d) {
      if Divides(e, d) {
        DividesTransitive(e, d, n);
      }
    }
  }

  lemma DividesTransitive(e: nat, d: nat, n: nat)
    requires e > 0 && d > 0 && Divides(e, d) && Divides(d, n)
    ensures Divides(e, n)
  {
    var j, k := d / e, n / d;
    assert d == j * e && n == k * d;
    assert k * (j * e) == (k * j) * e;
    DivModUnique(n, k * j, 0, e);
  }

  lemma RootBelow101(p: nat, n: nat)
    requires p * p <= n < 10201
    ensures p <= 100
  {
    assert p >= 101 ==> p * p >= 101 * p;
  }

  lemma AcceptsIsExactBelow10201(digest: WitnessDigest, n: nat)
    requires n < 10201
    ensures Accepts(digest, n) <==> IsPrime(n)
  {
    if IsPrime(n) {
      PrimeIsAccepted(digest, n);
    } else if n in SMALL_PRIME_SIEVE {
      SieveIsPrime(n);
    } else if n > 97 {
      var p := SmallPrimeFactor(n, 2);
      RootBelow101(p, n);
      PrimeBelow101InSieve(p);
    }
  }

  // ---- The test itself ----

  ghost function ChainElement(n: nat, a: nat, i: nat, d: nat): nat
    requires n > 1
  {
    ModPow(a, Pow(2, i) * d, n)
  }

  lemma ChainStart(n: nat, a: nat, d: nat)
    requires n > 1
    ensures ChainElement(n, a, 0, d) == ModPow(a, d, n)
  {
    assert Pow(2, 0) * d == d;
  }

  lemma ChainStep(n: nat, a: nat, i: nat, d: nat)
    requires n > 1
    ensures ChainElement(n, a, i + 1, d) == ModPow(ChainElement(n, a, i, d), 2, n)
  {
    ModPowSquare(a, Pow(2, i) * d, n);
    assert Pow(2, i + 1) * d == 2 * (Pow(2, i) * d);
  }

  /** One Miller-Rabin round: square a^d up to r-1 times, looking for -1. */
  method PassesRound(n: nat, a: nat, d: nat, r: nat) returns (pass: bool)
    requires n > 1 && r > 0 && d == OddPart(n - 1) && r == Twos(n - 1)
    ensures pass <==> StrongProbablePrime(n, a)
  {
    var x := ModPow(a, d, n);
    ChainStart(n, a, d);
    if x == 1 || x == n - 1 {
      assert x == n - 1 ==> IsMinusOne(n, a, 0, d);
      return true;
    }
    for i := 1 to r
      invariant x == ChainElement(n, a, i - 1, d)
      invariant forall j :: 0 <= j < i ==> !IsMinusOne(n, a, j, d)
    {
      ChainStep(n, a, i - 1, d);
      x := ModPow(x, 2, n);
      if x == n - 1 {
        assert IsMinusOne(n, a, i, d);
        return true;
      }
    }
    return false;
  }

  /** The trial division by the sieve: a verdict, or none when no sieve prime divides n. */
  method SieveVerdict(n: nat) returns (decided: bool, prime: bool)
    requires n >= 2
    ensures decided && prime ==> n in SMALL_PRIME_SIEVE
    ensures decided && !prime ==> n !in SMALL_PRIME_SIEVE
    ensures decided && !prime ==> exists k :: 0 <= k < |SMALL_PRIME_SIEVE| && Divides(SMALL_PRIME_SIEVE[k], n)
    ensures !decided ==> n > 97 && n % 2 == 1
    ensures !decided ==> forall k :: 0 <= k < |SMALL_PRIME_SIEVE| ==> !Divides(SMALL_PRIME_SIEVE[k], n)
  {
    for k := 0 to |SMALL_PRIME_SIEVE|
      invariant forall j :: 0 <= j < k ==> !Divides(SMALL_PRIME_SIEVE[j], n) && n != SMALL_PRIME_SIEVE[j]
    {
      var p := SMALL_PRIME_SIEVE[k];
      if n == p {
        return true, true;
      }
      SieveIsPrime(p);
      if n % p == 0 {
        SieveHitIsNotAccepted(n, k);
        return true, false;
      }
    }
    AboveSieve(n);
    return false, false;
  }

  // ---- What passing a round means ----

  /** 2m is n-1, or what is left of it after j halvings. */
  ghost predicate HalvesTo(n: nat, m: nat, j: nat) {
    2 * m * Pow(2, j) == n - 1
  }

  /** If a^(2m) is 1, its square root a^m is 1 or -1. */
  ghost predicate TrivialRoot(n: nat, a: nat, m: nat)
    requires n > 1
  {
    Pow(a, 2 * m) % n == 1 ==> Pow(a, m) % n == 1 || Pow(a, m) % n == n - 1
  }

  /** a^(n-1) is 1, and halving the exponent as long as it is even meets no square root of 1 but 1 and -1. */
  ghost predicate OnlyTrivialRoots(n: nat, a: nat)
    requires n > 1
  {
    Pow(a, n - 1) % n == 1 && forall m: nat, j: nat :: HalvesTo(n, m, j) ==> TrivialRoot(n, a, m)
  }

  lemma {:induction false} TwosOfMultiple(k: nat, m: nat)
    requires m > 0
    ensures Pow(2, k) * m > 0
    ensures Twos(Pow(2, k) * m) == k + Twos(m) && OddPart(Pow(2, k) * m) == OddPart(m)
  {
    if k == 0 {
      assert Pow(2, 0) * m == m;
    } else {
      TwosOfMultiple(k - 1, m);
      var half := Pow(2, k - 1) * m;
      assert Pow(2, k) * m == 2 * half;
      assert (2 * half) % 2 == 0 && (2 * half) / 2 == half;
    }
  }

  lemma Regroup(x: nat, y: nat, d: nat)
    ensures 2 * (x * d) == (2 * x) * d
    ensures 2 * (x * d) * y == ((2 * x) * y) * d
  {
    assert (2 * x) * d == 2 * (x * d);
    assert ((2 * x) * d) * y == ((2 * x) * y) * d;
  }

  lemma ZeroTimes(m: nat, y: nat)
    requires 2 * m * y > 0
    ensures m > 0 && (2 * y) * m == 2 * m * y
  {
  }

  /** Halving n-1 gives the exponents of the chain and no others. */
  lemma HalvedExponent(n: nat, m: nat, j: nat)
    requires n > 1 && HalvesTo(n, m, j)
    ensures m > 0 && Twos(m) + 1 + j == Twos(n - 1) && OddPart(m) == OddPart(n - 1)
    ensures m == Pow(2, Twos(m)) * OddPart(n - 1) && 2 * m == Pow(2, Twos(m) + 1) * OddPart(n - 1)
  {
    ZeroTimes(m, Pow(2, j));
    assert Pow(2, j + 1) == 2 * Pow(2, j);
    TwosOfMultiple(j + 1, m);
    OddDecomposition(m);
    Regroup(Pow(2, Twos(m)), 1, OddPart(m));
  }

  lemma ChainExponent(n: nat, i: nat, j: nat)
    requires n > 1 && i + 1 + j == Twos(n - 1)
    ensures HalvesTo(n, Pow(2, i) * OddPart(n - 1), j)
    ensures 2 * (Pow(2, i) * OddPart(n - 1)) == Pow(2, i + 1) * OddPart(n - 1)
  {
    OddDecomposition(n - 1);
    PowAdd(2, i + 1, j);
    assert Pow(2, i + 1) == 2 * Pow(2, i);
    Regroup(Pow(2, i), Pow(2, j), OddPart(n - 1));
  }

  lemma {:induction false} OneStaysOne(n: nat, a: nat, i: nat, k: nat, d: nat)
    requires n > 1 && i <= k && ChainElement(n, a, i, d) == 1
    ensures ChainElement(n, a, k, d) == 1
    decreases k
  {
    if i < k {
      OneStaysOne(n, a, i, k - 1, d);
      ChainStep(n, a, k - 1, d);
      assert Pow(1, 2) == 1 * Pow(1, 1) == 1 * (1 * Pow(1, 0)) == 1;
      SmallMod(1, n);
    }
  }

  lemma MinusOneSquared(n: nat, a: nat, i: nat, d: nat)
    requires n > 2 && ChainElement(n, a, i, d) == n - 1
    ensures ChainElement(n, a, i + 1, d) == 1
  {
    ChainStep(n, a, i, d);
    var x: nat := n - 1;
    assert Pow(x, 2) == x * Pow(x, 1) == x * (x * Pow(x, 0)) == x * x;
    assert x * x == (n - 2) * n + 1;
    DivModUnique(x * x, n - 2, 1, n);
  }

  /** Where a strong probable prime's chain is 1 after an element, that element is 1 or -1. */
  lemma StrongHasTrivialRoot(n: nat, a: nat, i: nat)
    requires n > 2 && StrongProbablePrime(n, a) && i < Twos(n - 1)
    requires ChainElement(n, a, i + 1, OddPart(n - 1)) == 1
    ensures ChainElement(n, a, i, OddPart(n - 1)) == 1 || ChainElement(n, a, i, OddPart(n - 1)) == n - 1
  {
    var d, r := OddPart(n - 1), Twos(n - 1);
    ChainStart(n, a, d);
    if ModPow(a, d, n) == 1 {
      OneStaysOne(n, a, 0, i, d);
    } else {
      var k :| 0 <= k < r && IsMinusOne(n, a, k, d);
      assert ChainElement(n, a, k, d) == n - 1;
      if k < i {
        MinusOneSquared(n, a, k, d);
        OneStaysOne(n, a, k + 1, i, d);
      } else if i < k {
        OneStaysOne(n, a, i + 1, k, d);
      }
    }
  }

  lemma StrongEndsInOne(n: nat, a: nat)
    requires n > 2 && StrongProbablePrime(n, a)
    ensures ChainElement(n, a, Twos(n - 1), OddPart(n - 1)) == 1
  {
    var d, r := OddPart(n - 1), Twos(n - 1);
    ChainStart(n, a, d);
    if ModPow(a, d, n) == 1 {
      OneStaysOne(n, a, 0, r, d);
    } else {
      var k :| 0 <= k < r && IsMinusOne(n, a, k, d);
      MinusOneSquared(n, a, k, d);
      OneStaysOne(n, a, k + 1, r, d);
    }
  }

  /** Going down the chain, 1 is followed by 1 or -1. */
  ghost predicate StepsDown(n: nat, a: nat, d: nat, r: nat)
    requires n > 1
  {
    forall i :: 0 <= i < r && ChainElement(n, a, i + 1, d) == 1 ==>
      ChainElement(n, a, i, d) == 1 || ChainElement(n, a, i, d) == n - 1
  }

  lemma TrivialRootsStepDown(n: nat, a: nat)
    requires n > 2 && OnlyTrivialRoots(n, a)
    ensures StepsDown(n, a, OddPart(n - 1), Twos(n - 1))
  {
    var d, r := OddPart(n - 1), Twos(n - 1);
    forall i: nat | i < r && ChainElement(n, a, i + 1, d) == 1
      ensures ChainElement(n, a, i, d) == 1 || ChainElement(n, a, i, d) == n - 1
    {
      ChainExponent(n, i, r - 1 - i);
      assert TrivialRoot(n, a, Pow(2, i) * d);
    }
  }

  lemma {:induction false} StepsDownToMinusOne(n: nat, a: nat, d: nat, r: nat, i: nat)
    requires n > 2 && StepsDown(n, a, d, r) && i <= r && ChainElement(n, a, i, d) == 1
    ensures ChainElement(n, a, 0, d) == 1 || exists k :: 0 <= k < r && IsMinusOne(n, a, k, d)
  {
    if i > 0 {
      var prev: nat := i - 1;
      assert ChainElement(n, a, prev + 1, d) == 1;
      if ChainElement(n, a, prev, d) == 1 {
        StepsDownToMinusOne(n, a, d, r, prev);
      } else {
        assert IsMinusOne(n, a, prev, d);
      }
    }
  }

  /** A round accepts n if and only if its witness shows no square root of 1 besides 1 and -1. */
  lemma StrongIffOnlyTrivialRoots(n: nat, a: nat)
    requires n > 2
    ensures StrongProbablePrime(n, a) <==> OnlyTrivialRoots(n, a)
  {
    var d, r := OddPart(n - 1), Twos(n - 1);
    OddDecomposition(n - 1);
    assert ChainElement(n, a, r, d) == Pow(a, n - 1) % n;
    if StrongProbablePrime(n, a) {
      StrongEndsInOne(n, a);
      forall m: nat, j: nat | HalvesTo(n, m, j) ensures TrivialRoot(n, a, m) {
        HalvedExponent(n, m, j);
        if Pow(a, 2 * m) % n == 1 { StrongHasTrivialRoot(n, a, Twos(m)); }
      }
    }
    if OnlyTrivialRoots(n, a) {
      TrivialRootsStepDown(n, a);
      StepsDownToMinusOne(n, a, d, r, r);
      ChainStart(n, a, d);
    }
  }

  lemma NoSieveDivisorIff(n: nat)
    requires n > 97
    ensures (forall k :: 0 <= k < |SMALL_PRIME_SIEVE| ==> !Divides(SMALL_PRIME_SIEVE[k], n)) <==>
            forall d :: 2 <= d <= 100 ==> n % d != 0
  {
    if forall d :: 2 <= d <= 100 ==> n % d != 0 {
      forall k | 0 <= k < |SMALL_PRIME_SIEVE| ensures !Divides(SMALL_PRIME_SIEVE[k], n) {
        SieveRange(k);
      }
    }
    if forall k :: 0 <= k < |SMALL_PRIME_SIEVE| ==> !Divides(SMALL_PRIME_SIEVE[k], n) {
      forall d | 2 <= d <= 100 ensures n % d != 0 {
        if Divides(d, n) {
          var p := SievePrimeOf(d);
          DividesTransitive(p, d, n);
        }
      }
    }
  }

  lemma SieveRange(k: nat)
    requires k < |SMALL_PRIME_SIEVE|
    ensures 2 <= SMALL_PRIME_SIEVE[k] <= 97
  {
    SieveEntries(SMALL_PRIME_SIEVE[k]);
  }

  lemma SievePrimeOf(d: nat) returns (p: nat)
    requires 2 <= d <= 100
    ensures p in SMALL_PRIME_SIEVE && p > 0 && Divides(p, d)
  {
    if IsPrime(d) {
      p := d;
      PrimeBelow101InSieve(d);
      assert d % d == 0 by { DivModUnique(d, 1, 0, d); }
    } else {
      p := SmallPrimeFactor(d, 2);
      PrimeBelow101InSieve(p);
    }
  }

  /** The whole answer in plain arithmetic. */
  ghost predicate PassesAll(digest: WitnessDigest, n: nat)
    requires n > 3
  {
    (forall d :: 2 <= d <= 100 ==> n % d != 0) &&
    forall round :: 0 <= round < 40 ==> OnlyTrivialRoots(n, digest(n, round) % (n - 3) + 2)
  }

  lemma AcceptsIffPassesAll(digest: WitnessDigest, n: nat)
    requires n > 100
    ensures Accepts(digest, n) <==> PassesAll(digest, n)
  {
    SieveVerdictIsOpen(n);
    NoSieveDivisorIff(n);
    forall round | 0 <= round < 40
      ensures StrongProbablePrime(n, DeterministicWitness(digest, n, round)) <==>
              OnlyTrivialRoots(n, digest(n, round) % (n - 3) + 2)
    {
      StrongIffOnlyTrivialRoots(n, DeterministicWitness(digest, n, round));
    }
  }

  lemma AcceptsMeaning(digest: WitnessDigest, n: nat)
    ensures IsPrime(n) ==> Accepts(digest, n)
    ensures n < 10201 ==> (Accepts(digest, n) <==> IsPrime(n))
    ensures n > 100 ==> (Accepts(digest, n) <==> PassesAll(digest, n))
  {
    if IsPrime(n) { PrimeIsAccepted(digest, n); }
    if n < 10201 { AcceptsIsExactBelow10201(digest, n); }
    if n > 100 { AcceptsIffPassesAll(digest, n); }
  }

  /** `is_probably_prime_deterministic`: false means composite, whatever the witnesses; true means that no
      number up to 100 divides n and that none of the 40 witnesses shows a square root of 1 besides 1
      and -1. */
  method IsProbablyPrime(digest: WitnessDigest, n: nat) returns (b: bool)
    ensures b <==> Accepts(digest, n)
    ensures IsPrime(n) ==> b
    ensures n < 10201 ==> (b <==> IsPrime(n))
    ensures n > 100 ==> (b <==> PassesAll(digest, n))
  {
    AcceptsMeaning(digest, n);
    if n < 2 {
      SieveEntries(n);
      return false;
    }
    var decided, prime := SieveVerdict(n);
    if decided {
      return prime;
    }
    SieveVerdictIsOpen(n);
    var d, r := n - 1, 0;
    while d % 2 == 0
      invariant d > 0 && OddPart(d) == OddPart(n - 1) && Twos(d) + r == Twos(n - 1)
      decreases d
    {
      d, r := d / 2, r + 1;
    }
    for round := 0 to MILLER_RABIN_ROUNDS
      invariant forall k :: 0 <= k < round ==> StrongProbablePrime(n, DeterministicWitness(digest, n, k))
    {
      var pass := PassesRound(n, DeterministicWitness(digest, n, round), d, r);
      if !pass {
        return false;
      }
    }
    return true;
  }

  lemma SieveVerdictIsOpen(n: nat)
    requires n > 97
    ensures n !in SMALL_PRIME_SIEVE
  {
    SieveEntries(n);
  }

  lemma SieveHitIsNotAccepted(n: nat, k: nat)
    requires k < |SMALL_PRIME_SIEVE| && n != SMALL_PRIME_SIEVE[k] && n >= 2
    requires Divides(SMALL_PRIME_SIEVE[k], n)
    ensures n !in SMALL_PRIME_SIEVE
  {
    if n in SMALL_PRIME_SIEVE {
      SieveIsPrime(n);
      if n <= SMALL_PRIME_SIEVE[k] { SmallMod(n, SMALL_PRIME_SIEVE[k]); }
    }
  }

  /** What no sieve prime divides and is none of them lies above 97 and is odd. */
  lemma AboveSieve(n: nat)
    requires n >= 2 && n !in SMALL_PRIME_SIEVE
    requires forall j :: 0 <= j < |SMALL_PRIME_SIEVE| ==> !Divides(SMALL_PRIME_SIEVE[j], n)
    ensures n > 97 && n % 2 == 1
  {
    assert SMALL_PRIME_SIEVE[0] == 2 && SMALL_PRIME_SIEVE[1] == 3;
    assert SMALL_PRIME_SIEVE[2] == 5 && SMALL_PRIME_SIEVE[3] == 7;
    assert !Divides(2, n) && !Divides(3, n) && !Divides(5, n) && !Divides(7, n);
    SieveEntries(n);
    LargeSieveEntryIsTrial(n);
  }
}
