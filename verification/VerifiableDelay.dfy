/** Wesolowski's verifiable delay function: `evaluate` and `verify` of
    src/queue/vdf_ordering.rs. */
module VerifiableDelay {
  import opened ModularArithmetic

  type Bytes = seq<nat>

  type Positive = n: nat | n > 0 witness 1

  datatype VdfParams = VdfParams(modulus: Positive, delay: nat)
  datatype VdfProof = VdfProof(output: nat, pi: nat)

  /** The two SHA-256 derivations: the expanded digest behind the input, and the challenge prime. */
  datatype Oracle = Oracle(inputDigest: (nat, Bytes, Bytes) -> nat, hashToPrime: (nat, nat, nat) -> Positive)

  /** `derive_input`: the digest reduced into [0, N). */
  function DeriveInput(oracle: Oracle, n: Positive, seed: Bytes, id: Bytes): nat {
    oracle.inputDigest(n, seed, id) % n
  }

  /** `verify`: the delay is the verifier's own, never the prover's. */
  predicate Verify(oracle: Oracle, params: VdfParams, seed: Bytes, id: Bytes, proof: VdfProof) {
    var n := params.modulus;
    var x := DeriveInput(oracle, n, seed, id);
    var ell := oracle.hashToPrime(x, proof.output, params.delay);
    var r := ModPow(2, params.delay, ell);
    (ModPow(proof.pi, ell, n) * ModPow(x, r, n)) % n == proof.output
  }

  /** pi^ell * x^r = x^(q*ell + r): the group identity behind the verifier's one equation. */
  lemma WesolowskiIdentity(x: nat, e: nat, ell: nat, n: nat)
    requires ell > 0 && n > 0
    ensures (ModPow(ModPow(x, e / ell, n), ell, n) * ModPow(x, e % ell, n)) % n == ModPow(x, e, n)
  {
    var q, r := e / ell, e % ell;
    assert e == q * ell + r;
    ModPowBase(Pow(x, q), ell, n);
    PowMul(x, q, ell);
    PowAdd(x, q * ell, r);
    ModMul(Pow(x, q * ell), Pow(x, r), n);
    assert ModPow(ModPow(x, q, n), ell, n) == Pow(x, q * ell) % n;
  }

  /** The verifier's one equation in plain powers, with the input taken from modulus, seed and envelope id:
      whatever the proof, it is accepted if and only if pi^ell * x^(2^T mod ell) leaves the claimed output. */
  lemma VerifyIff(oracle: Oracle, params: VdfParams, seed: Bytes, id: Bytes, proof: VdfProof)
    ensures var n := params.modulus;
      var x := oracle.inputDigest(n, seed, id) % n;
      var ell := oracle.hashToPrime(x, proof.output, params.delay);
      Verify(oracle, params, seed, id, proof) <==>
      (Pow(proof.pi, ell) * Pow(x, Pow(2, params.delay) % ell)) % n == proof.output
  {
    var n := params.modulus;
    var x := oracle.inputDigest(n, seed, id) % n;
    var ell := oracle.hashToPrime(x, proof.output, params.delay);
    ModMul(Pow(proof.pi, ell), Pow(x, Pow(2, params.delay) % ell), n);
  }

  /** An output that is no residue of the modulus is never accepted. */
  lemma AcceptedOutputIsReduced(oracle: Oracle, params: VdfParams, seed: Bytes, id: Bytes, proof: VdfProof)
    requires Verify(oracle, params, seed, id, proof)
    ensures proof.output < params.modulus
  {
  }

  /** With the proof that belongs to its own challenge, a claimed output is accepted exactly when
      it is the delayed output: no other output passes, and the true one always does. */
  lemma VerifyAcceptsExactlyTheDelayedOutput(
    oracle: Oracle, params: VdfParams, seed: Bytes, id: Bytes, proof: VdfProof)
    requires var n := params.modulus; var x := oracle.inputDigest(n, seed, id) % n;
      proof.pi == Pow(x, Pow(2, params.delay) / oracle.hashToPrime(x, proof.output, params.delay)) % n
    ensures var n := params.modulus; var x := oracle.inputDigest(n, seed, id) % n;
      Verify(oracle, params, seed, id, proof) <==> proof.output == Pow(x, Pow(2, params.delay)) % n
  {
    var x := DeriveInput(oracle, params.modulus, seed, id);
    var ell := oracle.hashToPrime(x, proof.output, params.delay);
    WesolowskiIdentity(x, Pow(2, params.delay), ell, params.modulus);
  }

  /** `evaluate`: T sequential squarings, then the proof. Its result always verifies. */
  method Evaluate(oracle: Oracle, params: VdfParams, seed: Bytes, id: Bytes) returns (proof: VdfProof)
    ensures var n := params.modulus; var x := oracle.inputDigest(n, seed, id) % n;
      proof.output == Pow(x, Pow(2, params.delay)) % n &&
      proof.pi == Pow(x, Pow(2, params.delay) / oracle.hashToPrime(x, proof.output, params.delay)) % n
    ensures Verify(oracle, params, seed, id, proof)
  {
    var n := params.modulus;
    var x := DeriveInput(oracle, n, seed, id);
    var y := x;
    SmallMod(x, n);
    assert Pow(2, 0) == 1 && Pow(x, 1) == x * Pow(x, 0) == x;
    for i := 0 to params.delay
      invariant y == ModPow(x, Pow(2, i), n)
    {
      ModPowSquare(x, Pow(2, i), n);
      y := (y * y) % n;
    }
    var ell := oracle.hashToPrime(x, y, params.delay);
    var q := Pow(2, params.delay) / ell;
    proof := VdfProof(y, ModPow(x, q, n));
    VerifyAcceptsExactlyTheDelayedOutput(oracle, params, seed, id, proof);
  }
}
