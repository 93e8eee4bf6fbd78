/** The weighted-threshold gate of src/envelope/builder.rs and the signer cache of
    src/queue/sequence.rs. */
module MultisigGate {
  import opened Encoding
  import opened Wrappers
  import opened SequenceReservation

  type Key = nat
  type Signature = nat

  datatype AccountSigners = AccountSigners(signers: map<Key, nat>, threshold: nat)

  type Registry = map<Account, AccountSigners>

  /** What a signing key makes of a payload: the SHA-256 digest signed. */
  type Signer = Bytes -> Signature

  // ---- What a contribution signs ----

  /** The input of `multisig_payload_hash`: three fields joined without separators. */
  function Payload(account: Bytes, sequence: I64, txXdr: Bytes): Bytes {
    account + LittleEndian(AsU64(sequence), 8) + txXdr
  }

  /** Where the fields stand: the account first, then the two's complement sequence from its lowest byte,
      then the transaction. */
  lemma PayloadLayout(a: Bytes, m: I64, x: Bytes)
    ensures var p := Payload(a, m, x);
      |p| == |a| + 8 + |x| && p[..|a|] == a && p[|a| + 8..] == x &&
      forall k :: 0 <= k < 8 ==>
        p[|a| + k] == ((if m < 0 then m + 0x1_0000_0000_0000_0000 else m) / Power256(k)) % 256
  {
    var p := Payload(a, m, x);
    forall k | 0 <= k < 8 ensures p[|a| + k] == (AsU64(m) / Power256(k)) % 256 {
      LittleEndianDigit(AsU64(m), 8, k);
    }
  }

  lemma PayloadParts(a: Bytes, m: I64, x: Bytes, b: Bytes, n: I64, y: Bytes)
    requires |a| == |b| && Payload(a, m, x) == Payload(b, n, y)
    ensures a == b && m == n && x == y
  {
    var p := Payload(a, m, x);
    assert a == p[..|a|] && b == p[..|a|];
    assert LittleEndian(AsU64(m), 8) == p[|a|..|a| + 8] && LittleEndian(AsU64(n), 8) == p[|a|..|a| + 8];
    assert x == p[|a| + 8..] && y == p[|a| + 8..];
    assert Bound(8) == TWO_TO_64;
    LittleEndianInjective(AsU64(m), AsU64(n), 8);
  }

  /** For account strings of one length, as Stellar's are, payloads coincide if and only if all three
      fields do. */
  lemma PayloadsCoincideIff(a: Bytes, m: I64, x: Bytes, b: Bytes, n: I64, y: Bytes)
    requires |a| == |b|
    ensures Payload(a, m, x) == Payload(b, n, y) <==> a == b && m == n && x == y
  {
    if Payload(a, m, x) == Payload(b, n, y) { PayloadParts(a, m, x, b, n, y); }
  }

  /** One byte moved from the front of the digits to the account, and one from the transaction to their end. */
  lemma ShiftByOne(a: Bytes, digits: Bytes, x: Bytes)
    requires digits != [] && x != []
    ensures a + digits + x == (a + [digits[0]]) + (digits[1..] + [x[0]]) + x[1..]
  {
  }

  /** The signed number whose eight bytes are the given ones. */
  lemma SequenceWithDigits(digits: Bytes) returns (n: I64)
    requires |digits| == 8 && AllBytes(digits)
    ensures LittleEndian(AsU64(n), 8) == digits
  {
    LittleEndianOnto(digits);
    assert Bound(8) == TWO_TO_64;
    var u := FromLittleEndian(digits);
    n := if u < 0x8000_0000_0000_0000 then u else u - TWO_TO_64;
  }

  /** The common length is needed: one byte can move over from the rest to the account. */
  lemma LongerAccountSharesThePayload(a: Bytes, m: I64, x: Bytes) returns (b: Bytes, n: I64, y: Bytes)
    requires AllBytes(x) && x != []
    ensures |b| == |a| + 1 && Payload(b, n, y) == Payload(a, m, x)
  {
    var digits := LittleEndian(AsU64(m), 8);
    LittleEndianIsBytes(AsU64(m), 8);
    b, y := a + [digits[0]], x[1..];
    n := SequenceWithDigits(digits[1..] + [x[0]]);
    ShiftByOne(a, digits, x);
  }

  datatype GateError =
    | UnknownMultisigSigner(account: Account)
    | MultisigThresholdNotMet(account: Account, accumulatedWeight: nat, requiredThreshold: nat)

  predicate IsKnownSigner(registry: Registry, account: Account, key: Key) {
    account in registry && key in registry[account].signers
  }

  function Weight(registry: Registry, account: Account, key: Key): nat {
    if IsKnownSigner(registry, account, key) then registry[account].signers[key] else 0
  }

  /** The weight of a set of keys, each counted once. */
  ghost function TotalWeight(registry: Registry, account: Account, keys: set<Key>): nat {
    if keys == {} then 0 else
      var key :| key in keys;
      Weight(registry, account, key) + TotalWeight(registry, account, keys - {key})
  }

  lemma {:induction false} TotalWeightRemove(registry: Registry, account: Account, keys: set<Key>, key: Key)
    requires key in keys
    ensures TotalWeight(registry, account, keys) ==
            Weight(registry, account, key) + TotalWeight(registry, account, keys - {key})
    decreases |keys|
  {
    var k :| k in keys &&
             TotalWeight(registry, account, keys) ==
             Weight(registry, account, k) + TotalWeight(registry, account, keys - {k});
    if k != key {
      TotalWeightRemove(registry, account, keys - {k}, key);
      TotalWeightRemove(registry, account, keys - {key}, k);
      assert keys - {k} - {key} == keys - {key} - {k};
    }
  }

  /** What each key brings: a known signer its cached weight, any other key nothing. */
  lemma WeightOfOneMore(registry: Registry, account: Account, keys: set<Key>, key: Key)
    requires key !in keys
    ensures TotalWeight(registry, account, {}) == 0
    ensures TotalWeight(registry, account, keys + {key}) == TotalWeight(registry, account, keys) +
              if account in registry && key in registry[account].signers then registry[account].signers[key] else 0
  {
    TotalWeightRemove(registry, account, keys + {key}, key);
    assert keys + {key} - {key} == keys;
  }

  /** Whether a set of contributors may dispatch. */
  ghost predicate MayPromote(registry: Registry, account: Account, keys: set<Key>) {
    account in registry && TotalWeight(registry, account, keys) >= registry[account].threshold
  }

  class PartiallySignedEnvelope {
    const account: Account
    const sequence: I64
    const txXdr: string
    var contributions: map<Key, Signature>

    constructor (account: Account, sequence: I64, txXdr: string)
      ensures this.account == account && this.sequence == sequence && this.txXdr == txXdr && contributions == map[]
    {
      this.account, this.sequence, this.txXdr, contributions := account, sequence, txXdr, map[];
    }

    /** `accumulated_weight`, the keys in any order. */
    method AccumulatedWeight(registry: Registry) returns (weight: nat)
      ensures weight == TotalWeight(registry, account, contributions.Keys)
    {
      weight := 0;
      var todo := contributions.Keys;
      while todo != {}
        invariant weight + TotalWeight(registry, account, todo) ==
                  TotalWeight(registry, account, contributions.Keys)
        decreases todo
      {
        var key :| key in todo;
        TotalWeightRemove(registry, account, todo, key);
        weight := weight + Weight(registry, account, key);
        todo := todo - {key};
      }
    }

    /** `add_signature`: an unknown key is refused; a known one replaces its own contribution, a signature
        over all three fields. */
    method AddSignature(registry: Registry, key: Key, sign: Signer) returns (r: Result<(), GateError>)
      modifies this
      ensures r.Ok? <==> account in registry && key in registry[account].signers
      ensures IsKnownSigner(registry, account, key) ==>
                r == Ok(()) &&
                contributions == old(contributions)[key := sign(Payload(Ascii(account), sequence, Ascii(txXdr)))]
      ensures !IsKnownSigner(registry, account, key) ==>
                r == Err(UnknownMultisigSigner(account)) && contributions == old(contributions)
    {
      if !IsKnownSigner(registry, account, key) {
        return Err(UnknownMultisigSigner(account));
      }
      contributions := contributions[key := sign(Payload(Ascii(account), sequence, Ascii(txXdr)))];
      return Ok(());
    }

    /** The gate of `try_promote`. */
    method TryPromote(registry: Registry) returns (r: Result<string, GateError>)
      ensures r.Ok? <==>
                account in registry && TotalWeight(registry, account, contributions.Keys) >= registry[account].threshold
      ensures MayPromote(registry, account, contributions.Keys) ==> r == Ok(txXdr)
      ensures !MayPromote(registry, account, contributions.Keys) ==>
                r == Err(MultisigThresholdNotMet(account, TotalWeight(registry, account, contributions.Keys),
                           if account in registry then registry[account].threshold else 0))
    {
      var weight := AccumulatedWeight(registry);
      if account in registry && weight >= registry[account].threshold {
        return Ok(txXdr);
      }
      return Err(MultisigThresholdNotMet(account, weight, if account in registry then registry[account].threshold else 0));
    }
  }

  // ---- Any number of signing attempts ----

  /** The contributors after a list of attempts, refused ones left out. */
  function Contributors(registry: Registry, account: Account, attempts: seq<Key>): set<Key> {
    if attempts == [] then {} else
      var n := |attempts| - 1;
      Contributors(registry, account, attempts[..n]) +
      if IsKnownSigner(registry, account, attempts[n]) then {attempts[n]} else {}
  }

  lemma {:induction false} ContributorsAreTheKnownSigners(registry: Registry, account: Account, attempts: seq<Key>)
    ensures forall key :: key in Contributors(registry, account, attempts) <==>
                          key in attempts && IsKnownSigner(registry, account, key)
  {
    if attempts != [] {
      var n := |attempts| - 1;
      ContributorsAreTheKnownSigners(registry, account, attempts[..n]);
      assert attempts == attempts[..n] + [attempts[n]];
    }
  }

  /** The gate sees only which known signers took part: not their order, not repetitions, and no
      key from outside. */
  lemma GateDependsOnKnownSignersOnly(registry: Registry, account: Account, attempts: seq<Key>, attempts': seq<Key>)
    requires forall key :: IsKnownSigner(registry, account, key) ==> (key in attempts <==> key in attempts')
    ensures MayPromote(registry, account, Contributors(registry, account, attempts)) <==>
            MayPromote(registry, account, Contributors(registry, account, attempts'))
  {
    ContributorsAreTheKnownSigners(registry, account, attempts);
    ContributorsAreTheKnownSigners(registry, account, attempts');
    assert Contributors(registry, account, attempts) == Contributors(registry, account, attempts');
  }

  lemma {:induction false} TotalWeightMonotone(registry: Registry, account: Account, s: set<Key>, t: set<Key>)
    requires s <= t
    ensures TotalWeight(registry, account, s) <= TotalWeight(registry, account, t)
  {
    if s != {} {
      var key :| key in s;
      TotalWeightRemove(registry, account, s, key);
      TotalWeightRemove(registry, account, t, key);
      TotalWeightMonotone(registry, account, s - {key}, t - {key});
    }
  }

  /** Further attempts never take an authorization away. */
  lemma PromotionIsStable(registry: Registry, account: Account, attempts: seq<Key>, more: seq<Key>)
    requires MayPromote(registry, account, Contributors(registry, account, attempts))
    ensures MayPromote(registry, account, Contributors(registry, account, attempts + more))
  {
    ContributorsAreTheKnownSigners(registry, account, attempts);
    ContributorsAreTheKnownSigners(registry, account, attempts + more);
    TotalWeightMonotone(registry, account, Contributors(registry, account, attempts),
                        Contributors(registry, account, attempts + more));
  }
}
