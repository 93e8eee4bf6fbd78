/** `sort_for_dispatch` of src/queue/vdf_ordering.rs. */
module DispatchOrder {
  import opened Wrappers
  import opened Sorting
  import opened PriorityOrder
  import opened VerifiableDelay

  datatype VdfOrderedEntry = VdfOrderedEntry(
    envelopeId: Bytes, priority: TxPriority, enqueuedAt: nat, proof: Option<VdfProof>)

  /** An entry with the outcome of its proof check. */
  type Ranked = (bool, VdfOrderedEntry)

  predicate IsVerified(oracle: Oracle, params: VdfParams, seed: Bytes, e: VdfOrderedEntry) {
    e.proof.Some? && Verify(oracle, params, seed, e.envelopeId, e.proof.value)
  }

  /** Tier first, then verified evidence, then the self-reported time, then the id. */
  predicate RankLe(a: Ranked, b: Ranked) {
    if a.1.priority != b.1.priority then a.1.priority.ToInt() > b.1.priority.ToInt()
    else if a.0 != b.0 then a.0
    else if a.1.enqueuedAt != b.1.enqueuedAt then a.1.enqueuedAt < b.1.enqueuedAt
    else LexLe(a.1.envelopeId, b.1.envelopeId)
  }

  lemma RankOrder()
    ensures TotalPreorder(RankLe)
    ensures forall a, b :: RankLe(a, b) && RankLe(b, a) ==> a.1.envelopeId == b.1.envelopeId
  {
    forall a: Ranked, b: Ranked
      ensures RankLe(a, b) || RankLe(b, a)
      ensures RankLe(a, b) && RankLe(b, a) ==> a.1.envelopeId == b.1.envelopeId
    {
      LexTotal(a.1.envelopeId, b.1.envelopeId);
    }
    forall a: Ranked, b: Ranked, c: Ranked | RankLe(a, b) && RankLe(b, c) ensures RankLe(a, c) {
      if LexLe(a.1.envelopeId, b.1.envelopeId) && LexLe(b.1.envelopeId, c.1.envelopeId) {
        LexTransitive(a.1.envelopeId, b.1.envelopeId, c.1.envelopeId);
      }
    }
  }

  function Entries(ranked: seq<Ranked>): seq<VdfOrderedEntry> {
    seq(|ranked|, i requires 0 <= i < |ranked| => ranked[i].1)
  }

  ghost predicate Ordered(oracle: Oracle, params: VdfParams, seed: Bytes, s: seq<VdfOrderedEntry>) {
    forall i, j :: 0 <= i < j < |s| ==>
      RankLe((IsVerified(oracle, params, seed, s[i]), s[i]), (IsVerified(oracle, params, seed, s[j]), s[j]))
  }

  /** `sort_for_dispatch`: a permutation of the entries, in rank order. */
  method SortForDispatch(oracle: Oracle, params: VdfParams, seed: Bytes, entries: seq<VdfOrderedEntry>)
    returns (ordered: seq<VdfOrderedEntry>)
    ensures multiset(ordered) == multiset(entries)
    ensures Ordered(oracle, params, seed, ordered)
  {
    var ranked: seq<Ranked> := [];
    for i := 0 to |entries|
      invariant Entries(ranked) == entries[..i]
      invariant forall k :: k in ranked ==> k.0 == IsVerified(oracle, params, seed, k.1)
    {
      ranked := ranked + [(IsVerified(oracle, params, seed, entries[i]), entries[i])];
    }
    assert entries[..|entries|] == entries;
    RankOrder();
    var sorted := SortBy(ranked, RankLe);
    SameElements(sorted, ranked);
    var entryOf := (r: Ranked) => r.1;
    MappedPermutation(sorted, ranked, entryOf);
    assert Entries(sorted) == Mapped(sorted, entryOf) && Entries(ranked) == Mapped(ranked, entryOf);
    ordered := Entries(sorted);
    forall i, j | 0 <= i < j < |ordered|
      ensures RankLe((IsVerified(oracle, params, seed, ordered[i]), ordered[i]),
                     (IsVerified(oracle, params, seed, ordered[j]), ordered[j]))
    {
      assert sorted[i] in ranked && sorted[j] in ranked;
    }
  }

  /** Entries with different ids leave one possible order: it does not depend on how they came in. */
  lemma OrderIsIndependentOfInput(
    oracle: Oracle, params: VdfParams, seed: Bytes, r: seq<VdfOrderedEntry>, s: seq<VdfOrderedEntry>)
    requires Ordered(oracle, params, seed, r) && Ordered(oracle, params, seed, s) && multiset(r) == multiset(s)
    requires forall x, y :: x in r && y in r && x.envelopeId == y.envelopeId ==> x == y
    ensures r == s
  {
    var le := (a: VdfOrderedEntry, b: VdfOrderedEntry) =>
      RankLe((IsVerified(oracle, params, seed, a), a), (IsVerified(oracle, params, seed, b), b));
    RankOrder();
    assert SortedBy(r, le) && SortedBy(s, le);
    SortedIsUnique(r, s, le);
  }

  /** A tier is never overtaken by a lower one, whatever evidence the lower one has; within a tier, an
      entry whose proof passes is never overtaken by one without a proof or with one that fails,
      whatever times are claimed; only among equals in both does the earlier claimed time go first, and
      only at one time the smaller id. */
  lemma TierThenEvidence(oracle: Oracle, params: VdfParams, seed: Bytes, s: seq<VdfOrderedEntry>, i: nat, j: nat)
    requires Ordered(oracle, params, seed, s) && i < j < |s|
    ensures s[j].priority == Emergency ==> s[i].priority == Emergency
    ensures s[i].priority == Low ==> s[j].priority == Low
    ensures var x, y := s[i], s[j];
      var xPasses := x.proof.Some? && Verify(oracle, params, seed, x.envelopeId, x.proof.value);
      var yPasses := y.proof.Some? && Verify(oracle, params, seed, y.envelopeId, y.proof.value);
      x.priority == y.priority ==>
        (yPasses ==> xPasses) &&
        (xPasses == yPasses ==>
           x.enqueuedAt <= y.enqueuedAt &&
           (x.enqueuedAt == y.enqueuedAt ==>
              x.envelopeId <= y.envelopeId ||
              exists k :: FirstDifference(x.envelopeId, y.envelopeId, k) && x.envelopeId[k] < y.envelopeId[k]))
  {
    assert RankLe((IsVerified(oracle, params, seed, s[i]), s[i]), (IsVerified(oracle, params, seed, s[j]), s[j]));
    LexLeIff(s[i].envelopeId, s[j].envelopeId);
  }

  // ---- Proofs that fail count for nothing ----

  /** The entry without its proof, unless that passes. */
  function Checked(oracle: Oracle, params: VdfParams, seed: Bytes, e: VdfOrderedEntry): VdfOrderedEntry {
    if e.proof.Some? && !Verify(oracle, params, seed, e.envelopeId, e.proof.value) then e.(proof := None) else e
  }

  function WithoutFailing(
    oracle: Oracle, params: VdfParams, seed: Bytes, s: seq<VdfOrderedEntry>): seq<VdfOrderedEntry>
  {
    seq(|s|, i requires 0 <= i < |s| => Checked(oracle, params, seed, s[i]))
  }

  lemma CheckedPermutation(
    oracle: Oracle, params: VdfParams, seed: Bytes, r: seq<VdfOrderedEntry>, s: seq<VdfOrderedEntry>)
    requires multiset(r) == multiset(s)
    ensures multiset(WithoutFailing(oracle, params, seed, r)) == multiset(WithoutFailing(oracle, params, seed, s))
  {
    var checked := (e: VdfOrderedEntry) => Checked(oracle, params, seed, e);
    MappedPermutation(r, s, checked);
    assert WithoutFailing(oracle, params, seed, r) == Mapped(r, checked);
    assert WithoutFailing(oracle, params, seed, s) == Mapped(s, checked);
  }

  lemma CheckedIsOrdered(oracle: Oracle, params: VdfParams, seed: Bytes, s: seq<VdfOrderedEntry>)
    requires Ordered(oracle, params, seed, s)
    ensures Ordered(oracle, params, seed, WithoutFailing(oracle, params, seed, s))
  {
    var checked := WithoutFailing(oracle, params, seed, s);
    forall i, j | 0 <= i < j < |checked|
      ensures RankLe((IsVerified(oracle, params, seed, checked[i]), checked[i]),
                     (IsVerified(oracle, params, seed, checked[j]), checked[j]))
    {
      assert checked[i] == Checked(oracle, params, seed, s[i]) && checked[j] == Checked(oracle, params, seed, s[j]);
      assert RankLe((IsVerified(oracle, params, seed, s[i]), s[i]), (IsVerified(oracle, params, seed, s[j]), s[j]));
    }
  }

  lemma CheckedIdsTellApart(
    oracle: Oracle, params: VdfParams, seed: Bytes, entries: seq<VdfOrderedEntry>, s: seq<VdfOrderedEntry>)
    requires forall i, j :: 0 <= i < j < |entries| ==> entries[i].envelopeId != entries[j].envelopeId
    requires multiset(s) == multiset(WithoutFailing(oracle, params, seed, entries))
    ensures forall x, y :: x in s && y in s && x.envelopeId == y.envelopeId ==> x == y
  {
    var all := WithoutFailing(oracle, params, seed, entries);
    SameElements(s, all);
    forall x, y | x in s && y in s && x.envelopeId == y.envelopeId ensures x == y {
      assert x in all && y in all;
      var i :| 0 <= i < |all| && all[i] == x;
      var j :| 0 <= j < |all| && all[j] == y;
      assert all[i] == Checked(oracle, params, seed, entries[i]) && all[j] == Checked(oracle, params, seed, entries[j]);
    }
  }

  /** Entries sort as if the proofs that fail had not been there. */
  lemma FailingProofsDoNotCount(
    oracle: Oracle, params: VdfParams, seed: Bytes, entries: seq<VdfOrderedEntry>,
    r: seq<VdfOrderedEntry>, s: seq<VdfOrderedEntry>)
    requires forall i, j :: 0 <= i < j < |entries| ==> entries[i].envelopeId != entries[j].envelopeId
    requires Ordered(oracle, params, seed, r) && multiset(r) == multiset(entries)
    requires Ordered(oracle, params, seed, s) && multiset(s) == multiset(WithoutFailing(oracle, params, seed, entries))
    ensures s == WithoutFailing(oracle, params, seed, r)
  {
    CheckedIsOrdered(oracle, params, seed, r);
    CheckedPermutation(oracle, params, seed, r, entries);
    CheckedIdsTellApart(oracle, params, seed, entries, WithoutFailing(oracle, params, seed, r));
    OrderIsIndependentOfInput(oracle, params, seed, WithoutFailing(oracle, params, seed, r), s);
  }

  ghost predicate NonePasses(oracle: Oracle, params: VdfParams, seed: Bytes, s: seq<VdfOrderedEntry>) {
    forall e :: e in s && e.proof.Some? ==> !Verify(oracle, params, seed, e.envelopeId, e.proof.value)
  }

  /** When no proof passes, that is the order of the same entries with all proofs removed. */
  lemma NonePassesIsBare(oracle: Oracle, params: VdfParams, seed: Bytes, s: seq<VdfOrderedEntry>, i: nat)
    requires NonePasses(oracle, params, seed, s) && i < |s|
    ensures WithoutFailing(oracle, params, seed, s)[i] == s[i].(proof := None)
  {
    assert s[i] in s;
  }

  /** Popping a max-heap gives each element while no remaining one exceeds it. */
  ghost predicate IsDrainOrder(s: seq<QueuedTx>) {
    forall k :: 0 <= k < |s| ==> GoesFirst(multiset(s[k..]), s[k])
  }

  function AsQueued(s: seq<VdfOrderedEntry>, envelope: VdfOrderedEntry -> Envelope): seq<QueuedTx> {
    seq(|s|, i requires 0 <= i < |s| => QueuedTx(s[i].priority, s[i].enqueuedAt, envelope(s[i])))
  }

  /** When no proof verifies, the order is one in which the outbound queue could have drained. */
  lemma WithoutEvidenceItDrainsTheQueue(
    oracle: Oracle, params: VdfParams, seed: Bytes, s: seq<VdfOrderedEntry>, envelope: VdfOrderedEntry -> Envelope)
    requires Ordered(oracle, params, seed, s) && NonePasses(oracle, params, seed, s)
    ensures IsDrainOrder(AsQueued(s, envelope))
  {
    var q := AsQueued(s, envelope);
    forall k | 0 <= k < |q| ensures GoesFirst(multiset(q[k..]), q[k]) {
      TopGoesFirst(multiset(q[k..]), q[k]);
      assert q[k..][0] == q[k];
      forall x | x in multiset(q[k..]) ensures x.AtMost(q[k]) {
        assert x in q[k..];
        var i :| 0 <= i < |q[k..]| && q[k..][i] == x;
        assert x == q[k + i];
        if i > 0 {
          assert s[k] in s && s[k + i] in s;
          assert RankLe((IsVerified(oracle, params, seed, s[k]), s[k]),
                        (IsVerified(oracle, params, seed, s[k + i]), s[k + i]));
        }
      }
    }
  }
}
