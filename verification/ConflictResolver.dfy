/** Relay-quorum resolution of conflicts, src/conflict/resolver.rs. */
module ConflictResolver {
  import opened Encoding
  import opened Wrappers
  import opened Sorting
  import opened Settlement
  import opened ConflictDetector

  const MIN_QUORUM: nat := 2

  type RelayKey = nat

  datatype RelayProof = RelayProof(chainHash: nat, sequence: nat, signature: nat)

  datatype RelayObservation = RelayObservation(relay: RelayKey, proof: RelayProof)

  /** Whether the key parses and the proof's signature verifies under it for a message id. */
  type Verifier = (RelayKey, RelayProof, Id) -> bool

  predicate IsEvidence(verifies: Verifier, sequence: int, id: Id, o: RelayObservation) {
    o.proof.sequence == AsU64(sequence) && verifies(o.relay, o.proof, id)
  }

  /** `count_distinct_valid_relays`. */
  function ValidRelays(verifies: Verifier, observations: seq<RelayObservation>, sequence: int, id: Id): set<RelayKey> {
    set o | o in observations && IsEvidence(verifies, sequence, id, o) :: o.relay
  }

  datatype ConflictEvidence = ConflictEvidence(forA: seq<RelayObservation>, forB: seq<RelayObservation>)

  /** `resolve_conflict`; None is `UnresolvedConflict`. */
  function ResolveConflict(verifies: Verifier, c: Conflict, evidence: ConflictEvidence): Option<Id> {
    var a := |ValidRelays(verifies, evidence.forA, c.sequence, c.a)|;
    var b := |ValidRelays(verifies, evidence.forB, c.sequence, c.b)|;
    var aWins := a >= MIN_QUORUM && a > b;
    var bWins := b >= MIN_QUORUM && b > a;
    match (aWins, bWins)
    case (true, false) => Some(c.a)
    case (false, true) => Some(c.b)
    case _ => None
  }

  datatype CandidateEvidence = CandidateEvidence(id: Id, observations: seq<RelayObservation>)

  function Support(verifies: Verifier, conflict: NWayConflict, e: CandidateEvidence): nat {
    |ValidRelays(verifies, e.observations, conflict.sequence, e.id)|
  }

  function EvidenceIds(evidence: seq<CandidateEvidence>): seq<Id> {
    seq(|evidence|, i requires 0 <= i < |evidence| => evidence[i].id)
  }

  /** There is one piece of evidence per candidate, in any order. */
  predicate EvidenceMatches(conflict: NWayConflict, evidence: seq<CandidateEvidence>) {
    multiset(conflict.ids) == multiset(EvidenceIds(evidence))
  }

  /** Candidate i has a quorum and strictly more distinct valid relays than every other one. */
  predicate IsStrictWinner(verifies: Verifier, conflict: NWayConflict, evidence: seq<CandidateEvidence>, i: nat)
    requires i < |evidence|
  {
    Support(verifies, conflict, evidence[i]) >= MIN_QUORUM &&
    forall j :: 0 <= j < |evidence| && j != i ==>
      Support(verifies, conflict, evidence[j]) < Support(verifies, conflict, evidence[i])
  }

  /** What the n-way resolver may answer. */
  ghost predicate NWayAnswer(
    verifies: Verifier, conflict: NWayConflict, evidence: seq<CandidateEvidence>, r: Option<Id>)
  {
    match r
    case Some(winner) =>
      EvidenceMatches(conflict, evidence) &&
      exists i :: 0 <= i < |evidence| && IsStrictWinner(verifies, conflict, evidence, i) && evidence[i].id == winner
    case None =>
      !EvidenceMatches(conflict, evidence) ||
      forall i :: 0 <= i < |evidence| ==> !IsStrictWinner(verifies, conflict, evidence, i)
  }

  lemma SortedIdsMatchIff(conflict: NWayConflict, evidence: seq<CandidateEvidence>)
    ensures SortBy(conflict.ids, NatLe) == SortBy(EvidenceIds(evidence), NatLe) <==> EvidenceMatches(conflict, evidence)
  {
    if EvidenceMatches(conflict, evidence) {
      SortedIsUnique(SortBy(conflict.ids, NatLe), SortBy(EvidenceIds(evidence), NatLe), NatLe);
    }
  }

  /** `resolve_nway_conflict`. It panics on a conflict without candidates that comes without evidence. */
  method ResolveNWayConflict(verifies: Verifier, conflict: NWayConflict, evidence: seq<CandidateEvidence>)
    returns (r: Option<Id>)
    requires conflict.ids != [] || evidence != []
    ensures NWayAnswer(verifies, conflict, evidence, r)
  {
    var expectedIds := SortBy(conflict.ids, NatLe);
    var givenIds := SortBy(EvidenceIds(evidence), NatLe);
    if expectedIds != givenIds {
      SortedIdsMatchIff(conflict, evidence);
      return None;
    }
    SortedIdsMatchIff(conflict, evidence);
    SameLength(conflict.ids, EvidenceIds(evidence));
    var counts := CountAll(verifies, conflict, evidence);
    var winner, unique := FirstMaximum(counts);
    if unique && counts[winner] >= MIN_QUORUM {
      UniqueMaximumWins(verifies, conflict, evidence, counts, winner);
      return Some(evidence[winner].id);
    }
    NoUniqueMaximumNoWinner(verifies, conflict, evidence, counts, winner, unique);
    return None;
  }

  method CountAll(verifies: Verifier, conflict: NWayConflict, evidence: seq<CandidateEvidence>)
    returns (counts: seq<nat>)
    ensures CountsOf(verifies, conflict, evidence, counts)
  {
    counts := [];
    for k := 0 to |evidence|
      invariant |counts| == k && forall j :: 0 <= j < k ==> counts[j] == Support(verifies, conflict, evidence[j])
    {
      counts := counts + [Support(verifies, conflict, evidence[k])];
    }
  }

  ghost predicate CountsOf(
    verifies: Verifier, conflict: NWayConflict, evidence: seq<CandidateEvidence>, counts: seq<nat>)
  {
    |counts| == |evidence| && forall j :: 0 <= j < |counts| ==> counts[j] == Support(verifies, conflict, evidence[j])
  }

  lemma UniqueMaximumWins(
    verifies: Verifier, conflict: NWayConflict, evidence: seq<CandidateEvidence>, counts: seq<nat>, winner: nat)
    requires CountsOf(verifies, conflict, evidence, counts) && winner < |counts| && counts[winner] >= MIN_QUORUM
    requires forall j :: 0 <= j < |counts| && j != winner ==> counts[j] < counts[winner]
    ensures IsStrictWinner(verifies, conflict, evidence, winner)
  {
    forall j | 0 <= j < |evidence| && j != winner
      ensures Support(verifies, conflict, evidence[j]) < Support(verifies, conflict, evidence[winner])
    {
      assert counts[j] < counts[winner];
    }
  }

  lemma NoUniqueMaximumNoWinner(
    verifies: Verifier, conflict: NWayConflict, evidence: seq<CandidateEvidence>, counts: seq<nat>,
    top: nat, unique: bool)
    requires CountsOf(verifies, conflict, evidence, counts) && top < |counts|
    requires forall j :: 0 <= j < |counts| ==> counts[j] <= counts[top]
    requires unique <==> forall j :: 0 <= j < |counts| && j != top ==> counts[j] < counts[top]
    requires !unique || counts[top] < MIN_QUORUM
    ensures forall i :: 0 <= i < |evidence| ==> !IsStrictWinner(verifies, conflict, evidence, i)
  {
    forall i: nat | i < |evidence| ensures !IsStrictWinner(verifies, conflict, evidence, i) {
      if IsStrictWinner(verifies, conflict, evidence, i) {
        StrictWinnerIsTop(verifies, conflict, evidence, counts, top, i);
      }
    }
  }

  lemma StrictWinnerIsTop(
    verifies: Verifier, conflict: NWayConflict, evidence: seq<CandidateEvidence>, counts: seq<nat>, top: nat, i: nat)
    requires CountsOf(verifies, conflict, evidence, counts) && top < |counts| && i < |evidence|
    requires forall j :: 0 <= j < |counts| ==> counts[j] <= counts[top]
    requires IsStrictWinner(verifies, conflict, evidence, i)
    ensures i == top && counts[top] >= MIN_QUORUM
    ensures forall j :: 0 <= j < |counts| && j != top ==> counts[j] < counts[top]
  {
    assert counts[top] == Support(verifies, conflict, evidence[top]);
    assert counts[i] == Support(verifies, conflict, evidence[i]) <= counts[top];
  }

  lemma SameLength(ids: seq<Id>, ids': seq<Id>)
    requires multiset(ids) == multiset(ids')
    ensures |ids| == |ids'|
  {
    assert |ids| == |multiset(ids)| == |multiset(ids')| == |ids'|;
  }

  /** The maximum, the first place that has it, and whether it is the only one. */
  method FirstMaximum(counts: seq<nat>) returns (winner: nat, unique: bool)
    requires counts != []
    ensures winner < |counts| && forall j :: 0 <= j < |counts| ==> counts[j] <= counts[winner]
    ensures forall j :: 0 <= j < winner ==> counts[j] < counts[winner]
    ensures unique <==> forall j :: 0 <= j < |counts| && j != winner ==> counts[j] < counts[winner]
  {
    var maxCount := counts[0];
    for k := 1 to |counts|
      invariant forall j :: 0 <= j < k ==> counts[j] <= maxCount
      invariant exists j :: 0 <= j < k && counts[j] == maxCount
    {
      if counts[k] >= maxCount {
        maxCount := counts[k];
      }
    }
    winner := 0;
    while counts[winner] != maxCount
      invariant winner < |counts|
      invariant forall j :: 0 <= j < winner ==> counts[j] != maxCount
      decreases |counts| - winner
    {
      winner := winner + 1;
    }
    assert forall j :: 0 <= j < winner ==> counts[j] < maxCount;
    unique := true;
    for k := winner + 1 to |counts|
      invariant unique <==> forall j :: winner < j < k ==> counts[j] != maxCount
    {
      if counts[k] == maxCount {
        unique := false;
      }
    }
  }

  /** The answer is determined by the evidence. */
  lemma NWayAnswerIsUnique(
    verifies: Verifier, conflict: NWayConflict, evidence: seq<CandidateEvidence>, r: Option<Id>, r': Option<Id>)
    requires NWayAnswer(verifies, conflict, evidence, r) && NWayAnswer(verifies, conflict, evidence, r')
    ensures r == r'
  {
    if r.Some? && r'.Some? {
      var i :| 0 <= i < |evidence| && IsStrictWinner(verifies, conflict, evidence, i) && evidence[i].id == r.value;
      var j :| 0 <= j < |evidence| && IsStrictWinner(verifies, conflict, evidence, j) && evidence[j].id == r'.value;
    }
  }

  /** On two candidates the n-way resolver decides what the two-way one decides. */
  lemma TwoWayAgreesWithNWay(verifies: Verifier, c: Conflict, evidence: ConflictEvidence)
    ensures NWayAnswer(verifies, NWayConflict(c.account, c.sequence, [c.a, c.b]),
              [CandidateEvidence(c.a, evidence.forA), CandidateEvidence(c.b, evidence.forB)],
              ResolveConflict(verifies, c, evidence))
  {
    var conflict := NWayConflict(c.account, c.sequence, [c.a, c.b]);
    var both := [CandidateEvidence(c.a, evidence.forA), CandidateEvidence(c.b, evidence.forB)];
    var a := |ValidRelays(verifies, evidence.forA, c.sequence, c.a)|;
    var b := |ValidRelays(verifies, evidence.forB, c.sequence, c.b)|;
    assert EvidenceIds(both) == [c.a, c.b];
    assert Support(verifies, conflict, both[0]) == a && Support(verifies, conflict, both[1]) == b;
    assert IsStrictWinner(verifies, conflict, both, 0) <==> a >= MIN_QUORUM && b < a;
    assert IsStrictWinner(verifies, conflict, both, 1) <==> b >= MIN_QUORUM && a < b;
  }

  /** Two bodies of evidence about the same candidates, position by position, with the same set of
      observations each: observations permuted or repeated. */
  ghost predicate SameObservations(evidence: seq<CandidateEvidence>, evidence': seq<CandidateEvidence>) {
    |evidence| == |evidence'| && forall i :: 0 <= i < |evidence| ==>
      evidence[i].id == evidence'[i].id &&
      forall o :: o in evidence[i].observations <==> o in evidence'[i].observations
  }

  lemma OnlyTheSetOfObservationsCounts(
    verifies: Verifier, conflict: NWayConflict,
    evidence: seq<CandidateEvidence>, evidence': seq<CandidateEvidence>, r: Option<Id>)
    requires SameObservations(evidence, evidence') && NWayAnswer(verifies, conflict, evidence, r)
    ensures NWayAnswer(verifies, conflict, evidence', r)
  {
    assert EvidenceIds(evidence) == EvidenceIds(evidence');
    forall i | 0 <= i < |evidence|
      ensures Support(verifies, conflict, evidence[i]) == Support(verifies, conflict, evidence'[i])
    {
      assert ValidRelays(verifies, evidence[i].observations, conflict.sequence, evidence[i].id) ==
             ValidRelays(verifies, evidence'[i].observations, conflict.sequence, evidence'[i].id);
    }
    SameSupportSameWinners(verifies, conflict, evidence, evidence');
  }

  lemma SameSupportSameWinners(
    verifies: Verifier, conflict: NWayConflict, evidence: seq<CandidateEvidence>, evidence': seq<CandidateEvidence>)
    requires |evidence| == |evidence'|
    requires forall i :: 0 <= i < |evidence| ==>
      evidence[i].id == evidence'[i].id &&
      Support(verifies, conflict, evidence[i]) == Support(verifies, conflict, evidence'[i])
    ensures forall i :: 0 <= i < |evidence| ==>
      (IsStrictWinner(verifies, conflict, evidence, i) <==> IsStrictWinner(verifies, conflict, evidence', i))
  {
  }

  /** A strict winner, seen without positions: it stands once in the evidence and beats every other. */
  ghost predicate WinsAmong(
    verifies: Verifier, conflict: NWayConflict, all: multiset<CandidateEvidence>, e: CandidateEvidence)
  {
    all[e] == 1 && Support(verifies, conflict, e) >= MIN_QUORUM &&
    forall other :: other in all && other != e ==> Support(verifies, conflict, other) < Support(verifies, conflict, e)
  }

  lemma PlaceWithout<T>(s: seq<T>, i: nat, j: nat)
    requires i < |s| && j < |s| && j != i
    ensures s[j] in s[..i] + s[i + 1..]
  {
    assert s[j] == (s[..i] + s[i + 1..])[if j < i then j else j - 1];
  }

  lemma FoundElsewhere<T>(s: seq<T>, i: nat, x: T) returns (j: nat)
    requires i < |s| && x in s[..i] + s[i + 1..]
    ensures j < |s| && j != i && s[j] == x
  {
    var k :| 0 <= k < |s| - 1 && (s[..i] + s[i + 1..])[k] == x;
    j := if k < i then k else k + 1;
  }

  lemma SplitAt<T>(s: seq<T>, i: nat)
    requires i < |s|
    ensures multiset(s) == multiset(s[..i] + s[i + 1..]) + multiset{s[i]}
  {
    assert s == s[..i] + [s[i]] + s[i + 1..];
  }

  /** What stands in the other places. */
  lemma OtherPlaces<T>(s: seq<T>, i: nat) returns (rest: multiset<T>)
    requires i < |s|
    ensures multiset(s) == rest + multiset{s[i]}
    ensures forall j :: 0 <= j < |s| && j != i ==> s[j] in rest
    ensures forall x :: x in rest ==> exists j :: 0 <= j < |s| && j != i && s[j] == x
  {
    SplitAt(s, i);
    rest := multiset(s[..i] + s[i + 1..]);
    forall j | 0 <= j < |s| && j != i ensures s[j] in rest {
      PlaceWithout(s, i, j);
    }
    forall x | x in rest ensures exists j :: 0 <= j < |s| && j != i && s[j] == x {
      var j := FoundElsewhere(s, i, x);
    }
  }

  lemma StrictWinnerWinsAmong(
    verifies: Verifier, conflict: NWayConflict, evidence: seq<CandidateEvidence>, i: nat)
    requires i < |evidence|
    ensures IsStrictWinner(verifies, conflict, evidence, i) <==>
            WinsAmong(verifies, conflict, multiset(evidence), evidence[i])
  {
    var rest := OtherPlaces(evidence, i);
    if IsStrictWinner(verifies, conflict, evidence, i) {
      assert evidence[i] !in rest;
    }
  }

  lemma WinnerOfPermutation(
    verifies: Verifier, conflict: NWayConflict,
    evidence: seq<CandidateEvidence>, evidence': seq<CandidateEvidence>, i: nat) returns (j: nat)
    requires multiset(evidence) == multiset(evidence')
    requires i < |evidence| && IsStrictWinner(verifies, conflict, evidence, i)
    ensures j < |evidence'| && evidence'[j] == evidence[i] && IsStrictWinner(verifies, conflict, evidence', j)
  {
    StrictWinnerWinsAmong(verifies, conflict, evidence, i);
    SameElements(evidence, evidence');
    assert evidence[i] in evidence';
    j :| 0 <= j < |evidence'| && evidence'[j] == evidence[i];
    StrictWinnerWinsAmong(verifies, conflict, evidence', j);
  }

  /** The candidates' evidence may come in any order. */
  lemma EvidenceOrderDoesNotCount(
    verifies: Verifier, conflict: NWayConflict,
    evidence: seq<CandidateEvidence>, evidence': seq<CandidateEvidence>, r: Option<Id>)
    requires multiset(evidence) == multiset(evidence') && NWayAnswer(verifies, conflict, evidence, r)
    ensures NWayAnswer(verifies, conflict, evidence', r)
  {
    var idOf := (e: CandidateEvidence) => e.id;
    MappedPermutation(evidence, evidence', idOf);
    assert EvidenceIds(evidence) == Mapped(evidence, idOf) && EvidenceIds(evidence') == Mapped(evidence', idOf);
    if r.Some? {
      var i :| 0 <= i < |evidence| && IsStrictWinner(verifies, conflict, evidence, i) && evidence[i].id == r.value;
      var j := WinnerOfPermutation(verifies, conflict, evidence, evidence', i);
    } else if EvidenceMatches(conflict, evidence) {
      forall j: nat | j < |evidence'| ensures !IsStrictWinner(verifies, conflict, evidence', j) {
        if IsStrictWinner(verifies, conflict, evidence', j) {
          var i := WinnerOfPermutation(verifies, conflict, evidence', evidence, j);
        }
      }
    }
  }

  /** evidence' is evidence with more observations, all of them bearing one relay key. */
  ghost predicate OneRelayAdded(evidence: seq<CandidateEvidence>, evidence': seq<CandidateEvidence>, relay: RelayKey) {
    |evidence| == |evidence'| && forall i :: 0 <= i < |evidence| ==>
      evidence[i].id == evidence'[i].id &&
      (forall o :: o in evidence[i].observations ==> o in evidence'[i].observations) &&
      forall o :: o in evidence'[i].observations && o !in evidence[i].observations ==> o.relay == relay
  }

  lemma OneRelayAddsAtMostOne(
    verifies: Verifier, conflict: NWayConflict, e: CandidateEvidence, e': CandidateEvidence, relay: RelayKey)
    requires e.id == e'.id && (forall o :: o in e.observations ==> o in e'.observations)
    requires forall o :: o in e'.observations && o !in e.observations ==> o.relay == relay
    ensures Support(verifies, conflict, e) <= Support(verifies, conflict, e') <= Support(verifies, conflict, e) + 1
  {
    var before := ValidRelays(verifies, e.observations, conflict.sequence, e.id);
    var after := ValidRelays(verifies, e'.observations, conflict.sequence, e'.id);
    assert before <= after <= before + {relay};
    SubsetIsSmaller(before, after);
    SubsetIsSmaller(after, before + {relay});
  }

  /** Sybil resistance: however many observations one relay key adds, for whichever candidates, a
      decided conflict keeps its winner or becomes unresolved; it never switches. */
  lemma OneRelayCannotSwitchTheWinner(
    verifies: Verifier, conflict: NWayConflict,
    evidence: seq<CandidateEvidence>, evidence': seq<CandidateEvidence>, relay: RelayKey,
    winner: Id, r': Option<Id>)
    requires OneRelayAdded(evidence, evidence', relay)
    requires NWayAnswer(verifies, conflict, evidence, Some(winner)) && NWayAnswer(verifies, conflict, evidence', r')
    ensures r' == Some(winner) || r' == None
  {
    var w :| 0 <= w < |evidence| && IsStrictWinner(verifies, conflict, evidence, w) && evidence[w].id == winner;
    if r'.Some? {
      var i :| 0 <= i < |evidence'| && IsStrictWinner(verifies, conflict, evidence', i) && evidence'[i].id == r'.value;
      OneRelayAddsAtMostOne(verifies, conflict, evidence[w], evidence'[w], relay);
      OneRelayAddsAtMostOne(verifies, conflict, evidence[i], evidence'[i], relay);
      assert i == w;
    }
  }

  /** A single relay key decides nothing by itself. */
  lemma OneRelayIsNoQuorum(verifies: Verifier, conflict: NWayConflict, evidence: seq<CandidateEvidence>, relay: RelayKey)
    requires forall i, o :: 0 <= i < |evidence| && o in evidence[i].observations ==> o.relay == relay
    ensures NWayAnswer(verifies, conflict, evidence, None)
  {
    forall i | 0 <= i < |evidence| ensures Support(verifies, conflict, evidence[i]) <= 1 {
      SubsetIsSmaller(ValidRelays(verifies, evidence[i].observations, conflict.sequence, evidence[i].id), {relay});
    }
  }

  // ---- What counts as evidence ----

  /** The signature verifies under the relay's key for this very envelope, and the proof is for the
      conflict's sequence read as an unsigned 64-bit number. */
  predicate Vouches(verifies: Verifier, sequence: int, id: Id, o: RelayObservation) {
    verifies(o.relay, o.proof, id) &&
    o.proof.sequence == if sequence < 0 then sequence + 0x1_0000_0000_0000_0000 else sequence
  }

  /** Two different relays vouch for the envelope. */
  ghost predicate TwoRelaysVouch(verifies: Verifier, sequence: int, id: Id, observations: seq<RelayObservation>) {
    exists o, o' :: o in observations && o' in observations && o.relay != o'.relay &&
      Vouches(verifies, sequence, id, o) && Vouches(verifies, sequence, id, o')
  }

  lemma TwoOf<T>(s: set<T>) returns (x: T, y: T)
    requires |s| >= 2
    ensures x in s && y in s && x != y
  {
    x :| x in s;
    assert |s - {x}| == |s| - 1;
    y :| y in s - {x};
  }

  lemma QuorumIffTwoVouch(verifies: Verifier, conflict: NWayConflict, e: CandidateEvidence)
    ensures Support(verifies, conflict, e) >= 2 <==> TwoRelaysVouch(verifies, conflict.sequence, e.id, e.observations)
  {
    var relays := ValidRelays(verifies, e.observations, conflict.sequence, e.id);
    if |relays| >= 2 {
      var x, y := TwoOf(relays);
      var o :| o in e.observations && IsEvidence(verifies, conflict.sequence, e.id, o) && o.relay == x;
      var o' :| o' in e.observations && IsEvidence(verifies, conflict.sequence, e.id, o') && o'.relay == y;
      assert Vouches(verifies, conflict.sequence, e.id, o) && Vouches(verifies, conflict.sequence, e.id, o');
    }
    if TwoRelaysVouch(verifies, conflict.sequence, e.id, e.observations) {
      var o, o' :| o in e.observations && o' in e.observations && o.relay != o'.relay &&
        Vouches(verifies, conflict.sequence, e.id, o) && Vouches(verifies, conflict.sequence, e.id, o');
      assert IsEvidence(verifies, conflict.sequence, e.id, o) && IsEvidence(verifies, conflict.sequence, e.id, o');
      SubsetIsSmaller({o.relay, o'.relay}, relays);
    }
  }

  /** A winner is vouched for by two different relays. */
  lemma WinnerIsVouchedFor(
    verifies: Verifier, conflict: NWayConflict, evidence: seq<CandidateEvidence>, winner: Id)
    requires NWayAnswer(verifies, conflict, evidence, Some(winner))
    ensures exists i ::
              0 <= i < |evidence| && evidence[i].id == winner &&
              TwoRelaysVouch(verifies, conflict.sequence, winner, evidence[i].observations)
  {
    var i :| 0 <= i < |evidence| && IsStrictWinner(verifies, conflict, evidence, i) && evidence[i].id == winner;
    QuorumIffTwoVouch(verifies, conflict, evidence[i]);
  }

  /** Two relays vouching for one candidate, and none for any other, decide the conflict. */
  lemma TwoAgainstNoneWin(verifies: Verifier, conflict: NWayConflict, evidence: seq<CandidateEvidence>, i: nat)
    requires EvidenceMatches(conflict, evidence) && i < |evidence|
    requires TwoRelaysVouch(verifies, conflict.sequence, evidence[i].id, evidence[i].observations)
    requires forall j, o :: 0 <= j < |evidence| && j != i && o in evidence[j].observations ==>
      !Vouches(verifies, conflict.sequence, evidence[j].id, o)
    ensures NWayAnswer(verifies, conflict, evidence, Some(evidence[i].id))
  {
    QuorumIffTwoVouch(verifies, conflict, evidence[i]);
    forall j | 0 <= j < |evidence| && j != i ensures Support(verifies, conflict, evidence[j]) == 0 {
      assert forall o :: o in evidence[j].observations ==> !IsEvidence(verifies, conflict.sequence, evidence[j].id, o);
      assert ValidRelays(verifies, evidence[j].observations, conflict.sequence, evidence[j].id) == {};
    }
    assert IsStrictWinner(verifies, conflict, evidence, i);
  }

  /** evidence' is evidence without the observations that do not vouch. */
  ghost predicate OnlyVouching(
    verifies: Verifier, conflict: NWayConflict, evidence: seq<CandidateEvidence>, evidence': seq<CandidateEvidence>)
  {
    |evidence| == |evidence'| && forall i :: 0 <= i < |evidence| ==>
      evidence[i].id == evidence'[i].id &&
      forall o :: o in evidence'[i].observations <==>
        o in evidence[i].observations && Vouches(verifies, conflict.sequence, evidence[i].id, o)
  }

  /** Observations that do not vouch change no answer. */
  lemma OnlyVouchingObservationsCount(
    verifies: Verifier, conflict: NWayConflict,
    evidence: seq<CandidateEvidence>, evidence': seq<CandidateEvidence>, r: Option<Id>)
    requires OnlyVouching(verifies, conflict, evidence, evidence')
    ensures NWayAnswer(verifies, conflict, evidence, r) <==> NWayAnswer(verifies, conflict, evidence', r)
  {
    assert EvidenceIds(evidence) == EvidenceIds(evidence');
    forall i | 0 <= i < |evidence|
      ensures Support(verifies, conflict, evidence[i]) == Support(verifies, conflict, evidence'[i])
    {
      SameValidRelays(verifies, conflict.sequence, evidence[i].id, evidence[i].observations, evidence'[i].observations);
    }
    SameSupportSameWinners(verifies, conflict, evidence, evidence');
  }

  lemma SameValidRelays(
    verifies: Verifier, sequence: int, id: Id, all: seq<RelayObservation>, vouching: seq<RelayObservation>)
    requires forall o :: o in vouching <==> o in all && Vouches(verifies, sequence, id, o)
    ensures ValidRelays(verifies, all, sequence, id) == ValidRelays(verifies, vouching, sequence, id)
  {
    forall o: RelayObservation
      ensures o in all && IsEvidence(verifies, sequence, id, o) <==>
              o in vouching && IsEvidence(verifies, sequence, id, o)
    {
      assert IsEvidence(verifies, sequence, id, o) <==> Vouches(verifies, sequence, id, o);
    }
  }

  /** The two-way resolver: who wins is vouched for by two relays, and two against none win. */
  lemma TwoWayWinnerIsVouchedFor(verifies: Verifier, c: Conflict, evidence: ConflictEvidence)
    requires c.a != c.b
    ensures ResolveConflict(verifies, c, evidence) == Some(c.a) ==>
              TwoRelaysVouch(verifies, c.sequence, c.a, evidence.forA)
    ensures ResolveConflict(verifies, c, evidence) == Some(c.b) ==>
              TwoRelaysVouch(verifies, c.sequence, c.b, evidence.forB)
  {
    var conflict := NWayConflict(c.account, c.sequence, [c.a, c.b]);
    QuorumIffTwoVouch(verifies, conflict, CandidateEvidence(c.a, evidence.forA));
    QuorumIffTwoVouch(verifies, conflict, CandidateEvidence(c.b, evidence.forB));
  }
}
