/** The vote count of src/conflict/quorum.rs. */
module VoteQuorum {
  import opened Settlement

  datatype QuorumResult = Resolved(candidate: Id) | NoQuorumReached | SplitDecision

  /** The possible results over all walks of the count map. */
  ghost predicate Outcome(votes: seq<Id>, quorumSize: nat, threshold: nat, r: QuorumResult) {
    if |votes| < quorumSize then r == NoQuorumReached
    else match r
      case NoQuorumReached => false
      case Resolved(c) => c in votes && multiset(votes)[c] >= threshold
      case SplitDecision => forall c :: c in votes ==> multiset(votes)[c] < threshold
  }

  /** `resolve_by_quorum`: the first candidate met in the hash map with enough votes. */
  method ResolveByQuorum(votes: seq<Id>, quorumSize: nat, threshold: nat) returns (r: QuorumResult)
    ensures Outcome(votes, quorumSize, threshold, r)
  {
    if |votes| < quorumSize {
      return NoQuorumReached;
    }
    var counts: map<Id, nat> := map[];
    for i := 0 to |votes|
      invariant forall c :: c in counts <==> c in votes[..i]
      invariant forall c :: c in counts ==> counts[c] == multiset(votes[..i])[c]
    {
      var vote := votes[i];
      assert votes[..i + 1] == votes[..i] + [vote];
      assert vote !in votes[..i] ==> multiset(votes[..i])[vote] == 0;
      counts := counts[vote := (if vote in counts then counts[vote] else 0) + 1];
    }
    assert votes[..|votes|] == votes;
    var todo := counts.Keys;
    while todo != {}
      invariant todo <= counts.Keys
      invariant forall c :: c in counts && c !in todo ==> counts[c] < threshold
      decreases todo
    {
      var candidate :| candidate in todo;
      if counts[candidate] >= threshold {
        return Resolved(candidate);
      }
      todo := todo - {candidate};
    }
    return SplitDecision;
  }

  /** Two candidates reach the threshold together. */
  ghost predicate TwoReach(votes: seq<Id>, threshold: nat) {
    exists c, d :: c != d && c in votes && d in votes && multiset(votes)[c] >= threshold && multiset(votes)[d] >= threshold
  }

  ghost predicate Deterministic(votes: seq<Id>, quorumSize: nat, threshold: nat) {
    forall r, r' :: Outcome(votes, quorumSize, threshold, r) && Outcome(votes, quorumSize, threshold, r') ==> r == r'
  }

  /** The result does not depend on the walk of the map exactly when no two candidates reach the
      threshold together. */
  lemma DeterministicIffNoTwoReach(votes: seq<Id>, quorumSize: nat, threshold: nat)
    ensures Deterministic(votes, quorumSize, threshold) <==> |votes| < quorumSize || !TwoReach(votes, threshold)
  {
    if |votes| >= quorumSize && TwoReach(votes, threshold) {
      var c, d :| c != d && c in votes && d in votes &&
                  multiset(votes)[c] >= threshold && multiset(votes)[d] >= threshold;
      assert Outcome(votes, quorumSize, threshold, Resolved(c)) && Outcome(votes, quorumSize, threshold, Resolved(d));
    }
  }

  lemma TwoCandidatesShareTheVotes(votes: seq<Id>, c: Id, d: Id)
    requires c != d
    ensures multiset(votes)[c] + multiset(votes)[d] <= |votes|
  {
    var m := multiset(votes);
    var picked := multiset{}[c := m[c]][d := m[d]];
    assert picked <= m;
    assert |m - picked| == |m| - |picked|;
    assert |m| == |votes|;
  }

  /** A threshold of more than half the votes makes the result independent of the walk. */
  lemma MajorityThresholdIsDeterministic(votes: seq<Id>, quorumSize: nat, threshold: nat)
    requires 2 * threshold > |votes|
    ensures Deterministic(votes, quorumSize, threshold)
  {
    forall c, d | c != d ensures multiset(votes)[c] < threshold || multiset(votes)[d] < threshold {
      TwoCandidatesShareTheVotes(votes, c, d);
    }
    DeterministicIffNoTwoReach(votes, quorumSize, threshold);
  }

  function Repeated(n: nat, c: Id): (votes: seq<Id>)
    ensures |votes| == n && multiset(votes)[c] == n
  {
    if n == 0 then [] else Repeated(n - 1, c) + [c]
  }

  /** More than half the votes is exactly what it takes: at any number of votes that makes a quorum,
      a lower threshold (two thirds of the quorum size, say) leaves some vote lists undetermined. */
  lemma DeterminismNeedsAMajorityThreshold(n: nat, quorumSize: nat, threshold: nat)
    requires n >= quorumSize && threshold > 0
    ensures (forall votes: seq<Id> :: |votes| == n ==> Deterministic(votes, quorumSize, threshold)) <==>
            2 * threshold > n
  {
    if 2 * threshold > n {
      forall votes: seq<Id> | |votes| == n ensures Deterministic(votes, quorumSize, threshold) {
        MajorityThresholdIsDeterministic(votes, quorumSize, threshold);
      }
    } else {
      var c: Id, d: Id := 0, 1;
      var some, others := Repeated(threshold, c), Repeated(n - threshold, d);
      var votes := some + others;
      assert c in multiset(votes) && d in multiset(votes);
      assert multiset(votes) == multiset(some) + multiset(others);
      assert TwoReach(votes, threshold);
      DeterministicIffNoTwoReach(votes, quorumSize, threshold);
      assert |votes| == n;
    }
  }

  /** A bloc smaller than the threshold cannot elect a candidate that nobody else votes for,
      whatever the order in which the votes came in. */
  lemma SmallBlocElectsNobody(votes: seq<Id>, quorumSize: nat, threshold: nat, bloc: seq<Id>, honest: seq<Id>, c: Id)
    requires multiset(votes) == multiset(bloc) + multiset(honest) && c !in honest && |bloc| < threshold
    ensures !Outcome(votes, quorumSize, threshold, Resolved(c))
  {
    assert c !in multiset(honest);
    TwoCandidatesShareTheVotes(bloc, c, c + 1);
  }

  /** Nor can it mask an honest agreement: when the honest votes all name one candidate and reach the
      threshold, that candidate is the only possible result, whatever the bloc votes for. */
  lemma HonestAgreementIsNotMasked(
    votes: seq<Id>, quorumSize: nat, threshold: nat, bloc: seq<Id>, honest: seq<Id>, c: Id, r: QuorumResult)
    requires multiset(votes) == multiset(bloc) + multiset(honest) && |votes| >= quorumSize
    requires (forall i :: 0 <= i < |honest| ==> honest[i] == c) && |honest| >= threshold && |bloc| < threshold
    ensures Outcome(votes, quorumSize, threshold, r) <==> r == Resolved(c)
  {
    AllVotesFor(honest, c);
    assert c in multiset(votes);
    forall d | d != c ensures multiset(votes)[d] < threshold {
      assert d !in multiset(honest);
      TwoCandidatesShareTheVotes(bloc, d, c);
    }
  }

  lemma {:induction false} AllVotesFor(votes: seq<Id>, c: Id)
    requires forall i :: 0 <= i < |votes| ==> votes[i] == c
    ensures multiset(votes)[c] == |votes|
  {
    if votes != [] {
      AllVotesFor(votes[1..], c);
      assert votes == [votes[0]] + votes[1..];
    }
  }
}
