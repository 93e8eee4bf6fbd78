/** The settlement state machine of src/settlement/tracker.rs. */
module Settlement {
  import opened Wrappers

  type Id = nat  // a 32-byte message id, read big-endian

  datatype Status = Queued | Propagating | Settled | Failed | Disputed
  {
    function AsStr(): string {
      match this
      case Queued => "queued"
      case Propagating => "propagating"
      case Settled => "settled"
      case Failed => "failed"
      case Disputed => "disputed"
    }

    predicate CanTransitionTo(next: Status) {
      match (this, next)
      case (Queued, Propagating) => true
      case (Queued, Failed) => true
      case (Propagating, Settled) => true
      case (Propagating, Failed) => true
      case (Propagating, Disputed) => true
      case (Disputed, Settled) => true
      case (Disputed, Failed) => true
      case (Failed, Propagating) => true
      case _ => false
    }
  }

  /** `SettlementStatus::from_str`. */
  function Parse(s: string): (r: Option<Status>)
    ensures forall status: Status :: r == Some(status) <==> s == status.AsStr()
  {
    NamesDiffer();
    if s == "queued" then Some(Queued)
    else if s == "propagating" then Some(Propagating)
    else if s == "settled" then Some(Settled)
    else if s == "failed" then Some(Failed)
    else if s == "disputed" then Some(Disputed)
    else None
  }

  lemma NamesDiffer()
    ensures forall s: Status, t: Status :: s.AsStr() == t.AsStr() ==> s == t
  {
    forall s: Status, t: Status | s.AsStr() == t.AsStr() ensures s == t {
      assert s.AsStr()[0] == t.AsStr()[0];
      assert |s.AsStr()| == |t.AsStr()|;
    }
  }

  /** The content of a status column, sorted by what `from_str` makes of it: one of the five names,
      or a text that does not parse (the column is plain text). */
  datatype StatusText = Named(status: Status) | Foreign(text: string)

  function Read(column: string): StatusText {
    match Parse(column) case Some(status) => Named(status) case None => Foreign(column)
  }

  function Text(column: StatusText): string {
    match column case Named(status) => status.AsStr() case Foreign(text) => text
  }

  /** Sorting loses nothing: columns and their sorted form correspond one to one. */
  lemma ReadTextRoundTrip(column: string, status: Status)
    ensures Text(Read(column)) == column && Read(status.AsStr()) == Named(status)
    ensures Parse(column) == Some(status) <==> Read(column) == Named(status)
  {
    assert Parse(status.AsStr()) == Some(status);
  }

  datatype TransitionError = EnvelopeNotFound(id: Id) | InvalidStateTransition(from: Status, to: Status)

  type Statuses = map<Id, Status>

  /** One attempted transition on a table of statuses. */
  function Transition(statuses: Statuses, id: Id, next: Status): Result<Statuses, TransitionError> {
    if id !in statuses then Err(EnvelopeNotFound(id))
    else if !statuses[id].CanTransitionTo(next) then Err(InvalidStateTransition(statuses[id], next))
    else Ok(statuses[id := next])
  }

  class SettlementTracker {
    var statuses: Statuses

    constructor ()
      ensures statuses == map[]
    {
      statuses := map[];
    }

    /** `track`: fresh entries start Queued. */
    method Track(id: Id)
      modifies this
      ensures statuses == old(statuses)[id := Queued]
    {
      statuses := statuses[id := Queued];
    }

    method Restore(id: Id, status: Status)
      modifies this
      ensures statuses == old(statuses)[id := status]
    {
      statuses := statuses[id := status];
    }

    method ApplyTransition(id: Id, next: Status) returns (result: Result<(), TransitionError>)
      modifies this
      ensures match Transition(old(statuses), id, next)
              case Ok(after) => result == Ok(()) && statuses == after
              case Err(e) => result == Err(e) && statuses == old(statuses)
    {
      if id !in statuses {
        return Err(EnvelopeNotFound(id));
      }
      var current := statuses[id];
      if !current.CanTransitionTo(next) {
        return Err(InvalidStateTransition(current, next));
      }
      statuses := statuses[id := next];
      return Ok(());
    }
  }

  /** A walk along legal transitions, given by the statuses it visits after `from`. */
  predicate LegalWalk(from: Status, visited: seq<Status>)
    decreases |visited|
  {
    visited == [] || (from.CanTransitionTo(visited[0]) && LegalWalk(visited[0], visited[1..]))
  }

  function WalkEnd(from: Status, visited: seq<Status>): Status {
    if visited == [] then from else visited[|visited| - 1]
  }

  lemma {:induction false} WalkAppend(from: Status, visited: seq<Status>, next: Status)
    requires LegalWalk(from, visited) && WalkEnd(from, visited).CanTransitionTo(next)
    ensures LegalWalk(from, visited + [next])
    decreases |visited|
  {
    if visited == [] {
      assert visited + [next] == [next];
    } else {
      WalkAppend(visited[0], visited[1..], next);
      assert (visited + [next])[1..] == visited[1..] + [next];
    }
  }

  /** No walk of any length comes back to Queued, and none leaves Settled. */
  lemma {:induction false} NoWalkReentersQueued(from: Status, visited: seq<Status>)
    requires LegalWalk(from, visited)
    ensures Queued !in visited
    ensures from == Settled ==> visited == []
    decreases |visited|
  {
    if visited != [] {
      NoWalkReentersQueued(visited[0], visited[1..]);
      assert visited == [visited[0]] + visited[1..];
    }
  }

  ghost predicate Reaches(from: Status, to: Status) {
    exists visited :: LegalWalk(from, visited) && WalkEnd(from, visited) == to
  }

  lemma WalkOfOne(from: Status, to: Status)
    requires from.CanTransitionTo(to)
    ensures Reaches(from, to)
  {
    var visited := [to];
    assert LegalWalk(from, visited) by {
      assert visited[1..] == [];
    }
    assert WalkEnd(from, visited) == to;
  }

  lemma WalkOfTwo(from: Status, via: Status, to: Status)
    requires from.CanTransitionTo(via) && via.CanTransitionTo(to)
    ensures Reaches(from, to)
  {
    assert [via, to][1..] == [to] && [to][1..] == [];
    assert LegalWalk(via, [to]);
    assert LegalWalk(from, [via, to]) && WalkEnd(from, [via, to]) == to;
  }

  /** What the legal walks connect: everything but Settled leads everywhere but back to Queued. */
  lemma ReachesIff(from: Status, to: Status)
    ensures Reaches(from, to) <==> from == to || (from != Settled && to != Queued)
  {
    forall visited | LegalWalk(from, visited) && WalkEnd(from, visited) == to
      ensures from == to || (from != Settled && to != Queued)
    {
      NoWalkReentersQueued(from, visited);
    }
    if from == to {
      assert LegalWalk(from, []) && WalkEnd(from, []) == to;
    } else if from.CanTransitionTo(to) {
      WalkOfOne(from, to);
    } else if from != Settled && to != Queued {
      WalkOfTwo(from, if to == Propagating then Failed else Propagating, to);
    }
  }

  /** A payment that is queued or has failed is settled or disputed only after a hand-over to the mesh. */
  lemma {:induction false} NothingSettlesUndispatched(from: Status, visited: seq<Status>)
    requires LegalWalk(from, visited) && (from == Queued || from == Failed)
    requires Settled in visited || Disputed in visited
    ensures Propagating in visited
    decreases |visited|
  {
    assert visited == [visited[0]] + visited[1..];
    if visited[0] != Propagating {
      NothingSettlesUndispatched(visited[0], visited[1..]);
    }
  }

  /** The table read by its targets: a hand-over from Queued or Failed, a failure from anything open, a
      settlement after a hand-over or a dispute, a dispute of what propagates, and nothing back to Queued. */
  lemma LegalTargets(from: Status)
    ensures from.CanTransitionTo(Propagating) <==> from == Queued || from == Failed
    ensures from.CanTransitionTo(Failed) <==> from == Queued || from == Propagating || from == Disputed
    ensures from.CanTransitionTo(Settled) <==> from == Propagating || from == Disputed
    ensures from.CanTransitionTo(Disputed) <==> from == Propagating
    ensures !from.CanTransitionTo(Queued)
  {
  }

  /** A transition succeeds for a tracked id with a legal step, and then moves this id alone. */
  lemma TransitionEffect(statuses: Statuses, id: Id, next: Status)
    ensures var r := Transition(statuses, id, next);
      (r.Ok? <==> id in statuses && statuses[id].CanTransitionTo(next)) &&
      (id !in statuses ==> r == Err(EnvelopeNotFound(id))) &&
      (id in statuses && r.Err? ==> r == Err(InvalidStateTransition(statuses[id], next))) &&
      (r.Ok? ==>
         r.value.Keys == statuses.Keys && r.value[id] == next &&
         forall other :: other in statuses && other != id ==> r.value[other] == statuses[other])
  {
  }
}
