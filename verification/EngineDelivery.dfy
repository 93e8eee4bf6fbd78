/** What at-most-once dispatch costs: the one crash window in which a payment is never handed over. */
module EngineDelivery {
  import opened Wrappers
  import opened Settlement
  import opened EngineMachine

  // ---- Outside that window nothing is lost ----

  /** No crash between the dispatch marker and the hand-over; settlement is marked only for payments
      that were handed over. */
  predicate Careful(s: Sys, a: Action) {
    Fresh(s, a) && (a.Crash? ==> !s.phase.Marked?) && (a.BeginMark? ==> a.id in s.dispatched)
  }

  /** Handed over, still Queued in storage, or on its way out. */
  predicate Accounted(s: Sys, id: Id) {
    id in s.dispatched || (id in s.tables.statuses && s.tables.statuses[id] == Named(Queued)) ||
    (s.phase.Marked? && s.phase.item.envelope.messageId == id)
  }

  ghost predicate NothingLost(s: Sys) {
    forall id :: id in s.tables.envelopes ==> Accounted(s, id)
  }

  lemma QueueStepsLoseNothing(s: Sys, a: Action)
    requires DispatchSound(s) && NothingLost(s)
    requires a.BeginQueue? || a.StoreRow? || a.FinishQueue? || a.BeginSeed? || a.FinishSeed? || a.Reopen?
    ensures NothingLost(Apply(s, a))
  {
    var s' := Apply(s, a);
    forall id | id in s'.tables.envelopes ensures Accounted(s', id) {
      assert id in s.tables.envelopes ==> Accounted(s, id);
    }
  }

  lemma StatusStepsLoseNothing(s: Sys, a: Action)
    requires DispatchSound(s) && NothingLost(s) && Careful(s, a)
    requires a.BeginDispatch? || a.FinishDispatch? || a.BeginMark? || a.LogMark? || a.FinishMark? || a.Crash?
    ensures NothingLost(Apply(s, a))
  {
    var s' := Apply(s, a);
    forall id | id in s'.tables.envelopes ensures Accounted(s', id) {
      assert Accounted(s, id);
    }
  }

  lemma {:induction false} CarefulRunLosesNothing(s: Sys, actions: seq<Action>)
    requires DispatchSound(s) && NothingLost(s) && Respects(s, actions, Careful)
    ensures DispatchSound(Run(s, actions)) && NothingLost(Run(s, actions))
    decreases |actions|
  {
    if actions != [] {
      var a := actions[0];
      StepKeepsDispatchSound(s, a);
      if a.BeginDispatch? || a.FinishDispatch? || a.BeginMark? || a.LogMark? || a.FinishMark? || a.Crash? {
        StatusStepsLoseNothing(s, a);
      } else {
        QueueStepsLoseNothing(s, a);
      }
      CarefulRunLosesNothing(Apply(s, a), actions[1..]);
    }
  }

  /** Exactly once, or not yet: in every careful run each stored payment is either among those handed
      over, once, or still Queued in storage, where every later `open` finds it. */
  lemma HandedOverOnceOrStillQueued(actions: seq<Action>, id: Id)
    requires Respects(INIT, actions, Careful) && id in Run(INIT, actions).tables.envelopes
    requires !Run(INIT, actions).phase.Marked?
    ensures var s := Run(INIT, actions);
      Distinct(s.dispatched) && (id !in s.dispatched <==> ToQueued(s.tables.envelopes[id]) in StillQueued(s.tables))
  {
    CarefulRunLosesNothing(INIT, actions);
    var s := Run(INIT, actions);
    assert Accounted(s, id);
    if ToQueued(s.tables.envelopes[id]) in StillQueued(s.tables) {
      var i :| i in s.tables.envelopes && RowStatus(s.tables, i) == Some(Queued) &&
               ToQueued(s.tables.envelopes[id]) == ToQueued(s.tables.envelopes[i]);
      assert i == id;
    }
  }

  // ---- Inside it the payment is lost for good ----

  /** Stored, never handed over, and nothing left that would hand it over. */
  ghost predicate OutOfReach(s: Sys, id: Id) {
    id in s.tables.envelopes && id in s.tables.statuses && s.tables.statuses[id] != Named(Queued) &&
    id !in s.dispatched && !InQueue(s.live.queue, id) &&
    (s.phase.Marked? ==> s.phase.item.envelope.messageId != id) &&
    (s.phase.Stored? ==> s.phase.row.envelope.messageId != id)
  }

  lemma QueueStepsKeepOutOfReach(s: Sys, a: Action, id: Id)
    requires DispatchSound(s) && OutOfReach(s, id) && (a.BeginQueue? || a.StoreRow? || a.FinishQueue?)
    ensures OutOfReach(Apply(s, a), id)
  {
  }

  lemma DispatchStepsKeepOutOfReach(s: Sys, a: Action, id: Id)
    requires OutOfReach(s, id) && (a.BeginDispatch? || a.FinishDispatch? || a.Crash?)
    ensures OutOfReach(Apply(s, a), id)
  {
  }

  lemma SeedAndMarkStepsKeepOutOfReach(s: Sys, a: Action, id: Id)
    requires OutOfReach(s, id)
    requires a.BeginSeed? || a.FinishSeed? || a.BeginMark? || a.LogMark? || a.FinishMark?
    ensures OutOfReach(Apply(s, a), id)
  {
  }

  lemma ReopenKeepsOutOfReach(s: Sys, ok: bool, id: Id)
    requires DispatchSound(s) && OutOfReach(s, id)
    ensures OutOfReach(Apply(s, Reopen(ok)), id)
  {
    var s' := Apply(s, Reopen(ok));
    if s' != s {
      forall q | q in s'.live.queue ensures q.envelope.messageId != id {
        assert q in StillQueued(s.tables);
      }
    }
  }

  lemma {:induction false} NeverHandedOver(s: Sys, actions: seq<Action>, id: Id)
    requires DispatchSound(s) && OutOfReach(s, id) && Respects(s, actions, Fresh)
    ensures OutOfReach(Run(s, actions), id)
    decreases |actions|
  {
    if actions != [] {
      var a := actions[0];
      StepKeepsDispatchSound(s, a);
      if a.Reopen? {
        ReopenKeepsOutOfReach(s, a.ok, id);
      } else if a.BeginDispatch? || a.FinishDispatch? || a.Crash? {
        DispatchStepsKeepOutOfReach(s, a, id);
      } else if a.BeginQueue? || a.StoreRow? || a.FinishQueue? {
        QueueStepsKeepOutOfReach(s, a, id);
      } else {
        SeedAndMarkStepsKeepOutOfReach(s, a, id);
      }
      NeverHandedOver(Apply(s, a), actions[1..], id);
    }
  }

  /** A crash after the marker and before the hand-over: no continuation, however long and however
      often reopened, hands this payment out. */
  lemma CrashAfterMarkerLosesThePayment(s: Sys, actions: seq<Action>)
    requires DispatchSound(s) && s.phase.Marked? && Respects(Apply(s, Crash), actions, Fresh)
    ensures var id := s.phase.item.envelope.messageId; var s' := Run(Apply(s, Crash), actions);
      id in s'.tables.envelopes && id !in s'.dispatched && RowStatus(s'.tables, id) != Some(Queued)
  {
    assert QueueItemSound(s, s.phase.item);
    CrashKeepsDispatchSound(s);
    NeverHandedOver(Apply(s, Crash), actions, s.phase.item.envelope.messageId);
  }

  /** The window is exact: of a sound state in which nothing is lost, a crash loses something if and only
      if it strikes between marker and hand-over. */
  lemma CrashLosesNothingIff(s: Sys)
    requires DispatchSound(s) && NothingLost(s)
    ensures NothingLost(Apply(s, Crash)) <==> !s.phase.Marked?
  {
    var s' := Apply(s, Crash);
    if s.phase.Marked? {
      assert QueueItemSound(s, s.phase.item);
      assert !Accounted(s', s.phase.item.envelope.messageId);
    } else {
      StatusStepsLoseNothing(s, Crash);
    }
  }

  /** `open` never fails on what the engine itself wrote, wherever it was interrupted. */
  lemma OpenNeverFails(actions: seq<Action>)
    requires Respects(INIT, actions, Fresh)
    ensures Readable(Run(INIT, actions).tables)
  {
    RunKeepsDispatchSound(INIT, actions);
  }
}
