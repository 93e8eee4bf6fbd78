/** How the stored statuses move: along legal transitions, as long as settlement is marked only for
    payments that have left the queue. */
module EngineStatuses {
  import opened Wrappers
  import opened Settlement
  import opened SequenceReservation
  import opened PriorityOrder
  import opened StorageDb
  import opened EngineMachine
  import opened EngineRehydration

  predicate MovesLegally(from: StatusText, to: StatusText) {
    from == to || (from.Named? && to.Named? && from.status.CanTransitionTo(to.status))
  }

  /** No stored payment disappears, and each keeps its status or makes one legal transition. */
  ghost predicate StatusesMoveLegally(t: Tables, t': Tables) {
    forall id :: id in t.envelopes ==>
      id in t.statuses && id in t'.envelopes && id in t'.statuses && MovesLegally(t.statuses[id], t'.statuses[id])
  }

  lemma WriteMovesLegallyIff(t: Tables, id: Id, next: Status)
    requires TablesSound(t) && id in t.envelopes
    ensures StatusesMoveLegally(t, WriteStatus(t, id, next)) <==> MovesLegally(t.statuses[id], Named(next))
  {
  }

  /** The dispatch marker overwrites whatever is stored. It makes a legal move if and only if the payment
      is not settled or disputed by then. */
  lemma DispatchMovesLegallyIff(s: Sys, top: QueuedTx)
    requires DispatchSound(s) && s.phase.Idle? && IsTop(s.live.queue, top)
    ensures top.envelope.messageId in s.tables.statuses
    ensures StatusesMoveLegally(s.tables, Apply(s, BeginDispatch(top, true)).tables) <==>
            s.tables.statuses[top.envelope.messageId] !in {Named(Settled), Named(Disputed)}
  {
    assert QueueItemSound(s, top);
    BeginDispatchResult(s, top);
    WriteMovesLegallyIff(s.tables, top.envelope.messageId, Propagating);
  }

  /** A payment marked Propagating and then Settled while it is still in the queue: the next dispatch takes
      it from Settled back to Propagating in storage and hands the settled payment out. */
  lemma MarkedInQueueIsHandedOutSettled(s: Sys, top: QueuedTx, at: nat)
    requires Rehydratable(s) && s.phase.Idle? && IsTop(s.live.queue, top)
    ensures var id := top.envelope.messageId;
      var settled := Run(Run(s, MarkSettlement(id, Propagating, at, true)), MarkSettlement(id, Settled, at, true));
      var after := Run(settled, [BeginDispatch(top, true), FinishDispatch]);
      id in settled.tables.statuses && settled.tables.statuses[id] == Named(Settled) &&
      id in after.tables.statuses && after.tables.statuses[id] == Named(Propagating) && id in after.dispatched
  {
    var id := top.envelope.messageId;
    QueuedIsTracked(s, top);
    MarkSettlementSteps(s, id, Propagating, at, true, true, true);
    var propagating := Run(s, MarkSettlement(id, Propagating, at, true));
    MarkSettlementSteps(propagating, id, Settled, at, true, true, true);
    var settled := Run(propagating, MarkSettlement(id, Settled, at, true));
    DispatchResult(settled, top);
  }

  /** An empty database, just opened. */
  const OPENED: Sys := Sys(EMPTY, BLANK, Idle, [], map[])

  lemma OpenedFromInit()
    ensures Apply(INIT, Reopen(true)) == OPENED && Rehydratable(OPENED)
  {
    assert StillQueued(EMPTY) == {};
    assert Rehydrate(EMPTY) == BLANK;
  }

  function FirstPayment(account: Account, envelope: Envelope, priority: TxPriority, at: nat): Action {
    BeginQueue(account, Some((account, 1)), envelope, priority, at)
  }

  lemma FirstPaymentSigned(account: Account, envelope: Envelope, priority: TxPriority, at: nat)
    ensures Apply(OPENED, FirstPayment(account, envelope, priority, at)) ==
      OPENED.(live := BLANK.(book := Book(map[account := 0], map[account := 1])),
              phase := Reserved(Row(envelope, account, 1, priority, at)))
  {
  }

  lemma StoreAndFinish(s: Sys, row: Row)
    requires s.phase == Reserved(row) && s.live.queue == multiset{} && row.envelope.messageId !in s.tables.envelopes
    ensures var s' := Apply(Apply(s, StoreRow(true)), FinishQueue);
      s'.phase.Idle? && s'.live.queue == multiset{ToQueued(row)} && (Rehydratable(s) ==> Rehydratable(s'))
  {
    if Rehydratable(s) {
      StepKeepsRehydratable(s, StoreRow(true));
      StepKeepsRehydratable(Apply(s, StoreRow(true)), FinishQueue);
    }
  }

  /** Opening an empty database and queueing the first payment of an account. */
  function FirstPaymentRun(account: Account, envelope: Envelope, priority: TxPriority, at: nat): seq<Action> {
    [Reopen(true), FirstPayment(account, envelope, priority, at), StoreRow(true), FinishQueue]
  }

  lemma FirstPaymentIsQueued(account: Account, envelope: Envelope, priority: TxPriority, at: nat)
    ensures var s := Run(INIT, FirstPaymentRun(account, envelope, priority, at));
      Rehydratable(s) && s.phase.Idle? && IsTop(s.live.queue, QueuedTx(priority, at, envelope))
  {
    var begin := FirstPayment(account, envelope, priority, at);
    OpenedFromInit();
    FirstPaymentSigned(account, envelope, priority, at);
    StepKeepsRehydratable(OPENED, begin);
    StoreAndFinish(Apply(OPENED, begin), Row(envelope, account, 1, priority, at));
    assert FirstPaymentRun(account, envelope, priority, at)[1..] == [begin, StoreRow(true), FinishQueue];
    RunOf3(OPENED, begin, StoreRow(true), FinishQueue);
  }

  /** So from an empty database, for every payment: queue it, mark it Propagating, mark it Settled, dispatch. */
  lemma SettledPaymentIsHandedOut(account: Account, envelope: Envelope, priority: TxPriority, at: nat)
    ensures var id, top := envelope.messageId, QueuedTx(priority, at, envelope);
      var s := Run(INIT, FirstPaymentRun(account, envelope, priority, at));
      var settled := Run(Run(s, MarkSettlement(id, Propagating, at, true)), MarkSettlement(id, Settled, at, true));
      var after := Run(settled, [BeginDispatch(top, true), FinishDispatch]);
      id in settled.tables.statuses && settled.tables.statuses[id] == Named(Settled) &&
      id in after.tables.statuses && after.tables.statuses[id] == Named(Propagating) && id in after.dispatched
  {
    FirstPaymentIsQueued(account, envelope, priority, at);
    MarkedInQueueIsHandedOutSettled(
      Run(INIT, FirstPaymentRun(account, envelope, priority, at)), QueuedTx(priority, at, envelope), at);
  }

  lemma QueuedIsTracked(s: Sys, top: QueuedTx)
    requires Rehydratable(s) && s.phase.Idle? && top in s.live.queue
    ensures var id := top.envelope.messageId; id in s.live.statuses && s.live.statuses[id] == Queued
  {
    assert top in StillQueued(s.tables);
  }

  // ---- Faithful runs ----

  lemma TrackerIsStorage(s: Sys, id: Id)
    requires Rehydratable(s) && s.phase.Idle? && id in s.live.statuses
    ensures id in s.tables.envelopes && s.tables.statuses[id] == Named(s.live.statuses[id])
  {
  }

  lemma DispatchStepMovesLegally(s: Sys, top: QueuedTx, ok: bool)
    requires Rehydratable(s) && s.phase.Idle?
    ensures StatusesMoveLegally(s.tables, Apply(s, BeginDispatch(top, ok)).tables)
  {
    if ok && IsTop(s.live.queue, top) {
      QueuedIsTracked(s, top);
      TrackerIsStorage(s, top.envelope.messageId);
      DispatchMovesLegallyIff(s, top);
    }
  }

  lemma MarkStepMovesLegally(s: Sys, id: Id, next: Status, at: nat, readOk: bool, ok: bool)
    requires Rehydratable(s) && s.phase.Idle?
    ensures StatusesMoveLegally(s.tables, Apply(s, BeginMark(id, next, at, readOk, ok)).tables)
  {
    if ok && Transition(s.live.statuses, id, next).Ok? {
      TrackerIsStorage(s, id);
      BeginMarkResult(s, id, next, at, readOk);
      WriteMovesLegallyIff(s.tables, id, next);
    }
  }

  lemma StoreStepMovesLegally(s: Sys, ok: bool)
    requires DispatchSound(s) && s.phase.Reserved?
    ensures StatusesMoveLegally(s.tables, Apply(s, StoreRow(ok)).tables)
  {
  }

  lemma OtherStepKeepsStatuses(s: Sys, a: Action)
    requires !(s.phase.Idle? && (a.BeginDispatch? || a.BeginMark?)) && !(s.phase.Reserved? && a.StoreRow?)
    ensures var t, t' := s.tables, Apply(s, a).tables; t'.statuses == t.statuses && t'.envelopes == t.envelopes
  {
  }

  /** Every step of a faithful run keeps each stored status or moves it along a legal transition. */
  lemma StepMovesLegally(s: Sys, a: Action)
    requires Rehydratable(s) && Faithful(s, a)
    ensures StatusesMoveLegally(s.tables, Apply(s, a).tables)
  {
    match (s.phase, a)
    case (Idle, BeginDispatch(top, ok)) => DispatchStepMovesLegally(s, top, ok);
    case (Idle, BeginMark(id, next, at, readOk, ok)) => MarkStepMovesLegally(s, id, next, at, readOk, ok);
    case (Reserved(_), StoreRow(ok)) => StoreStepMovesLegally(s, ok);
    case _ => OtherStepKeepsStatuses(s, a);
  }

  lemma LegalMoveReaches(from: Status, mid: Status, to: Status)
    requires MovesLegally(Named(from), Named(mid)) && Reaches(mid, to)
    ensures Reaches(from, to)
  {
    ReachesIff(mid, to);
    ReachesIff(from, to);
  }

  /** Over a whole faithful run a stored status goes only where legal transitions lead. */
  lemma {:induction false} RunMovesLegally(s: Sys, actions: seq<Action>, id: Id)
    requires Rehydratable(s) && Respects(s, actions, Faithful) && id in s.tables.envelopes
    ensures var s' := Run(s, actions);
      id in s.tables.statuses && id in s'.tables.statuses && s.tables.statuses[id].Named? &&
      s'.tables.statuses[id].Named? && Reaches(s.tables.statuses[id].status, s'.tables.statuses[id].status)
    decreases |actions|
  {
    if actions == [] {
      ReachesIff(s.tables.statuses[id].status, s.tables.statuses[id].status);
    } else {
      var next := Apply(s, actions[0]);
      StepMovesLegally(s, actions[0]);
      StepKeepsRehydratable(s, actions[0]);
      RunMovesLegally(next, actions[1..], id);
      LegalMoveReaches(s.tables.statuses[id].status, next.tables.statuses[id].status,
                       Run(s, actions).tables.statuses[id].status);
    }
  }

  /** In every faithful run a stored Settled is final, and nothing stored comes back to Queued. */
  lemma SettledIsFinal(before: seq<Action>, after: seq<Action>, id: Id)
    requires Respects(INIT, before, Faithful) && Respects(Run(INIT, before), after, Faithful)
    requires id in Run(INIT, before).tables.envelopes
    ensures var s := Run(INIT, before); var s' := Run(s, after);
      id in s.tables.statuses && id in s'.tables.statuses &&
      (s.tables.statuses[id] == Named(Settled) ==> s'.tables.statuses[id] == Named(Settled)) &&
      (s.tables.statuses[id] != Named(Queued) ==> s'.tables.statuses[id] != Named(Queued))
  {
    RunKeepsRehydratable(INIT, before);
    var s := Run(INIT, before);
    RunMovesLegally(s, after, id);
    ReachesIff(s.tables.statuses[id].status, Run(s, after).tables.statuses[id].status);
  }
}
