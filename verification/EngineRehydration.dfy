/** The crash-consistency contract of `SyncEngine`: `open` rebuilds what the completed calls left. */
module EngineRehydration {
  import opened Wrappers
  import opened Settlement
  import opened SequenceReservation
  import opened PriorityOrder
  import opened StorageDb
  import opened EnvelopeBuilder
  import opened EngineMachine

  /** `open` on these tables gives this tracker, this queue, and this reserved number for every
      account with a durable row. */
  ghost predicate Agrees(t: Tables, live: Live) {
    Readable(t) && Rehydrate(t).queue == live.queue && Rehydrate(t).statuses == live.statuses &&
    forall account :: account in t.reservations ==>
      account in live.book.reserved && live.book.reserved[account] == t.reservations[account]
  }

  /** The memory the call in progress ends with: completed once its durable write is done, rolled
      back before that. */
  function Completed(s: Sys): Live {
    match s.phase
    case Reserved(row) => s.live.(book := Released(s.live.book, row))
    case Stored(row) => AfterQueue(s.live, row)
    case Marked(item) => AfterDispatch(s.live, item)
    case StatusWritten(id, next, _, _) => AfterMark(s.live, id, next)
    case HistoryWritten(id, next) => AfterMark(s.live, id, next)
    case _ => s.live
  }

  /** The tables it ends with: only seed_account changes memory before storage. */
  function CompletedTables(s: Sys): Tables {
    match s.phase
    case Seeding(account, n) => SaveReservation(s.tables, account, n)
    case _ => s.tables
  }

  /** Fresh ids; seeds and history rows reach storage; settlement is only marked for envelopes that
      have left the in-memory queue. */
  predicate Faithful(s: Sys, a: Action) {
    Fresh(s, a) && (a.FinishSeed? || a.LogMark? ==> a.ok) &&
    (a.BeginMark? ==> !InQueue(s.live.queue, a.id))
  }

  ghost predicate CallAgrees(s: Sys) {
    (!s.phase.Down? ==> Agrees(CompletedTables(s), Completed(s))) &&
    (s.phase.Reserved? ==>
       s.phase.row.account in s.live.book.reserved &&
       s.live.book.reserved[s.phase.row.account] == s.phase.row.sequence)
  }

  ghost predicate Rehydratable(s: Sys) {
    DispatchSound(s) && CallAgrees(s)
  }

  // ---- How the durable queue changes ----

  lemma EnqueueAddsToQueue(t: Tables, row: Row)
    requires row.envelope.messageId !in t.envelopes && TablesSound(t)
    ensures multiset(StillQueued(EnqueueTransaction(t, row))) == multiset(StillQueued(t)) + multiset{ToQueued(row)}
  {
    var t' := EnqueueTransaction(t, row);
    var id := row.envelope.messageId;
    forall q ensures q in StillQueued(t') <==> q in StillQueued(t) || q == ToQueued(row) {
      if q in StillQueued(t) {
        var i :| i in t.envelopes && RowStatus(t, i) == Some(Queued) && q == ToQueued(t.envelopes[i]);
        assert i in t'.envelopes && RowStatus(t', i) == Some(Queued) && q == ToQueued(t'.envelopes[i]);
      }
      assert id in t'.envelopes && RowStatus(t', id) == Some(Queued);
    }
    assert ToQueued(row) !in StillQueued(t);
    assert StillQueued(t') == StillQueued(t) + {ToQueued(row)};
  }

  lemma WriteStatusRemovesFromQueue(t: Tables, id: Id, next: Status)
    requires TablesSound(t) && id in t.envelopes && next != Queued
    ensures StillQueued(WriteStatus(t, id, next)) == StillQueued(t) - {ToQueued(t.envelopes[id])}
  {
    var t' := WriteStatus(t, id, next);
    var item := ToQueued(t.envelopes[id]);
    forall q ensures q in StillQueued(t') <==> q in StillQueued(t) && q != item {
      if q in StillQueued(t) && q != item {
        var i :| i in t.envelopes && RowStatus(t, i) == Some(Queued) && q == ToQueued(t.envelopes[i]);
        assert i in t'.envelopes && RowStatus(t', i) == Some(Queued) && q == ToQueued(t'.envelopes[i]);
      }
    }
  }

  // ---- Every step keeps the contract ----

  lemma BeginQueueKeepsAgreement(s: Sys, a: Action)
    requires CallAgrees(s) && s.phase.Idle? && a.BeginQueue?
    ensures CallAgrees(Apply(s, a))
  {
    BuildReservesIffItSigns(AutoSeeded(s.live.book, a.claimed), a.claimed, a.parsed);
  }

  lemma EnqueueAgrees(t: Tables, live: Live, row: Row)
    requires TablesSound(t) && row.envelope.messageId !in t.envelopes
    requires Agrees(t, live.(book := Released(live.book, row)))
    requires row.account in live.book.reserved && live.book.reserved[row.account] == row.sequence
    ensures Agrees(EnqueueTransaction(t, row), AfterQueue(live, row))
  {
    var t' := EnqueueTransaction(t, row);
    EnqueueAddsToQueue(t, row);
    assert Rehydrate(t').statuses == Rehydrate(t).statuses[row.envelope.messageId := Queued];
  }

  lemma StoreRowKeepsAgreement(s: Sys, ok: bool)
    requires TablesSound(s.tables) && CallAgrees(s)
    requires s.phase.Reserved? && s.phase.row.envelope.messageId !in s.tables.envelopes
    ensures CallAgrees(Apply(s, StoreRow(ok)))
  {
    if ok {
      EnqueueAgrees(s.tables, s.live, s.phase.row);
    }
  }

  /** Writing a legal next status for a tracked envelope is what the tracker's transition does. */
  lemma WriteStatusAdvances(t: Tables, live: Live, id: Id, next: Status)
    requires TablesSound(t) && Agrees(t, live) && Transition(live.statuses, id, next).Ok?
    ensures var t' := WriteStatus(t, id, next);
      id in t.envelopes && Readable(t') && Rehydrate(t').statuses == Advance(live.statuses, id, next) &&
      Rehydrate(t').queue == multiset(StillQueued(t) - {ToQueued(t.envelopes[id])})
  {
    WriteStatusRemovesFromQueue(t, id, next);
    assert Rehydrate(WriteStatus(t, id, next)).statuses == live.statuses[id := next];
  }

  /** With the queue left alone, storage and memory agree afterwards exactly when the envelope was not
      in the queue. */
  lemma WriteStatusAgreesIffDequeued(t: Tables, live: Live, id: Id, next: Status)
    requires TablesSound(t) && Agrees(t, live) && Transition(live.statuses, id, next).Ok?
    ensures id in t.envelopes
    ensures Agrees(WriteStatus(t, id, next), AfterMark(live, id, next)) <==>
            ToQueued(t.envelopes[id]) !in live.queue
  {
    WriteStatusAdvances(t, live, id, next);
    var item, queued := ToQueued(t.envelopes[id]), StillQueued(t);
    assert live.queue == multiset(queued);
    if item in queued {
      assert item in multiset(queued) && item !in multiset(queued - {item});
    } else {
      assert queued - {item} == queued;
    }
  }

  /** An id is in the live queue exactly when its row's item is. */
  lemma QueuedById(t: Tables, live: Live, id: Id)
    requires TablesSound(t) && Agrees(t, live) && id in t.envelopes
    ensures InQueue(live.queue, id) <==> ToQueued(t.envelopes[id]) in live.queue
  {
    assert ToQueued(t.envelopes[id]).envelope.messageId == id;
    forall q | q in live.queue && q.envelope.messageId == id ensures q == ToQueued(t.envelopes[id]) {
      assert q in StillQueued(t);
    }
  }

  /** Agreement does not look at the history, nor at a new row of reservations that memory has. */
  lemma AgreementIgnoresHistory(t: Tables, row: HistoryRow, live: Live)
    requires Readable(t)
    ensures Readable(WriteHistory(t, row)) && (Agrees(WriteHistory(t, row), live) <==> Agrees(t, live))
  {
    var t' := WriteHistory(t, row);
    assert forall id :: id in t.envelopes ==> RowStatus(t', id) == RowStatus(t, id);
    assert StillQueued(t') == StillQueued(t);
    assert Rehydrate(t').statuses == Rehydrate(t).statuses;
  }

  lemma SeedingAgrees(t: Tables, live: Live, account: Account, n: int)
    requires Agrees(t, live)
    ensures Agrees(SaveReservation(t, account, n), live.(book := Seed(live.book, account, n)))
  {
    var t' := SaveReservation(t, account, n);
    assert forall id :: id in t.envelopes ==> RowStatus(t', id) == RowStatus(t, id);
    assert StillQueued(t') == StillQueued(t);
    assert Rehydrate(t').statuses == Rehydrate(t).statuses;
  }

  /** The dispatch marker takes out of the durable queue what the pop takes out of the live one. */
  lemma MarkerAgreesWithPop(t: Tables, live: Live, top: QueuedTx)
    requires TablesSound(t) && Agrees(t, live) && top in live.queue
    ensures Agrees(WriteStatus(t, top.envelope.messageId, Propagating), AfterDispatch(live, top))
  {
    var queued := StillQueued(t);
    assert top in queued;
    var id :| id in t.envelopes && RowStatus(t, id) == Some(Queued) && top == ToQueued(t.envelopes[id]);
    assert id == top.envelope.messageId && live.statuses[id] == Queued;
    WriteStatusAdvances(t, live, id, Propagating);
    assert multiset(queued - {top}) == multiset(queued) - multiset{top};
  }

  lemma MarkedAgrees(s: Sys, top: QueuedTx)
    requires TablesSound(s.tables) && CallAgrees(s) && s.phase.Idle? && top in s.live.queue
    ensures CallAgrees(
              s.(tables := WriteStatus(s.tables, top.envelope.messageId, Propagating), phase := Marked(top)))
  {
    MarkerAgreesWithPop(s.tables, s.live, top);
  }

  lemma BeginDispatchKeepsAgreement(s: Sys, top: QueuedTx, ok: bool)
    requires TablesSound(s.tables) && CallAgrees(s) && s.phase.Idle?
    ensures CallAgrees(Apply(s, BeginDispatch(top, ok)))
  {
    if ok && IsTop(s.live.queue, top) {
      MarkedAgrees(s, top);
      BeginDispatchResult(s, top);
    } else {
      assert Apply(s, BeginDispatch(top, ok)) == s;
    }
  }

  lemma UnqueuedMarkAgrees(t: Tables, live: Live, id: Id, next: Status)
    requires TablesSound(t) && Agrees(t, live) && Transition(live.statuses, id, next).Ok? && !InQueue(live.queue, id)
    ensures Agrees(WriteStatus(t, id, next), AfterMark(live, id, next))
  {
    WriteStatusAgreesIffDequeued(t, live, id, next);
    QueuedById(t, live, id);
  }

  lemma BeginMarkKeepsAgreement(s: Sys, id: Id, next: Status, at: nat, readOk: bool, ok: bool)
    requires TablesSound(s.tables) && CallAgrees(s) && s.phase.Idle? && !InQueue(s.live.queue, id)
    ensures CallAgrees(Apply(s, BeginMark(id, next, at, readOk, ok)))
  {
    if ok && Transition(s.live.statuses, id, next).Ok? {
      UnqueuedMarkAgrees(s.tables, s.live, id, next);
      BeginMarkResult(s, id, next, at, readOk);
    }
  }

  lemma LogMarkKeepsAgreement(s: Sys)
    requires CallAgrees(s) && s.phase.StatusWritten?
    ensures CallAgrees(Apply(s, LogMark(true)))
  {
    var row := HistoryRow(s.phase.id, s.phase.from, Named(s.phase.next), s.phase.at);
    AgreementIgnoresHistory(s.tables, row, Completed(s));
  }

  /** The last memory update of a call is what `Completed` already counted. */
  lemma FinishKeepsAgreement(s: Sys)
    requires CallAgrees(s)
    ensures s.phase.Stored? ==> CallAgrees(Apply(s, FinishQueue))
    ensures s.phase.Marked? ==> CallAgrees(Apply(s, FinishDispatch))
    ensures s.phase.HistoryWritten? ==> CallAgrees(Apply(s, FinishMark))
    ensures s.phase.Seeding? ==> CallAgrees(Apply(s, FinishSeed(true)))
  {
  }

  lemma BeginSeedKeepsAgreement(s: Sys, account: Account, n: int)
    requires CallAgrees(s) && s.phase.Idle?
    ensures CallAgrees(Apply(s, BeginSeed(account, n)))
  {
    SeedingAgrees(s.tables, s.live, account, n);
  }

  lemma RehydratedAgrees(t: Tables)
    requires Readable(t)
    ensures Agrees(t, Rehydrate(t))
  {
  }

  lemma ReopenKeepsAgreement(s: Sys, ok: bool)
    requires CallAgrees(s) && s.phase.Down?
    ensures CallAgrees(Apply(s, Reopen(ok)))
  {
    if ok && Readable(s.tables) {
      RehydratedAgrees(s.tables);
    }
  }

  lemma DurableStepKeepsAgreement(s: Sys, a: Action)
    requires Rehydratable(s) && Faithful(s, a)
    requires a.StoreRow? || a.BeginDispatch? || a.BeginMark? || a.LogMark? || a.FinishSeed? || a.Reopen?
    ensures CallAgrees(Apply(s, a))
  {
    match (s.phase, a)
    case (Reserved(_), StoreRow(ok)) => StoreRowKeepsAgreement(s, ok);
    case (Idle, BeginDispatch(top, ok)) => BeginDispatchKeepsAgreement(s, top, ok);
    case (Idle, BeginMark(id, next, at, readOk, ok)) => BeginMarkKeepsAgreement(s, id, next, at, readOk, ok);
    case (StatusWritten(_, _, _, _), LogMark(_)) => LogMarkKeepsAgreement(s);
    case (Seeding(_, _), FinishSeed(_)) => FinishKeepsAgreement(s);
    case (Down, Reopen(ok)) => ReopenKeepsAgreement(s, ok);
    case _ =>
  }

  lemma MemoryStepKeepsAgreement(s: Sys, a: Action)
    requires CallAgrees(s)
    requires a.BeginQueue? || a.FinishQueue? || a.FinishDispatch? || a.FinishMark? || a.BeginSeed?
    ensures CallAgrees(Apply(s, a))
  {
    match (s.phase, a)
    case (Idle, BeginQueue(_, _, _, _, _)) => BeginQueueKeepsAgreement(s, a);
    case (Stored(_), FinishQueue) => FinishKeepsAgreement(s);
    case (Marked(_), FinishDispatch) => FinishKeepsAgreement(s);
    case (HistoryWritten(_, _), FinishMark) => FinishKeepsAgreement(s);
    case (Idle, BeginSeed(account, n)) => BeginSeedKeepsAgreement(s, account, n);
    case _ =>
  }

  lemma CrashResult(s: Sys)
    ensures Apply(s, Crash) == s.(live := BLANK, phase := Down)
  {
  }

  lemma StepKeepsAgreement(s: Sys, a: Action)
    requires Rehydratable(s) && Faithful(s, a)
    ensures CallAgrees(Apply(s, a))
  {
    if a.Crash? {
      CrashResult(s);
    } else if a.StoreRow? || a.BeginDispatch? || a.BeginMark? || a.LogMark? || a.FinishSeed? || a.Reopen? {
      DurableStepKeepsAgreement(s, a);
    } else {
      MemoryStepKeepsAgreement(s, a);
    }
  }

  lemma StepKeepsRehydratable(s: Sys, a: Action)
    requires Rehydratable(s) && Faithful(s, a)
    ensures Rehydratable(Apply(s, a))
  {
    StepKeepsDispatchSound(s, a);
    StepKeepsAgreement(s, a);
  }

  lemma {:induction false} RunKeepsRehydratable(s: Sys, actions: seq<Action>)
    requires Rehydratable(s) && Respects(s, actions, Faithful)
    ensures Rehydratable(Run(s, actions))
    decreases |actions|
  {
    if actions != [] {
      StepKeepsRehydratable(s, actions[0]);
      RunKeepsRehydratable(Apply(s, actions[0]), actions[1..]);
    }
  }

  /** In every faithful run, whenever the engine is up, `open` on the tables rebuilds the memory that
      the call in progress ends with: completed, or as if it had never run. Between calls that is
      the live memory itself. */
  lemma OpenRebuildsLiveState(actions: seq<Action>)
    requires Respects(INIT, actions, Faithful) && !Run(INIT, actions).phase.Down?
    ensures var s := Run(INIT, actions);
      Agrees(CompletedTables(s), Completed(s)) && (s.phase.Idle? ==> Agrees(s.tables, s.live))
  {
    RunKeepsRehydratable(INIT, actions);
  }

  // ---- The restrictions are exact ----

  function MarkSettlement(id: Id, next: Status, at: nat, readOk: bool): seq<Action> {
    [BeginMark(id, next, at, readOk, true), LogMark(true), FinishMark]
  }

  /** A successful mark_settlement keeps storage and memory in agreement exactly when its envelope is
      no longer in the queue: the call leaves the queue alone. */
  lemma MarkAgreesIffDequeued(s: Sys, id: Id, next: Status, at: nat, readOk: bool)
    requires Rehydratable(s) && s.phase.Idle? && Transition(s.live.statuses, id, next).Ok?
    ensures var s' := Run(s, MarkSettlement(id, next, at, readOk));
      Agrees(s'.tables, s'.live) <==> !InQueue(s.live.queue, id)
  {
    MarkSettlementSteps(s, id, next, at, readOk, true, true);
    WriteStatusAdvances(s.tables, s.live, id, next);
    WriteStatusAgreesIffDequeued(s.tables, s.live, id, next);
    QueuedById(s.tables, s.live, id);
    var row := HistoryRow(id, StatusRead(s.tables, id, readOk), Named(next), at);
    AgreementIgnoresHistory(WriteStatus(s.tables, id, next), row, AfterMark(s.live, id, next));
  }

  /** A status write whose history row then fails leaves storage ahead of the tracker. */
  lemma LostHistoryRowBreaksAgreement(s: Sys, id: Id, next: Status, at: nat, readOk: bool)
    requires Rehydratable(s) && s.phase.Idle? && Transition(s.live.statuses, id, next).Ok?
    ensures var s' := Run(s, [BeginMark(id, next, at, readOk, true), LogMark(false)]);
      s'.phase.Idle? && !Agrees(s'.tables, s'.live)
  {
    LostHistoryRowResult(s, id, next, at, readOk);
    WriteStatusAdvances(s.tables, s.live, id, next);
    assert Advance(s.live.statuses, id, next)[id] == next != s.live.statuses[id];
  }

  lemma LostHistoryRowResult(s: Sys, id: Id, next: Status, at: nat, readOk: bool)
    requires s.phase.Idle? && Transition(s.live.statuses, id, next).Ok?
    ensures Run(s, [BeginMark(id, next, at, readOk, true), LogMark(false)]) == s.(tables := WriteStatus(s.tables, id, next))
  {
    RunOf2(s, BeginMark(id, next, at, readOk, true), LogMark(false));
  }

  /** A seed that fails to reach storage keeps agreement exactly when the account has no durable row
      or already stands at that number. */
  lemma FailedSeedAgreesIffHarmless(s: Sys, account: Account, n: int)
    requires Rehydratable(s) && s.phase.Idle?
    ensures var s' := Run(s, [BeginSeed(account, n), FinishSeed(false)]);
      Agrees(s'.tables, s'.live) <==>
      (account in s.tables.reservations ==> s.tables.reservations[account] == n)
  {
    FailedSeedResult(s, account, n);
    MemorySeedAgreesIff(s.tables, s.live, account, n);
  }

  lemma FailedSeedResult(s: Sys, account: Account, n: int)
    requires s.phase.Idle?
    ensures Run(s, [BeginSeed(account, n), FinishSeed(false)]) ==
            s.(live := s.live.(book := Seed(s.live.book, account, n)))
  {
    RunOf2(s, BeginSeed(account, n), FinishSeed(false));
  }

  lemma MemorySeedAgreesIff(t: Tables, live: Live, account: Account, n: int)
    requires Agrees(t, live)
    ensures Agrees(t, live.(book := Seed(live.book, account, n))) <==>
            (account in t.reservations ==> t.reservations[account] == n)
  {
  }
}
