/** The restart-safe driver of src/engine.rs, method by method, proved against `EngineMachine`. */
module SyncEngine {
  import opened Wrappers
  import opened Settlement
  import opened SequenceReservation
  import opened PriorityOrder
  import opened OutboundQueue
  import opened StorageDb
  import opened EnvelopeBuilder
  import opened EngineMachine

  datatype EngineError =
    | Build(buildError: BuildError)
    | Storage
    | Tracker(trackerError: TransitionError)

  /** Rows are stored under the message id of their envelope. */
  ghost predicate Keyed(t: Tables) {
    forall id :: id in t.envelopes ==> t.envelopes[id].envelope.messageId == id
  }

  class SyncEngine {
    const db: SyncEngineDb
    const queue: OutboundTxQueue
    const sequences: SequenceReservationManager
    const settlement: SettlementTracker
    ghost var dispatched: seq<Id>
    ghost var first: map<Account, int>
    /** The states the engine has stood in between two steps of a call, where a crash may strike. */
    ghost var midCall: seq<Sys>

    ghost predicate Valid()
      reads queue
    {
      queue.guard == null && queue.Valid()
    }

    /** The engine as a state of the machine, at some point of a call. */
    ghost function At(phase: Phase): Sys
      reads this, db, queue, sequences, settlement
    {
      Sys(db.tables, Live(queue.heap, sequences.AsBook(), settlement.statuses), phase, dispatched, first)
    }

    /** Between two calls. */
    ghost function Machine(): Sys
      reads this, db, queue, sequences, settlement
    {
      At(Idle)
    }

    constructor (db: SyncEngineDb, queue: OutboundTxQueue, sequences: SequenceReservationManager,
                 settlement: SettlementTracker, ghost dispatched: seq<Id>, ghost first: map<Account, int>)
      ensures this.db == db && this.queue == queue && this.sequences == sequences && this.settlement == settlement
      ensures this.dispatched == dispatched && this.first == first && midCall == []
    {
      this.db, this.queue, this.sequences, this.settlement := db, queue, sequences, settlement;
      this.dispatched, this.first, midCall := dispatched, first, [];
    }

    /** `open`: rebuilds all memory from the tables, rows in any order. */
    static method Open(db: SyncEngineDb, ghost dispatched: seq<Id>, ghost first: map<Account, int>)
      returns (r: Option<SyncEngine>)
      requires Keyed(db.tables)
      ensures r.Some? <==> Readable(db.tables)
      ensures r.Some? <==> forall id :: id in db.tables.envelopes && id in db.tables.statuses ==> db.tables.statuses[id].Named?
      ensures r.Some? ==> fresh(r.value) && fresh(r.value.queue) && fresh(r.value.sequences) && fresh(r.value.settlement)
      ensures r.Some? ==> r.value.Valid() && r.value.db == db
      ensures r.Some? ==> r.value.Machine() == Apply(Sys(db.tables, BLANK, Down, dispatched, first), Reopen(true))
      ensures r.Some? ==> IsRebuilt(db.tables, r.value.queue.heap, r.value.settlement.statuses)
      ensures r.Some? ==> r.value.sequences.reserved == db.tables.reservations &&
                          r.value.sequences.baseline == db.tables.reservations
    {
      var t := db.tables;
      ReadableIff(t);
      var sequences := RehydrateSequences(t);
      var queue := new OutboundTxQueue(null);
      var settlement := new SettlementTracker();
      var ok := RehydrateQueue(t, queue, settlement);
      if !ok {
        return None;
      }
      OpenResult(t, dispatched, first);
      RehydratedIsRebuilt(t);
      var engine := new SyncEngine(db, queue, sequences, settlement, dispatched, first);
      return Some(engine);
    }

    static method RehydrateSequences(t: Tables) returns (sequences: SequenceReservationManager)
      ensures fresh(sequences) && sequences.AsBook() == Book(t.reservations, t.reservations)
    {
      sequences := new SequenceReservationManager();
      var todo := t.reservations.Keys;
      ghost var done: set<Account> := {};
      while todo != {}
        invariant fresh(sequences) && done + todo == t.reservations.Keys && done !! todo
        invariant sequences.AsBook().reserved == map account | account in done :: t.reservations[account]
        invariant sequences.AsBook().baseline == sequences.AsBook().reserved
        decreases todo
      {
        var account :| account in todo;
        sequences.SeedAccount(account, t.reservations[account]);
        done, todo := done + {account}, todo - {account};
      }
      assert done == t.reservations.Keys;
      assert (map account | account in done :: t.reservations[account]) == t.reservations;
    }

    static method RehydrateQueue(t: Tables, queue: OutboundTxQueue, settlement: SettlementTracker) returns (ok: bool)
      requires Keyed(t) && queue.guard == null && queue.Valid()
      requires queue.heap == multiset{} && settlement.statuses == map[]
      modifies queue, settlement
      ensures queue.Valid() && (ok <==> Readable(t))
      ensures ok ==> queue.heap == Rehydrate(t).queue && settlement.statuses == Rehydrate(t).statuses
    {
      var todo := t.envelopes.Keys;
      ghost var done: set<Id> := {};
      NoRowRebuilt(t);
      while todo != {}
        invariant queue.Valid()
        invariant done + todo == t.envelopes.Keys && done !! todo
        invariant RebuiltFrom(t, done, queue.heap, settlement.statuses)
        decreases todo
      {
        var id :| id in todo;
        ok := RehydrateRow(t, done, id, queue, settlement);
        if !ok {
          return;
        }
        done, todo := done + {id}, todo - {id};
      }
      AllRowsRebuilt(t, done, queue.heap, settlement.statuses);
      return true;
    }

    static method RehydrateRow(
      t: Tables, ghost done: set<Id>, id: Id, queue: OutboundTxQueue, settlement: SettlementTracker)
      returns (ok: bool)
      requires Keyed(t) && id in t.envelopes && id !in done && queue.guard == null && queue.Valid()
      requires RebuiltFrom(t, done, queue.heap, settlement.statuses)
      modifies queue, settlement
      ensures queue.Valid() && (ok <==> RowStatus(t, id).Some?)
      ensures ok ==> RebuiltFrom(t, done + {id}, queue.heap, settlement.statuses)
    {
      var row, status := t.envelopes[id], RowStatus(t, id);
      if status.None? {
        return false;
      }
      OneMoreRow(t, done, id, queue.heap, settlement.statuses);
      settlement.Restore(row.envelope.messageId, status.value);
      if status.value == Queued {
        queue.RestoreAt(ToQueued(row));
      }
      return true;
    }

    method SeedAccount(account: Account, n: int, storageOk: bool) returns (ok: bool)
      requires Valid()
      modifies this, db, sequences
      ensures ok <==> storageOk
      ensures Machine() == Run(old(Machine()), [BeginSeed(account, n), FinishSeed(storageOk)])
      ensures midCall == old(midCall) + [Apply(old(Machine()), BeginSeed(account, n))]
      ensures sequences.baseline == old(sequences.baseline)[account := n]
      ensures sequences.reserved == old(sequences.reserved)[account := n]
      ensures db.tables == if ok then old(db.tables).(reservations := old(db.tables).reservations[account := n])
                           else old(db.tables)
    {
      ghost var start := Machine();
      sequences.SeedAccount(account, n);
      midCall := midCall + [At(Seeding(account, n))];
      db.SaveSequenceReservation(account, n, storageOk);
      RunOf2(start, BeginSeed(account, n), FinishSeed(storageOk));
      return storageOk;
    }

    /** The offline part of a payment: an account never seen before starts at 0. */
    method ReserveAndSign(claimed: Account, parsed: Parsed) returns (built: Result<int, BuildError>)
      modifies sequences
      ensures (sequences.AsBook(), built) == BuildAndSign(AutoSeeded(old(sequences.AsBook()), claimed), claimed, parsed)
    {
      if claimed !in sequences.reserved {
        sequences.SeedAccount(claimed, 0);
      }
      built := BuildAndSignEnvelope(sequences, claimed, parsed);
    }

    /** The in-memory part, once the row is stored. */
    method AdmitStored(row: Row)
      requires Valid()
      modifies queue, settlement
      ensures Valid()
      ensures Live(queue.heap, sequences.AsBook(), settlement.statuses) ==
              AfterQueue(old(Live(queue.heap, sequences.AsBook(), settlement.statuses)), row)
    {
      var pushed := queue.PushAt(ToQueued(row));
      assert pushed.Ok?;  // the engine's queue has no guard
      settlement.Track(row.envelope.messageId);
    }

    /** Durable first, then in memory; a failed write gives the reservation back. */
    method StoreAndAdmit(row: Row, storageOk: bool) returns (ok: bool)
      requires Valid()
      modifies this, db, queue, sequences, settlement
      ensures Valid() && ok == storageOk && Machine() == PaymentStored(old(Machine()), row, storageOk)
      ensures midCall == old(midCall) + StoreMidStates(old(Machine()), row, storageOk)
    {
      ghost var start, before := Machine(), midCall;
      midCall := midCall + [At(Reserved(row))];
      db.Enqueue(row, storageOk);
      if !storageOk {
        var _ := sequences.ReleaseFor(row.account, row.sequence);
        return false;
      }
      first := if row.account in first then first else first[row.account := row.sequence - 1];
      midCall := midCall + [At(Stored(row))];
      AppendOne(before, start.(phase := Reserved(row)), [ApplyStoreRow(start, row, true)]);
      AdmitStored(row);
      return true;
    }

    method QueuePayment(claimed: Account, parsed: Parsed, envelope: Envelope, priority: TxPriority,
                        enqueuedAt: nat, storageOk: bool)
      returns (r: Result<Envelope, EngineError>)
      requires Valid()
      modifies this, db, queue, sequences, settlement
      ensures Valid()
      ensures Machine() == Run(old(Machine()),
                [BeginQueue(claimed, parsed, envelope, priority, enqueuedAt), StoreRow(storageOk), FinishQueue])
      ensures midCall == old(midCall) +
                PaymentMidStates(old(Machine()), BeginQueue(claimed, parsed, envelope, priority, enqueuedAt), storageOk)
      ensures r.Ok? <==>
                storageOk && BuildAndSign(AutoSeeded(old(sequences.AsBook()), claimed), claimed, parsed).1.Ok?
      ensures r.Ok? ==> r.value == envelope && parsed.Some? && parsed.value.0 == claimed
      ensures r.Ok? ==> parsed.Some? && IsPaid(old(db.tables), db.tables, envelope, claimed, parsed.value.1, priority, enqueuedAt)
      ensures r.Ok? ==> queue.heap == old(queue.heap) + multiset{QueuedTx(priority, enqueuedAt, envelope)}
      ensures r.Ok? ==> settlement.statuses == old(settlement.statuses)[envelope.messageId := Queued]
      ensures r.Err? ==> db.tables == old(db.tables) && queue.heap == old(queue.heap) &&
                         settlement.statuses == old(settlement.statuses)
    {
      BuildReservesIffItSigns(AutoSeeded(sequences.AsBook(), claimed), claimed, parsed);
      ghost var start := Machine();
      ghost var begin := BeginQueue(claimed, parsed, envelope, priority, enqueuedAt);
      QueuePaymentResult(start, begin, storageOk);
      var built := ReserveAndSign(claimed, parsed);
      if built.Err? {
        return Err(Build(built.error));
      }
      var row := Row(envelope, claimed, built.value, priority, enqueuedAt);
      var stored := StoreAndAdmit(row, storageOk);
      return if stored then Ok(envelope) else Err(Storage);
    }

    method NextToDispatch(storageOk: bool) returns (r: Option<Envelope>)
      requires Valid()
      modifies this, db, queue, settlement
      ensures Valid()
      ensures r.Some? <==> storageOk && old(queue.heap) != multiset{}
      ensures r.None? ==> Machine() == old(Machine()) && midCall == old(midCall)
      ensures r.Some? ==> exists top: QueuedTx ::
                Dispatches(old(Machine()), Machine(), top) && top.envelope == r.value &&
                midCall == old(midCall) + [Apply(old(Machine()), BeginDispatch(top, true))] &&
                GoesFirst(old(queue.heap), top) && queue.heap == old(queue.heap) - multiset{top} &&
                db.tables == old(db.tables).(
                  statuses := old(db.tables).statuses[top.envelope.messageId := Named(Propagating)])
    {
      var top := queue.Peek();
      if top.None? {
        return None;
      }
      ghost var start := Machine();
      var id := top.value.envelope.messageId;
      db.PersistDispatchStatus(id, storageOk);
      if !storageOk {
        return None;
      }
      midCall := midCall + [At(Marked(top.value))];
      BeginDispatchResult(start, top.value);
      var popped := queue.Pop();
      var advanced := settlement.ApplyTransition(id, Propagating);
      dispatched := dispatched + [id];
      DispatchResult(start, top.value);
      assert Dispatches(start, Machine(), top.value);
      return Some(popped.value.envelope);
    }

    method MarkSettlement(id: Id, next: Status, at: nat, readOk: bool, statusOk: bool, historyOk: bool)
      returns (r: Result<(), EngineError>)
      requires Valid()
      modifies this, db, settlement
      ensures Machine() == Run(old(Machine()), [BeginMark(id, next, at, readOk, statusOk), LogMark(historyOk), FinishMark])
      ensures midCall == old(midCall) + MarkMidStates(old(Machine()), id, next, at, readOk, statusOk, historyOk)
      ensures r.Ok? <==> Transition(old(settlement.statuses), id, next).Ok? && statusOk && historyOk
      ensures r.Ok? ==> settlement.statuses == old(settlement.statuses)[id := next]
      ensures r.Err? ==> settlement.statuses == old(settlement.statuses)
      ensures r.Ok? ==> db.tables == old(db.tables).(
                statuses := old(db.tables).statuses[id := Named(next)],
                history := old(db.tables).history +
                  [HistoryRow(id, if readOk && id in old(db.tables).statuses then old(db.tables).statuses[id]
                                  else Foreign(""), Named(next), at)])
    {
      ghost var start := Machine();
      MarkSettlementSteps(start, id, next, at, readOk, statusOk, historyOk);
      if id !in settlement.statuses {
        return Err(Tracker(EnvelopeNotFound(id)));
      }
      var current := settlement.statuses[id];
      if !current.CanTransitionTo(next) {
        return Err(Tracker(InvalidStateTransition(current, next)));
      }
      ghost var before := midCall;
      ghost var between: Tables;
      var stored: bool;
      stored, between := db.SetSettlementStatus(id, next, at, readOk, statusOk, historyOk);
      BeginMarkResult(start, id, next, at, readOk);
      if statusOk {
        midCall := midCall + [At(StatusWritten(id, next, StatusRead(start.tables, id, readOk), at)).(tables := between)];
      }
      if !stored {
        return Err(Storage);
      }
      MarkLogged(start, id, next, at, readOk);
      midCall := midCall + [At(HistoryWritten(id, next))];
      AppendOne(before, Apply(start, BeginMark(id, next, at, readOk, true)),
                [Run(start, [BeginMark(id, next, at, readOk, true), LogMark(true)])]);
      var advanced := settlement.ApplyTransition(id, next);
      return Ok(());
    }
  }

  /** The stored payment: its row, its status, its account's number, and nothing else. */
  ghost predicate IsPaid(t: Tables, t': Tables, envelope: Envelope, account: Account, sequence: int,
                         priority: TxPriority, enqueuedAt: nat) {
    var id := envelope.messageId;
    t' == t.(reservations := t.reservations[account := sequence],
             envelopes := t.envelopes[id := Row(envelope, account, sequence, priority, enqueuedAt)],
             statuses := t.statuses[id := Named(Queued)])
  }

  /** A queue and a tracker that hold what the tables say: every stored payment at its stored status,
      Queued when there is none, and in the queue, once and as it was enqueued, exactly those Queued. */
  ghost predicate IsRebuilt(t: Tables, heap: multiset<QueuedTx>, statuses: Statuses) {
    statuses.Keys == t.envelopes.Keys &&
    (forall id :: id in t.envelopes ==>
       if id in t.statuses then t.statuses[id] == Named(statuses[id]) else statuses[id] == Queued) &&
    (forall q :: heap[q] <= 1) &&
    forall q :: q in heap <==> exists id :: QueuedAs(t, statuses, id, q)
  }

  predicate QueuedAs(t: Tables, statuses: Statuses, id: Id, q: QueuedTx) {
    id in t.envelopes && id in statuses && statuses[id] == Queued &&
    q == QueuedTx(t.envelopes[id].priority, t.envelopes[id].enqueuedAt, t.envelopes[id].envelope)
  }

  lemma ReadableIff(t: Tables)
    ensures Readable(t) <==> forall id :: id in t.envelopes && id in t.statuses ==> t.statuses[id].Named?
  {
    forall id | id in t.envelopes && id in t.statuses ensures RowStatus(t, id).Some? <==> t.statuses[id].Named? {
    }
    if Readable(t) {
      assert forall id :: id in t.envelopes ==> RowStatus(t, id).Some?;
    }
  }

  lemma RehydratedIsRebuilt(t: Tables)
    requires Readable(t)
    ensures IsRebuilt(t, Rehydrate(t).queue, Rehydrate(t).statuses)
  {
    var live := Rehydrate(t);
    forall q ensures q in live.queue <==> exists id :: QueuedAs(t, live.statuses, id, q) {
      if q in StillQueued(t) {
        var id :| id in t.envelopes && RowStatus(t, id) == Some(Queued) && q == ToQueued(t.envelopes[id]);
        assert QueuedAs(t, live.statuses, id, q);
      }
    }
  }

  /** A top element of the queue is taken through the whole dispatch. */
  ghost predicate Dispatches(s: Sys, s': Sys, top: QueuedTx) {
    IsTop(s.live.queue, top) && s' == Run(s, [BeginDispatch(top, true), FinishDispatch])
  }

  ghost function QueuedAmong(t: Tables, ids: set<Id>): set<QueuedTx>
    requires ids <= t.envelopes.Keys
  {
    set id | id in ids && RowStatus(t, id) == Some(Queued) :: ToQueued(t.envelopes[id])
  }

  /** The queue and the tracker hold what the rows read so far give. */
  ghost predicate RebuiltFrom(t: Tables, done: set<Id>, heap: multiset<QueuedTx>, statuses: Statuses) {
    done <= t.envelopes.Keys && (forall id :: id in done ==> RowStatus(t, id).Some?) &&
    statuses == (map id | id in done :: RowStatus(t, id).value) && heap == multiset(QueuedAmong(t, done))
  }

  lemma OneMoreQueued(t: Tables, done: set<Id>, id: Id)
    requires Keyed(t) && done <= t.envelopes.Keys && id in t.envelopes && id !in done
    ensures var item, before, after :=
        ToQueued(t.envelopes[id]), QueuedAmong(t, done), QueuedAmong(t, done + {id});
      multiset(after) ==
        if RowStatus(t, id) == Some(Queued) then multiset(before) + multiset{item} else multiset(before)
  {
    var item, before, after := ToQueued(t.envelopes[id]), QueuedAmong(t, done), QueuedAmong(t, done + {id});
    assert item !in before;
    if RowStatus(t, id) == Some(Queued) {
      assert after == before + {item};
    } else {
      assert after == before;
    }
  }

  lemma OneMoreRow(t: Tables, done: set<Id>, id: Id, heap: multiset<QueuedTx>, statuses: Statuses)
    requires Keyed(t) && RebuiltFrom(t, done, heap, statuses)
    requires id in t.envelopes && id !in done && RowStatus(t, id).Some?
    ensures var status := RowStatus(t, id).value;
      RebuiltFrom(t, done + {id},
        if status == Queued then heap + multiset{ToQueued(t.envelopes[id])} else heap, statuses[id := status])
  {
    OneMoreQueued(t, done, id);
  }

  lemma NoRowRebuilt(t: Tables)
    ensures RebuiltFrom(t, {}, multiset{}, map[])
  {
    assert QueuedAmong(t, {}) == {};
  }

  lemma AllRowsRebuilt(t: Tables, done: set<Id>, heap: multiset<QueuedTx>, statuses: Statuses)
    requires RebuiltFrom(t, done, heap, statuses) && done == t.envelopes.Keys
    ensures Readable(t) && heap == Rehydrate(t).queue && statuses == Rehydrate(t).statuses
  {
    assert QueuedAmong(t, done) == StillQueued(t);
  }

  lemma OpenResult(t: Tables, dispatched: seq<Id>, first: map<Account, int>)
    requires Readable(t)
    ensures Apply(Sys(t, BLANK, Down, dispatched, first), Reopen(true)) == Sys(t, Rehydrate(t), Idle, dispatched, first)
  {
  }

  /** A signed payment brought to storage and into memory, or given up. */
  function PaymentStored(s: Sys, row: Row, storageOk: bool): Sys {
    if storageOk then
      s.(tables := EnqueueTransaction(s.tables, row), live := AfterQueue(s.live, row),
         first := if row.account in s.first then s.first else s.first[row.account := row.sequence - 1])
    else s.(live := s.live.(book := Released(s.live.book, row)))
  }

  /** Status stored, then history stored; none when the transition is illegal or the status write fails. */
  function MarkMidStates(s: Sys, id: Id, next: Status, at: nat, readOk: bool, statusOk: bool, historyOk: bool): seq<Sys> {
    if Transition(s.live.statuses, id, next).Err? || !statusOk then []
    else
      [Apply(s, BeginMark(id, next, at, readOk, true))] +
      if historyOk then [Run(s, [BeginMark(id, next, at, readOk, true), LogMark(true)])] else []
  }

  /** Signed and not stored, then stored and not admitted. */
  function StoreMidStates(s: Sys, row: Row, storageOk: bool): seq<Sys> {
    [s.(phase := Reserved(row))] + if storageOk then [ApplyStoreRow(s, row, true)] else []
  }

  /** The states a payment stands in between its steps; none when nothing gets signed. */
  function PaymentMidStates(s: Sys, begin: Action, storageOk: bool): seq<Sys>
    requires begin.BeginQueue?
  {
    var begun := ApplyBeginQueue(s, begin);
    match begun.phase
    case Reserved(row) => StoreMidStates(begun, row, storageOk)
    case _ => []
  }

  /** What the three steps of a payment come to, and the states in between. */
  lemma QueuePaymentResult(s: Sys, begin: Action, storageOk: bool)
    requires s.phase.Idle? && begin.BeginQueue?
    ensures var (book, result) := BuildAndSign(AutoSeeded(s.live.book, begin.claimed), begin.claimed, begin.parsed);
      var reserved := s.(live := s.live.(book := book));
      var s', mid := Run(s, [begin, StoreRow(storageOk), FinishQueue]), PaymentMidStates(s, begin, storageOk);
      match result
      case Err(_) => s' == reserved && mid == []
      case Ok(sequence) =>
        var row := Row(begin.envelope, begin.claimed, sequence, begin.priority, begin.enqueuedAt);
        s' == PaymentStored(reserved, row, storageOk) && mid == StoreMidStates(reserved, row, storageOk)
  {
    RunOf3(s, begin, StoreRow(storageOk), FinishQueue);
  }
}
