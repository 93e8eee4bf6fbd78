/** `SyncEngine` of src/engine.rs as a machine of durable writes, memory updates, storage failures,
    crashes and reopens. Between two durable writes memory changes in one step: a crash discards it. */
module EngineMachine {
  import opened Wrappers
  import opened Settlement
  import opened SequenceReservation
  import opened PriorityOrder
  import opened StorageDb
  import opened EnvelopeBuilder

  /** What is lost in a crash. */
  datatype Live = Live(queue: multiset<QueuedTx>, book: Book, statuses: Statuses)

  const BLANK: Live := Live(multiset{}, Book(map[], map[]), map[])

  // ---- Rehydration ----

  function ToQueued(row: Row): QueuedTx {
    QueuedTx(row.priority, row.enqueuedAt, row.envelope)
  }

  /** `get_settlement_status` with the default of `open`; no status when the column does not parse. */
  function RowStatus(t: Tables, id: Id): Option<Status> {
    if id !in t.statuses then Some(Queued)
    else match t.statuses[id] case Named(status) => Some(status) case Foreign(_) => None
  }

  /** When `open` succeeds. */
  predicate Readable(t: Tables) {
    forall id :: id in t.envelopes ==> RowStatus(t, id).Some?
  }

  function StillQueued(t: Tables): set<QueuedTx> {
    set id | id in t.envelopes && RowStatus(t, id) == Some(Queued) :: ToQueued(t.envelopes[id])
  }

  /** The in-memory state that `open` builds. */
  function Rehydrate(t: Tables): Live
    requires Readable(t)
  {
    Live(multiset(StillQueued(t)), Book(t.reservations, t.reservations),
         map id | id in t.envelopes :: RowStatus(t, id).value)
  }

  // ---- The machine ----

  /** How far the call in progress has come. */
  datatype Phase =
    | Idle
    | Reserved(row: Row)                                    // queue_payment: signed, not stored
    | Stored(row: Row)                                      // queue_payment: stored, not in memory
    | Marked(item: QueuedTx)                                // next_to_dispatch: marker written
    | Seeding(account: Account, n: int)                     // seed_account: memory seeded
    | StatusWritten(id: Id, next: Status, from: StatusText, at: nat)  // mark_settlement: status stored
    | HistoryWritten(id: Id, next: Status)                  // mark_settlement: history stored
    | Down

  /** `dispatched` lists the ids handed to the caller, in order; `first` holds, per account, the
      number before its first stored payment. Both only record what happened. */
  datatype Sys = Sys(tables: Tables, live: Live, phase: Phase, dispatched: seq<Id>, first: map<Account, int>)

  const INIT: Sys := Sys(EMPTY, BLANK, Down, [], map[])

  datatype Action =
    | BeginQueue(claimed: Account, parsed: Parsed, envelope: Envelope, priority: TxPriority, enqueuedAt: nat)
    | StoreRow(ok: bool)
    | FinishQueue
    | BeginDispatch(top: QueuedTx, ok: bool)
    | FinishDispatch
    | BeginSeed(account: Account, n: int)
    | FinishSeed(ok: bool)
    | BeginMark(id: Id, next: Status, at: nat, readOk: bool, ok: bool)
    | LogMark(ok: bool)
    | FinishMark
    | Crash
    | Reopen(ok: bool)

  /** The tracker's transition; an illegal one is logged and changes nothing. */
  function Advance(statuses: Statuses, id: Id, next: Status): Statuses {
    match Transition(statuses, id, next) case Ok(after) => after case Err(_) => statuses
  }

  function Released(book: Book, row: Row): Book {
    match Release(book, row.account, row.sequence) case Ok(b) => b case Err(_) => book
  }

  function AutoSeeded(book: Book, account: Account): Book {
    if account in book.reserved then book else Seed(book, account, 0)
  }

  function ApplyBeginQueue(s: Sys, a: Action): Sys
    requires a.BeginQueue?
  {
    var (book, result) := BuildAndSign(AutoSeeded(s.live.book, a.claimed), a.claimed, a.parsed);
    s.(live := s.live.(book := book),
       phase := match result
                case Ok(sequence) => Reserved(Row(a.envelope, a.claimed, sequence, a.priority, a.enqueuedAt))
                case Err(_) => Idle)
  }

  function ApplyStoreRow(s: Sys, row: Row, ok: bool): Sys {
    if ok then
      s.(tables := EnqueueTransaction(s.tables, row), phase := Stored(row),
         first := if row.account in s.first then s.first else s.first[row.account := row.sequence - 1])
    else s.(live := s.live.(book := Released(s.live.book, row)), phase := Idle)
  }

  function AfterQueue(live: Live, row: Row): Live {
    live.(queue := live.queue + multiset{ToQueued(row)}, statuses := live.statuses[row.envelope.messageId := Queued])
  }

  function AfterDispatch(live: Live, item: QueuedTx): Live {
    live.(queue := live.queue - multiset{item},
          statuses := Advance(live.statuses, item.envelope.messageId, Propagating))
  }

  function AfterMark(live: Live, id: Id, next: Status): Live {
    live.(statuses := Advance(live.statuses, id, next))
  }

  /** One step; an action that does not fit the phase changes nothing. */
  function Apply(s: Sys, a: Action): Sys {
    match (s.phase, a)
    case (Idle, BeginQueue(_, _, _, _, _)) => ApplyBeginQueue(s, a)
    case (Reserved(row), StoreRow(ok)) => ApplyStoreRow(s, row, ok)
    case (Stored(row), FinishQueue) => s.(live := AfterQueue(s.live, row), phase := Idle)
    case (Idle, BeginDispatch(top, ok)) =>
      if ok && IsTop(s.live.queue, top)
      then s.(tables := WriteStatus(s.tables, top.envelope.messageId, Propagating), phase := Marked(top))
      else s
    case (Marked(item), FinishDispatch) =>
      s.(live := AfterDispatch(s.live, item), phase := Idle, dispatched := s.dispatched + [item.envelope.messageId])
    case (Idle, BeginSeed(account, n)) =>
      s.(live := s.live.(book := Seed(s.live.book, account, n)), phase := Seeding(account, n))
    case (Seeding(account, n), FinishSeed(ok)) =>
      s.(tables := if ok then SaveReservation(s.tables, account, n) else s.tables, phase := Idle)
    case (Idle, BeginMark(id, next, at, readOk, ok)) =>
      if ok && Transition(s.live.statuses, id, next).Ok?
      then s.(tables := WriteStatus(s.tables, id, next),
              phase := StatusWritten(id, next, StatusRead(s.tables, id, readOk), at))
      else s
    case (StatusWritten(id, next, from, at), LogMark(ok)) =>
      if ok then s.(tables := WriteHistory(s.tables, HistoryRow(id, from, Named(next), at)),
                    phase := HistoryWritten(id, next))
      else s.(phase := Idle)
    case (HistoryWritten(id, next), FinishMark) => s.(live := AfterMark(s.live, id, next), phase := Idle)
    case (_, Crash) => s.(live := BLANK, phase := Down)
    case (Down, Reopen(ok)) =>
      if ok && Readable(s.tables) then s.(live := Rehydrate(s.tables), phase := Idle) else s
    case _ => s
  }

  lemma BeginDispatchResult(s: Sys, top: QueuedTx)
    requires s.phase.Idle? && IsTop(s.live.queue, top)
    ensures Apply(s, BeginDispatch(top, true)) ==
            s.(tables := WriteStatus(s.tables, top.envelope.messageId, Propagating), phase := Marked(top))
  {
  }

  function Run(s: Sys, actions: seq<Action>): Sys
    decreases |actions|
  {
    if actions == [] then s else Run(Apply(s, actions[0]), actions[1..])
  }

  lemma RunOf3(s: Sys, a: Action, b: Action, c: Action)
    ensures Run(s, [a, b, c]) == Apply(Apply(Apply(s, a), b), c)
  {
    RunOf2(Apply(s, a), b, c);
    assert [a, b, c][1..] == [b, c];
  }

  lemma RunOf2(s: Sys, a: Action, b: Action)
    ensures Run(s, [a, b]) == Apply(Apply(s, a), b)
  {
    assert [a, b][1..] == [b] && [b][1..] == [];
    assert Run(Apply(s, a), [b]) == Run(Apply(Apply(s, a), b), []);
  }

  lemma BeginMarkResult(s: Sys, id: Id, next: Status, at: nat, readOk: bool)
    requires s.phase.Idle? && Transition(s.live.statuses, id, next).Ok?
    ensures Apply(s, BeginMark(id, next, at, readOk, true)) ==
            s.(tables := WriteStatus(s.tables, id, next),
               phase := StatusWritten(id, next, StatusRead(s.tables, id, readOk), at))
  {
  }

  lemma DispatchResult(s: Sys, top: QueuedTx)
    requires s.phase.Idle? && IsTop(s.live.queue, top)
    ensures Run(s, [BeginDispatch(top, true), FinishDispatch]) ==
            s.(tables := WriteStatus(s.tables, top.envelope.messageId, Propagating),
               live := AfterDispatch(s.live, top), dispatched := s.dispatched + [top.envelope.messageId])
  {
    var marked := s.(tables := WriteStatus(s.tables, top.envelope.messageId, Propagating), phase := Marked(top));
    BeginDispatchResult(s, top);
    FinishDispatchResult(marked);
    RunOf2(s, BeginDispatch(top, true), FinishDispatch);
  }

  lemma FinishDispatchResult(s: Sys)
    requires s.phase.Marked?
    ensures Apply(s, FinishDispatch) ==
            s.(live := AfterDispatch(s.live, s.phase.item), phase := Idle,
               dispatched := s.dispatched + [s.phase.item.envelope.messageId])
  {
  }

  function Logged(t: Tables, id: Id, next: Status, at: nat, readOk: bool): Tables {
    WriteHistory(WriteStatus(t, id, next), HistoryRow(id, StatusRead(t, id, readOk), Named(next), at))
  }

  /** A legal settlement mark with both writes done. */
  lemma MarkLogged(s: Sys, id: Id, next: Status, at: nat, readOk: bool)
    requires s.phase.Idle? && Transition(s.live.statuses, id, next).Ok?
    ensures Run(s, [BeginMark(id, next, at, readOk, true), LogMark(true)]) ==
            s.(tables := Logged(s.tables, id, next, at, readOk), phase := HistoryWritten(id, next))
  {
    RunOf2(s, BeginMark(id, next, at, readOk, true), LogMark(true));
  }

  lemma FinishMarkResult(s: Sys)
    requires s.phase.HistoryWritten?
    ensures Apply(s, FinishMark) == s.(live := AfterMark(s.live, s.phase.id, s.phase.next), phase := Idle)
  {
  }

  /** What the steps of a settlement mark come to. */
  lemma MarkSettlementSteps(s: Sys, id: Id, next: Status, at: nat, readOk: bool, statusOk: bool, historyOk: bool)
    requires s.phase.Idle?
    ensures Run(s, [BeginMark(id, next, at, readOk, statusOk), LogMark(historyOk), FinishMark]) ==
      if Transition(s.live.statuses, id, next).Err? || !statusOk then s
      else if !historyOk then s.(tables := WriteStatus(s.tables, id, next))
      else s.(tables := Logged(s.tables, id, next, at, readOk), live := AfterMark(s.live, id, next))
  {
    RunOf3(s, BeginMark(id, next, at, readOk, statusOk), LogMark(historyOk), FinishMark);
    if Transition(s.live.statuses, id, next).Ok? && statusOk && historyOk {
      MarkLogged(s, id, next, at, readOk);
      RunOf2(s, BeginMark(id, next, at, readOk, true), LogMark(true));
      FinishMarkResult(s.(tables := Logged(s.tables, id, next, at, readOk), phase := HistoryWritten(id, next)));
    }
  }

  type Guard = (Sys, Action) -> bool

  /** Every action of the run meets the guard when its turn comes. */
  predicate Respects(s: Sys, actions: seq<Action>, guard: Guard)
    decreases |actions|
  {
    actions == [] || (guard(s, actions[0]) && Respects(Apply(s, actions[0]), actions[1..], guard))
  }

  predicate InQueue(queue: multiset<QueuedTx>, id: Id) {
    exists q :: q in queue && q.envelope.messageId == id
  }

  /** A message id is a hash of the envelope: a new payment does not repeat a stored one. */
  predicate Fresh(s: Sys, a: Action) {
    a.BeginQueue? ==> a.envelope.messageId !in s.tables.envelopes
  }

  // ---- At-most-once dispatch ----

  ghost predicate TablesSound(t: Tables) {
    forall id :: id in t.envelopes ==>
      t.envelopes[id].envelope.messageId == id && id in t.statuses && t.statuses[id].Named?
  }

  predicate Distinct(ids: seq<Id>) {
    forall i, j :: 0 <= i < j < |ids| ==> ids[i] != ids[j]
  }

  /** An item of the in-memory queue: once, as its row says, and never handed out before. */
  ghost predicate QueueItemSound(s: Sys, q: QueuedTx) {
    var id := q.envelope.messageId;
    id in s.tables.envelopes && q == ToQueued(s.tables.envelopes[id]) && s.live.queue[q] == 1 && id !in s.dispatched
  }

  ghost predicate DispatchSound(s: Sys) {
    TablesSound(s.tables) && Distinct(s.dispatched) &&
    (forall id :: id in s.dispatched ==> id in s.tables.envelopes && s.tables.statuses[id] != Named(Queued)) &&
    (forall q :: q in s.live.queue ==> QueueItemSound(s, q)) &&
    match s.phase
    case Reserved(row) => row.envelope.messageId !in s.tables.envelopes
    case Stored(row) =>
      var id := row.envelope.messageId;
      id in s.tables.envelopes && s.tables.envelopes[id] == row && id !in s.dispatched &&
      ToQueued(row) !in s.live.queue
    case Marked(item) =>
      item in s.live.queue && s.tables.statuses[item.envelope.messageId] == Named(Propagating)
    case _ => true
  }

  lemma BeginQueueKeepsDispatchSound(s: Sys, a: Action)
    requires DispatchSound(s) && s.phase.Idle? && a.BeginQueue? && Fresh(s, a)
    ensures DispatchSound(Apply(s, a))
  {
    var s' := Apply(s, a);
    assert forall q :: q in s'.live.queue ==> QueueItemSound(s, q);
  }

  lemma StoreRowKeepsDispatchSound(s: Sys, row: Row, ok: bool)
    requires DispatchSound(s) && s.phase == Reserved(row)
    ensures DispatchSound(ApplyStoreRow(s, row, ok))
  {
    var s' := ApplyStoreRow(s, row, ok);
    assert forall q :: q in s'.live.queue ==> QueueItemSound(s, q);
  }

  lemma FinishQueueKeepsDispatchSound(s: Sys)
    requires DispatchSound(s) && s.phase.Stored?
    ensures DispatchSound(Apply(s, FinishQueue))
  {
    var s' := Apply(s, FinishQueue);
    forall q | q in s'.live.queue ensures QueueItemSound(s', q) {
      if q in s.live.queue { assert QueueItemSound(s, q); }
    }
  }

  /** Writing any status but Queued leaves the queue and the hand-out record sound. */
  lemma WriteStatusKeepsDispatchSound(s: Sys, id: Id, next: Status)
    requires DispatchSound(s) && s.phase.Idle? && next != Queued
    ensures DispatchSound(s.(tables := WriteStatus(s.tables, id, next)))
  {
    var s' := s.(tables := WriteStatus(s.tables, id, next));
    forall q | q in s'.live.queue ensures QueueItemSound(s', q) {
      assert QueueItemSound(s, q);
    }
  }

  lemma BeginDispatchKeepsDispatchSound(s: Sys, top: QueuedTx, ok: bool)
    requires DispatchSound(s) && s.phase.Idle?
    ensures DispatchSound(Apply(s, BeginDispatch(top, ok)))
  {
    var marked := s.(tables := WriteStatus(s.tables, top.envelope.messageId, Propagating));
    WriteStatusKeepsDispatchSound(s, top.envelope.messageId, Propagating);
    assert forall q :: q in s.live.queue ==> QueueItemSound(marked, q);
    var s' := Apply(s, BeginDispatch(top, ok));
    assert s'.tables == marked.tables ==> forall q :: q in s.live.queue && QueueItemSound(marked, q) ==> QueueItemSound(s', q);
  }

  lemma FinishDispatchKeepsDispatchSound(s: Sys)
    requires DispatchSound(s) && s.phase.Marked?
    ensures DispatchSound(Apply(s, FinishDispatch))
  {
    var item, s' := s.phase.item, Apply(s, FinishDispatch);
    assert QueueItemSound(s, item);
    forall q | q in s'.live.queue ensures QueueItemSound(s', q) {
      assert QueueItemSound(s, q) && q != item;
    }
  }

  lemma MarkKeepsDispatchSound(s: Sys, a: Action)
    requires DispatchSound(s)
    requires match (s.phase, a)
             case (Idle, BeginMark(_, _, _, _, _)) => true
             case (StatusWritten(_, _, _, _), LogMark(_)) => true
             case (HistoryWritten(_, _), FinishMark) => true
             case _ => false
    ensures DispatchSound(Apply(s, a))
  {
    var s' := Apply(s, a);
    if a.BeginMark? && s' != s {
      WriteStatusKeepsDispatchSound(s, a.id, a.next);
      var written := s.(tables := s'.tables);
      forall q | q in s'.live.queue ensures QueueItemSound(s', q) {
        assert QueueItemSound(written, q);
      }
    } else {
      forall q | q in s'.live.queue ensures QueueItemSound(s', q) {
        assert QueueItemSound(s, q);
      }
    }
  }

  lemma SeedKeepsDispatchSound(s: Sys, account: Account, n: int)
    requires DispatchSound(s)
    ensures s.phase.Idle? ==> DispatchSound(Apply(s, BeginSeed(account, n)))
  {
    var s' := Apply(s, BeginSeed(account, n));
    forall q | q in s'.live.queue ensures QueueItemSound(s', q) {
      assert QueueItemSound(s, q);
    }
  }

  lemma FinishSeedKeepsDispatchSound(s: Sys, ok: bool)
    requires DispatchSound(s)
    ensures s.phase.Seeding? ==> DispatchSound(Apply(s, FinishSeed(ok)))
  {
    var s' := Apply(s, FinishSeed(ok));
    forall q | q in s'.live.queue ensures QueueItemSound(s', q) {
      assert QueueItemSound(s, q);
    }
  }

  lemma ReopenKeepsDispatchSound(s: Sys)
    requires DispatchSound(s) && s.phase.Down?
    ensures DispatchSound(Apply(s, Reopen(true)))
  {
    if Readable(s.tables) {
      var s' := Apply(s, Reopen(true));
      forall q | q in s'.live.queue ensures QueueItemSound(s', q) {
        assert q in StillQueued(s.tables);
      }
    }
  }

  lemma PaymentStepKeepsDispatchSound(s: Sys, a: Action)
    requires DispatchSound(s) && Fresh(s, a)
    requires a.BeginQueue? || a.StoreRow? || a.FinishQueue? || a.BeginSeed? || a.FinishSeed?
    ensures DispatchSound(Apply(s, a))
  {
    match (s.phase, a)
    case (Idle, BeginQueue(_, _, _, _, _)) => BeginQueueKeepsDispatchSound(s, a);
    case (Reserved(row), StoreRow(ok)) => StoreRowKeepsDispatchSound(s, row, ok);
    case (Stored(_), FinishQueue) => FinishQueueKeepsDispatchSound(s);
    case (Idle, BeginSeed(account, n)) => SeedKeepsDispatchSound(s, account, n);
    case (Seeding(_, _), FinishSeed(ok)) => FinishSeedKeepsDispatchSound(s, ok);
    case _ =>
  }

  lemma StatusStepKeepsDispatchSound(s: Sys, a: Action)
    requires DispatchSound(s)
    requires a.BeginDispatch? || a.FinishDispatch? || a.BeginMark? || a.LogMark? || a.FinishMark?
    ensures DispatchSound(Apply(s, a))
  {
    match (s.phase, a)
    case (Idle, BeginDispatch(top, ok)) => BeginDispatchKeepsDispatchSound(s, top, ok);
    case (Marked(_), FinishDispatch) => FinishDispatchKeepsDispatchSound(s);
    case (Idle, BeginMark(_, _, _, _, _)) => MarkKeepsDispatchSound(s, a);
    case (StatusWritten(_, _, _, _), LogMark(_)) => MarkKeepsDispatchSound(s, a);
    case (HistoryWritten(_, _), FinishMark) => MarkKeepsDispatchSound(s, a);
    case _ =>
  }

  lemma CrashKeepsDispatchSound(s: Sys)
    requires DispatchSound(s)
    ensures DispatchSound(Apply(s, Crash))
  {
    assert Apply(s, Crash) == s.(live := BLANK, phase := Down);
  }

  lemma StepKeepsDispatchSound(s: Sys, a: Action)
    requires DispatchSound(s) && Fresh(s, a)
    ensures DispatchSound(Apply(s, a))
  {
    if a.Crash? {
      CrashKeepsDispatchSound(s);
    } else if a.Reopen? {
      if s.phase.Down? && a.ok { ReopenKeepsDispatchSound(s); }
    } else if a.BeginQueue? || a.StoreRow? || a.FinishQueue? || a.BeginSeed? || a.FinishSeed? {
      PaymentStepKeepsDispatchSound(s, a);
    } else {
      StatusStepKeepsDispatchSound(s, a);
    }
  }

  lemma {:induction false} RunKeepsDispatchSound(s: Sys, actions: seq<Action>)
    requires DispatchSound(s) && Respects(s, actions, Fresh)
    ensures DispatchSound(Run(s, actions))
    decreases |actions|
  {
    if actions != [] {
      StepKeepsDispatchSound(s, actions[0]);
      RunKeepsDispatchSound(Apply(s, actions[0]), actions[1..]);
    }
  }

  /** Over every run, with any crashes, reopens and storage failures anywhere, no message id is
      handed to the mesh twice, and a handed-out one never looks Queued again. */
  lemma AtMostOnceDispatch(actions: seq<Action>)
    requires Respects(INIT, actions, Fresh)
    ensures var s := Run(INIT, actions);
      Distinct(s.dispatched) &&
      forall id :: id in s.dispatched ==> id in s.tables.envelopes && RowStatus(s.tables, id) != Some(Queued)
  {
    RunKeepsDispatchSound(INIT, actions);
  }
}
