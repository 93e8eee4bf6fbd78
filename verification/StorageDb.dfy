/** The durable tables of src/storage/db.rs; every SQL statement or transaction is one atomic update. */
module StorageDb {
  import opened Wrappers
  import opened Settlement
  import opened PriorityOrder
  import opened SequenceReservation

  datatype Row = Row(envelope: Envelope, account: Account, sequence: int, priority: TxPriority, enqueuedAt: nat)

  datatype HistoryRow = HistoryRow(id: Id, fromStatus: StatusText, toStatus: StatusText, timestamp: nat)

  datatype Tables = Tables(
    envelopes: map<Id, Row>, statuses: map<Id, StatusText>, reservations: map<Account, int>, history: seq<HistoryRow>)

  const EMPTY: Tables := Tables(map[], map[], map[], [])

  /** The one transaction of `enqueue_transaction`. */
  function EnqueueTransaction(t: Tables, row: Row): Tables {
    t.(reservations := t.reservations[row.account := row.sequence],
       envelopes := t.envelopes[row.envelope.messageId := row],
       statuses := t.statuses[row.envelope.messageId := Named(Queued)])
  }

  /** The first statement of `set_settlement_status`, and the whole of `persist_dispatch_status`. */
  function WriteStatus(t: Tables, id: Id, next: Status): Tables {
    t.(statuses := t.statuses[id := Named(next)])
  }

  /** The second statement of `set_settlement_status`. */
  function WriteHistory(t: Tables, row: HistoryRow): Tables {
    t.(history := t.history + [row])
  }

  function SaveReservation(t: Tables, account: Account, n: int): Tables {
    t.(reservations := t.reservations[account := n])
  }

  /** The current status text, empty when there is no row. */
  function StatusColumn(t: Tables, id: Id): StatusText {
    if id in t.statuses then t.statuses[id] else Foreign("")
  }

  /** What `set_settlement_status` takes for the old status: a failed read counts as an empty column. */
  function StatusRead(t: Tables, id: Id, readOk: bool): StatusText {
    if readOk then StatusColumn(t, id) else Foreign("")
  }

  /** The statuses a tracker can be built from: the rows that parse. */
  function TrackerView(statuses: map<Id, StatusText>): Statuses {
    map id | id in statuses && statuses[id].Named? :: statuses[id].status
  }

  // ---- Folding the tracker over a batch ----

  datatype Update = Update(id: Id, next: Status, at: nat)

  function FoldTransitions(st: Statuses, updates: seq<Update>): Statuses {
    if updates == [] then st else
      var n := |updates| - 1;
      var before := FoldTransitions(st, updates[..n]);
      match Transition(before, updates[n].id, updates[n].next)
      case Ok(after) => after
      case Err(_) => before
  }

  /** Whether the k-th update is legal when its turn comes. */
  predicate Legal(st: Statuses, updates: seq<Update>, k: nat)
    requires k < |updates|
  {
    Transition(FoldTransitions(st, updates[..k]), updates[k].id, updates[k].next).Ok?
  }

  /** The updates the tracker takes (or refuses), in their order. */
  function Split(st: Statuses, updates: seq<Update>, taken: bool): seq<Update> {
    if updates == [] then [] else
      var n := |updates| - 1;
      Split(st, updates[..n], taken) + if Legal(st, updates, n) == taken then [updates[n]] else []
  }

  function NewHistory(st: Statuses, updates: seq<Update>): seq<HistoryRow> {
    if updates == [] then [] else
      var n := |updates| - 1;
      NewHistory(st, updates[..n]) +
      if Legal(st, updates, n)
      then [HistoryRow(updates[n].id, Named(FoldTransitions(st, updates[..n])[updates[n].id]),
                       Named(updates[n].next), updates[n].at)]
      else []
  }

  datatype RejectReason = UntrackedEnvelope | IllegalTransition(from: StatusText, to: Status)

  datatype BatchReport = BatchReport(applied: seq<Id>, rejected: seq<(Id, RejectReason)>)

  function Ids(updates: seq<Update>): seq<Id> {
    seq(|updates|, i requires 0 <= i < |updates| => updates[i].id)
  }

  /** Why an update is refused when its turn comes: no row, or the status text the row then has. */
  function Reason(statuses: map<Id, StatusText>, before: Statuses, u: Update): RejectReason {
    if u.id !in statuses then UntrackedEnvelope
    else IllegalTransition(if u.id in before then Named(before[u.id]) else statuses[u.id], u.next)
  }

  /** The refused updates of a batch, in their order, each with its reason. */
  function Rejections(statuses: map<Id, StatusText>, updates: seq<Update>): seq<(Id, RejectReason)> {
    if updates == [] then [] else
      var n, st := |updates| - 1, TrackerView(statuses);
      Rejections(statuses, updates[..n]) +
      if Legal(st, updates, n) then []
      else [(updates[n].id, Reason(statuses, FoldTransitions(st, updates[..n]), updates[n]))]
  }

  function RejectedIds(rejected: seq<(Id, RejectReason)>): seq<Id> {
    seq(|rejected|, i requires 0 <= i < |rejected| => rejected[i].0)
  }

  lemma RejectionsAppend(statuses: map<Id, StatusText>, updates: seq<Update>, u: Update)
    ensures var before := FoldTransitions(TrackerView(statuses), updates);
      Rejections(statuses, updates + [u]) ==
        Rejections(statuses, updates) +
        if Transition(before, u.id, u.next).Ok? then [] else [(u.id, Reason(statuses, before, u))]
  {
    AppendPrefix(updates, u);
  }

  /** The report names the refused part of the split. */
  lemma {:induction false} RejectionsAreTheSplit(statuses: map<Id, StatusText>, updates: seq<Update>)
    ensures RejectedIds(Rejections(statuses, updates)) == Ids(Split(TrackerView(statuses), updates, false))
  {
    if updates != [] {
      var n, st := |updates| - 1, TrackerView(statuses);
      var u, before := updates[n], updates[..n];
      assert updates == before + [u];
      RejectionsAreTheSplit(statuses, before);
      RejectionsAppend(statuses, before, u);
      FoldAppend(st, before, u);
      if Transition(FoldTransitions(st, before), u.id, u.next).Err? {
        RejectedIdsAppend(Rejections(statuses, before), u.id, Reason(statuses, FoldTransitions(st, before), u));
        IdsAppend(Split(st, before, false), u);
      }
    }
  }

  /** One more update at the end of the batch. */
  lemma FoldAppend(st: Statuses, updates: seq<Update>, u: Update)
    ensures var before := FoldTransitions(st, updates);
      var attempt := Transition(before, u.id, u.next);
      var all := updates + [u];
      if attempt.Ok? then
        FoldTransitions(st, all) == attempt.value &&
        Split(st, all, true) == Split(st, updates, true) + [u] && Split(st, all, false) == Split(st, updates, false) &&
        NewHistory(st, all) ==
          NewHistory(st, updates) + [HistoryRow(u.id, Named(before[u.id]), Named(u.next), u.at)]
      else
        FoldTransitions(st, all) == before && NewHistory(st, all) == NewHistory(st, updates) &&
        Split(st, all, true) == Split(st, updates, true) && Split(st, all, false) == Split(st, updates, false) + [u]
  {
    AppendPrefix(updates, u);
  }

  /** The local state of the batch loop. */
  datatype Batch = Batch(
    statuses: map<Id, StatusText>, history: seq<HistoryRow>, applied: seq<Id>, rejected: seq<(Id, RejectReason)>)

  /** What the loop has done to the tables `t` after the given updates. */
  ghost predicate Processed(t: Tables, updates: seq<Update>, b: Batch) {
    var st := TrackerView(t.statuses);
    // the tracker folded over the updates, illegal ones skipped; other rows untouched
    TrackerView(b.statuses) == FoldTransitions(st, updates) &&
    b.statuses.Keys == t.statuses.Keys &&
    (forall id :: id in t.statuses && id !in st ==> b.statuses[id] == t.statuses[id]) &&
    b.history == t.history + NewHistory(st, updates) &&
    b.applied == Ids(Split(st, updates, true)) &&
    b.rejected == Rejections(t.statuses, updates)
  }

  /** The row as the loop finds it is what `Reason` names. */
  lemma CurrentText(t: Tables, updates: seq<Update>, b: Batch, id: Id)
    requires Processed(t, updates, b) && id in b.statuses
    ensures var before := FoldTransitions(TrackerView(t.statuses), updates);
      b.statuses[id] == if id in before then Named(before[id]) else t.statuses[id]
  {
    FoldKeepsKeys(TrackerView(t.statuses), updates);
    if b.statuses[id].Named? {
      assert id in TrackerView(b.statuses);
    }
  }

  lemma ProcessRefused(t: Tables, updates: seq<Update>, b: Batch, u: Update, reason: RejectReason)
    requires Processed(t, updates, b)
    requires Transition(TrackerView(b.statuses), u.id, u.next).Err?
    requires reason == if u.id in b.statuses then IllegalTransition(b.statuses[u.id], u.next) else UntrackedEnvelope
    ensures Processed(t, updates + [u], b.(rejected := b.rejected + [(u.id, reason)]))
  {
    FoldAppend(TrackerView(t.statuses), updates, u);
    RejectionsAppend(t.statuses, updates, u);
    if u.id in b.statuses { CurrentText(t, updates, b, u.id); }
  }

  lemma ProcessApplied(t: Tables, updates: seq<Update>, b: Batch, u: Update)
    requires Processed(t, updates, b)
    requires Transition(TrackerView(b.statuses), u.id, u.next).Ok?
    ensures Processed(t, updates + [u],
              Batch(b.statuses[u.id := Named(u.next)],
                    b.history + [HistoryRow(u.id, b.statuses[u.id], Named(u.next), u.at)],
                    b.applied + [u.id], b.rejected))
  {
    var st := TrackerView(t.statuses);
    FoldAppend(st, updates, u);
    FoldKeepsKeys(st, updates);
    RejectionsAppend(t.statuses, updates, u);
    IdsAppend(Split(st, updates, true), u);
    ViewAfterWrite(b.statuses, u.id, u.next);
    assert u.id in st;
    assert b.history + [HistoryRow(u.id, b.statuses[u.id], Named(u.next), u.at)] ==
           t.history + NewHistory(st, updates + [u]);
  }

  lemma ProcessedNothing(t: Tables)
    ensures Processed(t, [], Batch(t.statuses, t.history, [], []))
  {
    assert t.history + [] == t.history;
  }

  lemma IdsAppend(updates: seq<Update>, u: Update)
    ensures Ids(updates + [u]) == Ids(updates) + [u.id]
  {
  }

  lemma RejectedIdsAppend(rejected: seq<(Id, RejectReason)>, id: Id, reason: RejectReason)
    ensures RejectedIds(rejected + [(id, reason)]) == RejectedIds(rejected) + [id]
  {
  }

  lemma ViewAfterWrite(statuses: map<Id, StatusText>, id: Id, next: Status)
    ensures TrackerView(statuses[id := Named(next)]) == TrackerView(statuses)[id := next]
  {
  }

  /** One turn of the batch loop. */
  method ProcessOne(ghost t: Tables, ghost updates: seq<Update>, b: Batch, u: Update) returns (b': Batch)
    requires Processed(t, updates, b)
    ensures Processed(t, updates + [u], b')
  {
    if u.id !in b.statuses {
      ProcessRefused(t, updates, b, u, UntrackedEnvelope);
      return b.(rejected := b.rejected + [(u.id, UntrackedEnvelope)]);
    }
    var from := b.statuses[u.id];
    if !(from.Named? && from.status.CanTransitionTo(u.next)) {
      ProcessRefused(t, updates, b, u, IllegalTransition(from, u.next));
      return b.(rejected := b.rejected + [(u.id, IllegalTransition(from, u.next))]);
    }
    ProcessApplied(t, updates, b, u);
    return Batch(b.statuses[u.id := Named(u.next)], b.history + [HistoryRow(u.id, from, Named(u.next), u.at)],
                 b.applied + [u.id], b.rejected);
  }

  class SyncEngineDb {
    var tables: Tables

    constructor (tables: Tables)
      ensures this.tables == tables
    {
      this.tables := tables;
    }

    method Enqueue(row: Row, storageOk: bool)
      modifies this
      ensures tables == if storageOk then EnqueueTransaction(old(tables), row) else old(tables)
    {
      if storageOk {
        tables := EnqueueTransaction(tables, row);
      }
    }

    method SaveSequenceReservation(account: Account, n: int, storageOk: bool)
      modifies this
      ensures tables == if storageOk then SaveReservation(old(tables), account, n) else old(tables)
    {
      if storageOk {
        tables := SaveReservation(tables, account, n);
      }
    }

    /** `persist_dispatch_status`: one statement, and no history row. */
    method PersistDispatchStatus(id: Id, storageOk: bool)
      modifies this
      ensures tables == if storageOk then WriteStatus(old(tables), id, Propagating) else old(tables)
    {
      if storageOk {
        tables := WriteStatus(tables, id, Propagating);
      }
    }

    /** `set_settlement_status`: two statements outside any transaction, so the second can fail with
        the first one kept; `between` are the tables after the first. */
    method SetSettlementStatus(id: Id, next: Status, at: nat, readOk: bool, statusOk: bool, historyOk: bool)
      returns (ok: bool, ghost between: Tables)
      modifies this
      ensures ok <==> statusOk && historyOk
      ensures ok ==> tables == old(tables).(
                statuses := old(tables).statuses[id := Named(next)],
                history := old(tables).history +
                  [HistoryRow(id, if readOk && id in old(tables).statuses then old(tables).statuses[id] else Foreign(""),
                              Named(next), at)])
      ensures between == if statusOk then WriteStatus(old(tables), id, next) else old(tables)
      ensures tables == if !statusOk then old(tables)
                        else
                          var written := WriteStatus(old(tables), id, next);
                          if !historyOk then written
                          else WriteHistory(written, HistoryRow(id, StatusRead(old(tables), id, readOk), Named(next), at))
    {
      var from := StatusRead(tables, id, readOk);
      if !statusOk {
        return false, tables;
      }
      tables := WriteStatus(tables, id, next);
      between := tables;
      if !historyOk {
        return false, between;
      }
      tables := WriteHistory(tables, HistoryRow(id, from, Named(next), at));
      return true, between;
    }

    /** `set_settlement_status_batch`: best effort, inside one transaction. */
    method SetSettlementStatusBatch(updates: seq<Update>, storageOk: bool) returns (r: Result<BatchReport, ()>)
      modifies this
      ensures r.Ok? <==> storageOk
      ensures !storageOk ==> tables == old(tables)
      ensures storageOk ==>
                Processed(old(tables), updates,
                  Batch(tables.statuses, tables.history, r.value.applied, r.value.rejected))
      ensures tables == old(tables).(statuses := tables.statuses, history := tables.history)
    {
      if !storageOk {
        return Err(());
      }
      var b := Batch(tables.statuses, tables.history, [], []);
      ProcessedNothing(tables);
      for k := 0 to |updates|
        invariant tables == old(tables) && Processed(tables, updates[..k], b)
      {
        var u := updates[k];
        assert updates[..k + 1] == updates[..k] + [u];
        b := ProcessOne(tables, updates[..k], b, u);
      }
      assert updates[..|updates|] == updates;
      tables := tables.(statuses := b.statuses, history := b.history);
      return Ok(BatchReport(b.applied, b.rejected));
    }

    /** `sweep_stale_envelopes`. The query may fail, and so may each of the two statements per envelope:
        the sweep then stops there and keeps what it has written. */
    method SweepStaleEnvelopes(maxAge: nat, now: nat, queryOk: bool, outcome: Outcomes)
      returns (r: Result<seq<Id>, ()>, ghost swept: seq<Id>, ghost stopped: Option<Id>)
      modifies this
      ensures r.Ok? <==> queryOk && stopped.None?
      ensures !queryOk ==> tables == old(tables)
      ensures r.Ok? ==> r.value == swept && Swept(old(tables), tables, swept, now, outcome) &&
                        forall id :: id in swept <==> IsStale(old(tables), maxAge, now, id)
      ensures forall id :: id in swept ==> outcome(id).Written() && IsStale(old(tables), maxAge, now, id)
      ensures queryOk && stopped.Some? ==>
                !outcome(stopped.value).Written() && IsStale(old(tables), maxAge, now, stopped.value) &&
                PartlySwept(old(tables), tables, swept, stopped.value, now, outcome)
    {
      stopped, swept := None, [];
      if !queryOk {
        return Err(()), [], None;
      }
      ghost var start := tables;
      var todo := set id | id in tables.envelopes && IsStale(tables, maxAge, now, id);
      var stale: seq<Id> := [];
      while todo != {}
        invariant forall id :: IsStale(start, maxAge, now, id) <==> id in todo || id in stale
        invariant forall id :: id in todo ==> id !in stale
        invariant forall id :: id in stale ==> outcome(id).Written()
        invariant Swept(start, tables, stale, now, outcome)
        decreases todo
      {
        var id :| id in todo;
        SweepStep(start, tables, stale, id, now, outcome);
        var o := outcome(id);
        var written, _ := SetSettlementStatus(id, Failed, now, o.readOk, o.statusOk, o.historyOk);
        if !written {
          return Err(()), stale, Some(id);
        }
        stale := stale + [id];
        todo := todo - {id};
      }
      return Ok(stale), stale, None;
    }
  }

  /** What storage does with the three statements of one envelope's update. */
  datatype Outcome = Outcome(readOk: bool, statusOk: bool, historyOk: bool)
  {
    predicate Written() {
      statusOk && historyOk
    }
  }

  type Outcomes = Id -> Outcome

  /** The join that `sweep_stale_envelopes` selects; the cutoff saturates at zero. */
  predicate IsStale(t: Tables, maxAge: nat, now: nat, id: Id) {
    id in t.envelopes && id in t.statuses &&
    t.envelopes[id].enqueuedAt < (if now >= maxAge then now - maxAge else 0) &&
    (t.statuses[id] == Named(Queued) || t.statuses[id] == Named(Propagating))
  }

  ghost predicate DistinctRows(statuses: map<Id, StatusText>, ids: seq<Id>) {
    (forall i, j :: 0 <= i < j < |ids| ==> ids[i] != ids[j]) && forall id :: id in ids ==> id in statuses
  }

  /** Each swept envelope is Failed now, once, with a history row that names its old status, as far as
      that could be read; nothing else changed. */
  ghost predicate Swept(before: Tables, after: Tables, stale: seq<Id>, now: nat, outcome: Outcomes) {
    DistinctRows(before.statuses, stale) && after == AfterSweep(before, stale, now, outcome)
  }

  function AfterSweep(before: Tables, stale: seq<Id>, now: nat, outcome: Outcomes): Tables
    requires forall id :: id in stale ==> id in before.statuses
  {
    before.(statuses := map id | id in before.statuses :: if id in stale then Named(Failed) else before.statuses[id],
            history := before.history + SweepRows(before.statuses, stale, now, outcome))
  }

  /** A sweep that storage stopped at one envelope, before or after that envelope's status write. */
  ghost predicate PartlySwept(
    before: Tables, after: Tables, swept: seq<Id>, stopped: Id, now: nat, outcome: Outcomes)
  {
    DistinctRows(before.statuses, swept) && stopped in before.statuses && stopped !in swept &&
    var mid := AfterSweep(before, swept, now, outcome);
    after == if outcome(stopped).statusOk then WriteStatus(mid, stopped, Failed) else mid
  }

  function SweepRow(statuses: map<Id, StatusText>, id: Id, now: nat, readOk: bool): HistoryRow
    requires id in statuses
  {
    HistoryRow(id, if readOk then statuses[id] else Foreign(""), Named(Failed), now)
  }

  function SweepRows(statuses: map<Id, StatusText>, stale: seq<Id>, now: nat, outcome: Outcomes): seq<HistoryRow>
    requires forall id :: id in stale ==> id in statuses
  {
    seq(|stale|, i requires 0 <= i < |stale| => SweepRow(statuses, stale[i], now, outcome(stale[i]).readOk))
  }

  lemma SweepStep(before: Tables, mid: Tables, stale: seq<Id>, id: Id, now: nat, outcome: Outcomes)
    requires Swept(before, mid, stale, now, outcome) && id in before.statuses && id !in stale
    ensures mid.statuses[id] == before.statuses[id]
    ensures Swept(before,
              WriteHistory(WriteStatus(mid, id, Failed), SweepRow(mid.statuses, id, now, outcome(id).readOk)),
              stale + [id], now, outcome)
  {
    SweepRowsAppend(before.statuses, stale, id, now, outcome);
  }

  // ---- What the fold guarantees ----

  lemma {:induction false} FoldKeepsKeys(st: Statuses, updates: seq<Update>)
    ensures FoldTransitions(st, updates).Keys == st.Keys
  {
    if updates != [] { FoldKeepsKeys(st, updates[..|updates| - 1]); }
  }

  ghost predicate Partitioned(st: Statuses, updates: seq<Update>) {
    multiset(Split(st, updates, true)) + multiset(Split(st, updates, false)) == multiset(updates)
  }

  lemma PartitionStep(st: Statuses, before: seq<Update>, u: Update)
    requires Partitioned(st, before)
    ensures Partitioned(st, before + [u])
  {
    FoldAppend(st, before, u);
    if Transition(FoldTransitions(st, before), u.id, u.next).Ok? {
      PartitionAppend(Split(st, before, true), Split(st, before, false), before, u);
    } else {
      PartitionAppend(Split(st, before, false), Split(st, before, true), before, u);
    }
  }

  /** Nothing is lost or invented: applied and rejected together are the batch. */
  lemma {:induction false} SplitIsPartition(st: Statuses, updates: seq<Update>)
    ensures Partitioned(st, updates)
  {
    if updates != [] {
      var before, u := updates[..|updates| - 1], updates[|updates| - 1];
      assert updates == before + [u];
      SplitIsPartition(st, before);
      PartitionStep(st, before, u);
    }
  }

  lemma PartitionAppend(a: seq<Update>, b: seq<Update>, all: seq<Update>, u: Update)
    requires multiset(a) + multiset(b) == multiset(all)
    ensures multiset(a + [u]) + multiset(b) == multiset(all + [u])
  {
  }

  /** The statuses one message visits according to a list of history rows. */
  function Visited(rows: seq<HistoryRow>, id: Id): seq<Status> {
    if rows == [] then [] else
      var n := |rows| - 1;
      Visited(rows[..n], id) +
      if rows[n].id == id && rows[n].toStatus.Named? then [rows[n].toStatus.status] else []
  }

  /** Per message, the new history rows are a legal walk from the old status to the new one. */
  lemma {:induction false} HistoryIsLegalWalk(st: Statuses, updates: seq<Update>, id: Id)
    requires id in st
    ensures var visited := Visited(NewHistory(st, updates), id);
      LegalWalk(st[id], visited) && id in FoldTransitions(st, updates) &&
      WalkEnd(st[id], visited) == FoldTransitions(st, updates)[id]
  {
    if updates != [] {
      var n := |updates| - 1;
      var u, rows := updates[n], NewHistory(st, updates[..n]);
      HistoryIsLegalWalk(st, updates[..n], id);
      assert updates == updates[..n] + [u];
      FoldAppend(st, updates[..n], u);
      var before := FoldTransitions(st, updates[..n]);
      if Transition(before, u.id, u.next).Ok? {
        var from := before[u.id];
        VisitedAppend(rows, HistoryRow(u.id, Named(from), Named(u.next), u.at), u.next, id);
        if u.id == id {
          WalkAppend(st[id], Visited(rows, id), u.next);
        }
      }
    }
  }

  lemma VisitedAppend(rows: seq<HistoryRow>, row: HistoryRow, next: Status, id: Id)
    requires row.toStatus == Named(next)
    ensures row.id == id ==> Visited(rows + [row], id) == Visited(rows, id) + [next]
    ensures row.id != id ==> Visited(rows + [row], id) == Visited(rows, id)
  {
    assert (rows + [row])[..|rows|] == rows;
  }

  // ---- The sweep against the same reference ----

  /** A second sweep of what the first one left finds nothing. */
  lemma SecondSweepFindsNothing(
    before: Tables, after: Tables, stale: seq<Id>, maxAge: nat, now: nat, outcome: Outcomes, id: Id)
    requires Swept(before, after, stale, now, outcome) && forall i :: i in stale <==> IsStale(before, maxAge, now, i)
    ensures !IsStale(after, maxAge, now, id)
  {
  }

  function FailAll(stale: seq<Id>, now: nat): seq<Update> {
    seq(|stale|, i requires 0 <= i < |stale| => Update(stale[i], Failed, now))
  }

  lemma FailAllAppend(stale: seq<Id>, id: Id, now: nat)
    ensures FailAll(stale + [id], now) == FailAll(stale, now) + [Update(id, Failed, now)]
  {
  }

  lemma SweepRowsAppend(statuses: map<Id, StatusText>, stale: seq<Id>, id: Id, now: nat, outcome: Outcomes)
    requires id in statuses && forall i :: i in stale ==> i in statuses
    ensures (forall i :: i in stale + [id] ==> i in statuses) &&
      SweepRows(statuses, stale + [id], now, outcome) ==
        SweepRows(statuses, stale, now, outcome) + [SweepRow(statuses, id, now, outcome(id).readOk)]
  {
  }

  /** The statuses after the given ids have failed. */
  function Failing(st: Statuses, stale: seq<Id>): Statuses {
    map id | id in st :: if id in stale then Failed else st[id]
  }

  predicate CanAllFail(statuses: map<Id, StatusText>, stale: seq<Id>) {
    forall i :: i in stale ==> i in statuses && statuses[i].Named? && statuses[i].status.CanTransitionTo(Failed)
  }

  /** The rows of a sweep whose reads all succeed. */
  function FullRows(statuses: map<Id, StatusText>, stale: seq<Id>, now: nat): seq<HistoryRow>
    requires forall id :: id in stale ==> id in statuses
  {
    seq(|stale|, i requires 0 <= i < |stale| => SweepRow(statuses, stale[i], now, true))
  }

  /** The fold takes every one of these updates, and writes the rows of a sweep. */
  ghost predicate FailsCleanly(statuses: map<Id, StatusText>, stale: seq<Id>, now: nat)
    requires CanAllFail(statuses, stale)
  {
    var st, updates := TrackerView(statuses), FailAll(stale, now);
    FoldTransitions(st, updates) == Failing(st, stale) && Split(st, updates, false) == [] &&
    NewHistory(st, updates) == FullRows(statuses, stale, now)
  }

  lemma FullRowsAppend(statuses: map<Id, StatusText>, stale: seq<Id>, id: Id, now: nat)
    requires id in statuses && forall i :: i in stale ==> i in statuses
    ensures (forall i :: i in stale + [id] ==> i in statuses) &&
      FullRows(statuses, stale + [id], now) ==
        FullRows(statuses, stale, now) + [HistoryRow(id, statuses[id], Named(Failed), now)]
  {
  }

  lemma NextFailIsLegal(statuses: map<Id, StatusText>, rest: seq<Id>, id: Id)
    requires CanAllFail(statuses, rest + [id]) && id !in rest
    ensures id in rest + [id] && CanAllFail(statuses, [id])
    ensures var st := TrackerView(statuses);
      id in st && Named(Failing(st, rest)[id]) == statuses[id] &&
      Transition(Failing(st, rest), id, Failed) == Ok(Failing(st, rest + [id]))
  {
    var st := TrackerView(statuses);
    assert id in rest + [id];
    assert Failing(st, rest)[id := Failed] == Failing(st, rest + [id]);
  }

  lemma OneMoreFails(statuses: map<Id, StatusText>, rest: seq<Id>, id: Id, now: nat)
    requires CanAllFail(statuses, rest + [id]) && CanAllFail(statuses, rest) && id !in rest
    requires FailsCleanly(statuses, rest, now)
    ensures FailsCleanly(statuses, rest + [id], now)
  {
    var st, u := TrackerView(statuses), Update(id, Failed, now);
    var before := FailAll(rest, now);
    NextFailIsLegal(statuses, rest, id);
    FailAllAppend(rest, id, now);
    FoldAppend(st, before, u);
    FullRowsAppend(statuses, rest, id, now);
    assert NewHistory(st, before + [u]) ==
           FullRows(statuses, rest, now) + [HistoryRow(id, statuses[id], Named(Failed), now)];
  }

  lemma {:induction false} FailAllIsLegal(statuses: map<Id, StatusText>, stale: seq<Id>, now: nat)
    requires CanAllFail(statuses, stale) && forall i, j :: 0 <= i < j < |stale| ==> stale[i] != stale[j]
    ensures FailsCleanly(statuses, stale, now)
    decreases |stale|
  {
    if stale == [] {
      assert FailAll([], now) == [];
    } else {
      var rest, id := stale[..|stale| - 1], stale[|stale| - 1];
      assert stale == rest + [id] && id !in rest;
      FailAllIsLegal(statuses, rest, now);
      OneMoreFails(statuses, rest, id, now);
    }
  }

  lemma FullRowsIff(statuses: map<Id, StatusText>, stale: seq<Id>, now: nat, outcome: Outcomes)
    requires CanAllFail(statuses, stale)
    ensures SweepRows(statuses, stale, now, outcome) == FullRows(statuses, stale, now) <==>
            forall id :: id in stale ==> outcome(id).readOk
  {
    var rows, full := SweepRows(statuses, stale, now, outcome), FullRows(statuses, stale, now);
    if rows == full {
      forall id | id in stale ensures outcome(id).readOk {
        var i :| 0 <= i < |stale| && stale[i] == id;
        assert rows[i] == full[i] && full[i].fromStatus == statuses[id] && statuses[id].Named?;
      }
    }
  }

  lemma HistoryCancels(a: seq<HistoryRow>, b: seq<HistoryRow>, c: seq<HistoryRow>)
    ensures a + b == a + c <==> b == c
  {
    assert b == (a + b)[|a|..] && c == (a + c)[|a|..];
  }

  /** A sweep is a batch that fails every stale envelope, and a batch of which nothing is refused; it
      writes the same history if and only if it could read every old status. */
  lemma SweepIsABatch(before: Tables, after: Tables, stale: seq<Id>, maxAge: nat, now: nat, outcome: Outcomes)
    requires Swept(before, after, stale, now, outcome) && forall i :: i in stale <==> IsStale(before, maxAge, now, i)
    ensures var st, updates := TrackerView(before.statuses), FailAll(stale, now);
      TrackerView(after.statuses) == FoldTransitions(st, updates) && Split(st, updates, false) == [] &&
      (after.history == before.history + NewHistory(st, updates) <==> forall id :: id in stale ==> outcome(id).readOk)
  {
    FailAllIsLegal(before.statuses, stale, now);
    FullRowsIff(before.statuses, stale, now, outcome);
    HistoryCancels(before.history, SweepRows(before.statuses, stale, now, outcome), FullRows(before.statuses, stale, now));
  }

  /** After a sweep that stopped, what is still stale is exactly what it did not reach. */
  lemma StillStaleAfterPartialSweep(
    before: Tables, after: Tables, swept: seq<Id>, stopped: Id, maxAge: nat, now: nat, outcome: Outcomes, id: Id)
    requires PartlySwept(before, after, swept, stopped, now, outcome)
    ensures IsStale(after, maxAge, now, id) <==>
            IsStale(before, maxAge, now, id) && id !in swept && !(id == stopped && outcome(stopped).statusOk)
  {
  }

  lemma DistinctConcat(statuses: map<Id, StatusText>, a: seq<Id>, b: seq<Id>)
    requires DistinctRows(statuses, a) && DistinctRows(statuses, b) && forall id :: id in a ==> id !in b
    ensures DistinctRows(statuses, a + b)
  {
    forall i, j | 0 <= i < j < |a + b| ensures (a + b)[i] != (a + b)[j] {
      if i < |a| <= j { assert a[i] in a && b[j - |a|] in b; }
    }
  }

  /** Sweeping again completes the statuses; the only row lost is that of the envelope whose status write
      was the last to reach storage. */
  lemma RetryCompletesTheSweep(
    before: Tables, mid: Tables, after: Tables, swept: seq<Id>, stopped: Id, rest: seq<Id>,
    maxAge: nat, now: nat, outcome: Outcomes, outcome': Outcomes)
    requires PartlySwept(before, mid, swept, stopped, now, outcome) && Swept(mid, after, rest, now, outcome')
    requires forall id :: id in rest <==> IsStale(mid, maxAge, now, id)
    requires IsStale(before, maxAge, now, stopped) && forall id :: id in swept ==> IsStale(before, maxAge, now, id)
    ensures after.statuses ==
      map id | id in before.statuses :: if IsStale(before, maxAge, now, id) then Named(Failed) else before.statuses[id]
    ensures DistinctRows(before.statuses, swept + rest)
    ensures after.history ==
      before.history + SweepRows(before.statuses, swept, now, outcome) + SweepRows(before.statuses, rest, now, outcome')
    ensures forall id :: id in swept + rest <==>
      IsStale(before, maxAge, now, id) && !(id == stopped && outcome(stopped).statusOk)
  {
    forall id
      ensures IsStale(mid, maxAge, now, id) <==>
              IsStale(before, maxAge, now, id) && id !in swept && !(id == stopped && outcome(stopped).statusOk)
    {
      StillStaleAfterPartialSweep(before, mid, swept, stopped, maxAge, now, outcome, id);
    }
    DistinctConcat(before.statuses, swept, rest);
    assert SweepRows(before.statuses, rest, now, outcome') == SweepRows(mid.statuses, rest, now, outcome');
  }

  /** Which payments a sweep takes: those enqueued longer ago than the limit whose status column reads
      `queued` or `propagating`. */
  lemma StaleIff(t: Tables, maxAge: nat, now: nat, id: Id)
    ensures IsStale(t, maxAge, now, id) <==>
      id in t.envelopes && id in t.statuses && t.envelopes[id].enqueuedAt + maxAge < now &&
      t.statuses[id].Named? && (Text(t.statuses[id]) == "queued" || Text(t.statuses[id]) == "propagating")
  {
    if id in t.statuses && t.statuses[id].Named? {
      assert Parse(t.statuses[id].status.AsStr()) == Some(t.statuses[id].status);
    }
  }

  /** A new history row says what its update found and did. */
  ghost predicate RowOf(row: HistoryRow, u: Update, found: Status) {
    row.id == u.id && row.toStatus == Named(u.next) && row.timestamp == u.at && row.fromStatus == Named(found)
  }

  /** There is one new row per applied update, in order, and its old status is the one that the rows
      before it left. */
  lemma {:induction false} HistoryIsTheAppliedUpdates(st: Statuses, updates: seq<Update>)
    ensures var rows, applied := NewHistory(st, updates), Split(st, updates, true);
      |rows| == |applied| && forall k :: 0 <= k < |rows| ==>
        applied[k].id in st && RowOf(rows[k], applied[k], WalkEnd(st[applied[k].id], Visited(rows[..k], applied[k].id)))
  {
    if updates != [] {
      var n := |updates| - 1;
      var before, u := updates[..n], updates[n];
      assert updates == before + [u];
      HistoryIsTheAppliedUpdates(st, before);
      FoldAppend(st, before, u);
      if Transition(FoldTransitions(st, before), u.id, u.next).Ok? {
        FoldKeepsKeys(st, before);
        HistoryIsLegalWalk(st, before, u.id);
        var rows, applied := NewHistory(st, before), Split(st, before, true);
        OneMoreRowOf(st, rows, applied, u, FoldTransitions(st, before)[u.id]);
      }
    }
  }

  lemma OneMoreRowOf(st: Statuses, rows: seq<HistoryRow>, applied: seq<Update>, u: Update, found: Status)
    requires |rows| == |applied| && u.id in st && found == WalkEnd(st[u.id], Visited(rows, u.id))
    requires forall k :: 0 <= k < |rows| ==>
      applied[k].id in st && RowOf(rows[k], applied[k], WalkEnd(st[applied[k].id], Visited(rows[..k], applied[k].id)))
    ensures var rows', applied' := rows + [HistoryRow(u.id, Named(found), Named(u.next), u.at)], applied + [u];
      forall k :: 0 <= k < |rows'| ==>
        applied'[k].id in st &&
        RowOf(rows'[k], applied'[k], WalkEnd(st[applied'[k].id], Visited(rows'[..k], applied'[k].id)))
  {
    var row := HistoryRow(u.id, Named(found), Named(u.next), u.at);
    assert (rows + [row])[..|rows|] == rows;
    forall k | 0 <= k < |rows| ensures (rows + [row])[..k] == rows[..k] {
    }
  }
}
