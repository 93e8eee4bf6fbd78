/** Sequence conservation of `SyncEngine` across crashes and storage failures. */
module EngineConservation {
  import opened Settlement
  import opened SequenceReservation
  import opened StorageDb
  import opened EnvelopeBuilder
  import opened EngineMachine
  import opened ConflictDetector

  /** Some durable envelope of the account occupies sequence n. */
  ghost predicate Occupied(t: Tables, account: Account, n: int) {
    exists id :: Occupies(t, id, account, n)
  }

  ghost predicate Occupies(t: Tables, id: Id, account: Account, n: int) {
    id in t.envelopes && t.envelopes[id].account == account && t.envelopes[id].sequence == n
  }

  /** Each account's durable envelopes occupy first+1 .. last reserved, exactly once each. */
  ghost predicate Conserved(t: Tables, first: map<Account, int>) {
    (forall account :: account in first ==> account in t.reservations && first[account] < t.reservations[account]) &&
    (forall account, n ::
       Occupied(t, account, n) <==> account in first && first[account] < n <= t.reservations[account]) &&
    (forall id, id', account, n :: Occupies(t, id, account, n) && Occupies(t, id', account, n) ==> id == id')
  }

  /** Between reservation and the durable write, memory is one ahead. */
  function Ahead(s: Sys, account: Account): int {
    if s.phase.Reserved? && s.phase.row.account == account then 1 else 0
  }

  /** Memory agrees with storage about every account that has paid. */
  ghost predicate BookAgrees(s: Sys, account: Account) {
    account in s.live.book.reserved && account in s.tables.reservations &&
    s.live.book.reserved[account] == s.tables.reservations[account] + Ahead(s, account)
  }

  /** An account that has not paid yet stands at its baseline: no number is burned before the first
      payment. */
  ghost predicate StandsAtBaseline(s: Sys, account: Account)
    requires account in s.live.book.reserved
  {
    account in s.live.book.baseline &&
    s.live.book.reserved[account] == s.live.book.baseline[account] + Ahead(s, account)
  }

  /** A re-seed of an account that has paid already may only repeat its last reserved number. */
  predicate SeedAllowed(s: Sys, account: Account, n: int) {
    account in s.first ==> account in s.tables.reservations && n == s.tables.reservations[account]
  }

  predicate FreshAndSeededFirst(s: Sys, a: Action) {
    Fresh(s, a) && (a.BeginSeed? ==> SeedAllowed(s, a.account, a.n))
  }

  ghost predicate UnpaidAtBaseline(s: Sys) {
    forall account :: account in s.live.book.reserved && account !in s.first ==> StandsAtBaseline(s, account)
  }

  ghost predicate SequencesSound(s: Sys) {
    Conserved(s.tables, s.first) &&
    (!s.phase.Down? ==> forall account :: account in s.first ==> BookAgrees(s, account)) &&
    UnpaidAtBaseline(s) &&
    match s.phase
    case Reserved(row) =>
      row.envelope.messageId !in s.tables.envelopes && row.account in s.live.book.reserved &&
      s.live.book.reserved[row.account] == row.sequence
    case Seeding(account, n) => SeedAllowed(s, account, n)
    case _ => true
  }

  /** Storing a row one past the last reserved number extends the account's interval by one. */
  lemma StoreKeepsConserved(t: Tables, first: map<Account, int>, row: Row)
    requires Conserved(t, first) && row.envelope.messageId !in t.envelopes
    requires row.account in first ==> t.reservations[row.account] + 1 == row.sequence
    ensures Conserved(EnqueueTransaction(t, row),
              if row.account in first then first else first[row.account := row.sequence - 1])
  {
    var t' := EnqueueTransaction(t, row);
    var first' := if row.account in first then first else first[row.account := row.sequence - 1];
    var id := row.envelope.messageId;
    assert forall i, account, n :: Occupies(t', i, account, n) <==>
      Occupies(t, i, account, n) || (i == id && account == row.account && n == row.sequence);
    forall account, n
      ensures Occupied(t', account, n) <==> account in first' && first'[account] < n <= t'.reservations[account]
    {
      if Occupied(t, account, n) {
        var i :| Occupies(t, i, account, n);
        assert Occupies(t', i, account, n);
      }
      if account == row.account && n == row.sequence {
        assert Occupies(t', id, account, n);
      }
    }
    assert !Occupied(t, row.account, row.sequence);
  }

  lemma StoreRowKeepsSequencesSound(s: Sys, row: Row, ok: bool)
    requires SequencesSound(s) && s.phase == Reserved(row)
    ensures SequencesSound(ApplyStoreRow(s, row, ok))
  {
    var s' := ApplyStoreRow(s, row, ok);
    assert row.account in s.first ==> BookAgrees(s, row.account);
    if ok {
      StoreKeepsConserved(s.tables, s.first, row);
    }
    forall account | account in s'.first ensures BookAgrees(s', account) {
      assert account in s.first ==> BookAgrees(s, account);
    }
  }

  lemma BeginQueueKeepsSequencesSound(s: Sys, a: Action)
    requires SequencesSound(s) && s.phase.Idle? && a.BeginQueue? && Fresh(s, a)
    ensures SequencesSound(Apply(s, a))
  {
    var s' := Apply(s, a);
    var book := AutoSeeded(s.live.book, a.claimed);
    BuildReservesIffItSigns(book, a.claimed, a.parsed);
    forall account | account in s'.first ensures BookAgrees(s', account) {
      assert BookAgrees(s, account);
    }
  }

  /** Steps that touch neither reservations nor envelopes. */
  lemma SameSlots(t: Tables, t': Tables, first: map<Account, int>)
    requires Conserved(t, first) && t'.envelopes == t.envelopes
    requires forall account :: account in first ==>
      account in t'.reservations && account in t.reservations && t'.reservations[account] == t.reservations[account]
    ensures Conserved(t', first)
  {
    SameEnvelopesSameSlots(t, t');
  }

  lemma SameEnvelopesSameSlots(t: Tables, t': Tables)
    requires t'.envelopes == t.envelopes
    ensures forall id, account, n :: Occupies(t', id, account, n) <==> Occupies(t, id, account, n)
    ensures forall account, n :: Occupied(t', account, n) <==> Occupied(t, account, n)
  {
    forall account, n ensures Occupied(t', account, n) <==> Occupied(t, account, n) {
      if Occupied(t, account, n) {
        var id :| Occupies(t, id, account, n);
        assert Occupies(t', id, account, n);
      }
      if Occupied(t', account, n) {
        var id :| Occupies(t', id, account, n);
        assert Occupies(t, id, account, n);
      }
    }
  }

  lemma SeedKeepsSequencesSound(s: Sys, a: Action)
    requires SequencesSound(s) && ((s.phase.Idle? && a.BeginSeed?) || (s.phase.Seeding? && a.FinishSeed?))
    requires FreshAndSeededFirst(s, a)
    ensures SequencesSound(Apply(s, a))
  {
    var s' := Apply(s, a);
    SameSlots(s.tables, s'.tables, s.first);
    forall account | account in s'.first ensures BookAgrees(s', account) {
      assert BookAgrees(s, account);
    }
  }

  lemma OthersKeepSequencesSound(s: Sys, a: Action)
    requires SequencesSound(s) && !a.BeginSeed? && !a.FinishSeed?
    requires !(s.phase.Idle? && a.BeginQueue?) && !(s.phase.Reserved? && a.StoreRow?)
    ensures SequencesSound(Apply(s, a))
  {
    var s' := Apply(s, a);
    OthersKeepSlots(s, a);
    SameSlots(s.tables, s'.tables, s.first);
    if !s'.phase.Down? {
      forall account | account in s'.first ensures BookAgrees(s', account) {
        assert !s.phase.Down? ==> BookAgrees(s, account);
      }
    }
  }

  lemma OthersKeepSlots(s: Sys, a: Action)
    requires !a.BeginSeed? && !a.FinishSeed?
    requires !(s.phase.Idle? && a.BeginQueue?) && !(s.phase.Reserved? && a.StoreRow?)
    ensures var s' := Apply(s, a);
      s'.tables.envelopes == s.tables.envelopes && s'.tables.reservations == s.tables.reservations &&
      s'.first == s.first && (s'.phase.Reserved? || s'.phase.Seeding? ==> s' == s) &&
      (!s'.phase.Down? ==> s'.live.book == if s.phase.Down? then Rehydrate(s.tables).book else s.live.book)
  {
  }

  lemma StepKeepsSequencesSound(s: Sys, a: Action)
    requires SequencesSound(s) && FreshAndSeededFirst(s, a)
    ensures SequencesSound(Apply(s, a))
  {
    if s.phase.Idle? && a.BeginQueue? {
      BeginQueueKeepsSequencesSound(s, a);
    } else if s.phase.Reserved? && a.StoreRow? {
      StoreRowKeepsSequencesSound(s, s.phase.row, a.ok);
    } else if !a.BeginSeed? && !a.FinishSeed? {
      OthersKeepSequencesSound(s, a);
    } else if (s.phase.Idle? && a.BeginSeed?) || (s.phase.Seeding? && a.FinishSeed?) {
      SeedKeepsSequencesSound(s, a);
    }
  }

  lemma {:induction false} RunKeepsSequencesSound(s: Sys, actions: seq<Action>)
    requires SequencesSound(s) && Respects(s, actions, FreshAndSeededFirst)
    ensures SequencesSound(Run(s, actions))
    decreases |actions|
  {
    if actions != [] {
      StepKeepsSequencesSound(s, actions[0]);
      RunKeepsSequencesSound(Apply(s, actions[0]), actions[1..]);
    }
  }

  /** The first stored payment of an account takes the number after its baseline, and the baseline is
      what the account's interval starts from. */
  lemma FirstPaymentStartsAtTheBaseline(s: Sys, row: Row)
    requires SequencesSound(s) && s.phase == Reserved(row) && row.account !in s.first
    ensures row.account in s.live.book.baseline && row.sequence == s.live.book.baseline[row.account] + 1
    ensures row.account in Apply(s, StoreRow(true)).first &&
            Apply(s, StoreRow(true)).first[row.account] == s.live.book.baseline[row.account]
  {
    assert StandsAtBaseline(s, row.account);
  }

  /** A baseline is the last seed, the automatic 0 of an account never seen, or the durable reservation
      that `open` found; nothing else moves it. */
  lemma BaselineMovesOnlyBySeeds(s: Sys, a: Action, account: Account)
    requires var s' := Apply(s, a);
      account in s'.live.book.baseline &&
      (account in s.live.book.baseline ==> s'.live.book.baseline[account] != s.live.book.baseline[account])
    ensures var n := Apply(s, a).live.book.baseline[account];
      (a == BeginSeed(account, n)) ||
      (a.BeginQueue? && a.claimed == account && account !in s.live.book.reserved && n == 0) ||
      (a == Reopen(true) && account in s.tables.reservations && n == s.tables.reservations[account])
  {
    if a.BeginQueue? && s.phase.Idle? {
      BuildReservesIffItSigns(AutoSeeded(s.live.book, a.claimed), a.claimed, a.parsed);
    }
  }

  /** The account's payments start after n: nothing has moved the base, and nothing falls back to the
      automatic 0 unless n is 0. */
  ghost predicate RootedAt(s: Sys, account: Account, n: int) {
    (account in s.first ==> s.first[account] == n) &&
    (account !in s.first && account in s.tables.reservations ==> s.tables.reservations[account] == n) &&
    (account !in s.first && account in s.live.book.reserved ==>
       account in s.live.book.baseline && s.live.book.baseline[account] == n) &&
    (n != 0 ==> account in s.tables.reservations && (!s.phase.Down? ==> account in s.live.book.reserved)) &&
    (s.phase.Seeding? ==> s.phase.account != account)
  }

  predicate Seeds(a: Action, account: Account) {
    a.BeginSeed? && a.account == account
  }

  lemma PaymentStepKeepsRooted(s: Sys, a: Action, account: Account, n: int)
    requires SequencesSound(s) && RootedAt(s, account, n)
    requires (s.phase.Idle? && a.BeginQueue?) || (s.phase.Reserved? && a.StoreRow?)
    ensures RootedAt(Apply(s, a), account, n)
  {
    if a.BeginQueue? {
      BuildReservesIffItSigns(AutoSeeded(s.live.book, a.claimed), a.claimed, a.parsed);
    } else if s.phase.row.account !in s.first {
      FirstPaymentStartsAtTheBaseline(s, s.phase.row);
    }
  }

  lemma OtherStepKeepsRooted(s: Sys, a: Action, account: Account, n: int)
    requires SequencesSound(s) && RootedAt(s, account, n) && !Seeds(a, account)
    requires !(s.phase.Idle? && a.BeginQueue?) && !(s.phase.Reserved? && a.StoreRow?)
    ensures RootedAt(Apply(s, a), account, n)
  {
    if !a.BeginSeed? && !a.FinishSeed? {
      OthersKeepSlots(s, a);
    }
  }

  lemma {:induction false} RunKeepsRooted(s: Sys, actions: seq<Action>, account: Account, n: int)
    requires SequencesSound(s) && RootedAt(s, account, n) && Respects(s, actions, FreshAndSeededFirst)
    requires forall a :: a in actions ==> !Seeds(a, account)
    ensures SequencesSound(Run(s, actions)) && RootedAt(Run(s, actions), account, n)
    decreases |actions|
  {
    if actions != [] {
      var a := actions[0];
      StepKeepsSequencesSound(s, a);
      if (s.phase.Idle? && a.BeginQueue?) || (s.phase.Reserved? && a.StoreRow?) {
        PaymentStepKeepsRooted(s, a, account, n);
      } else {
        OtherStepKeepsRooted(s, a, account, n);
      }
      RunKeepsRooted(Apply(s, a), actions[1..], account, n);
    }
  }

  /** The account's stored payments occupy n+1 .. last reserved, exactly once each. */
  ghost predicate PaidFrom(t: Tables, account: Account, n: int) {
    (forall m :: Occupied(t, account, m) <==> account in t.reservations && n < m <= t.reservations[account]) &&
    forall id, id', m :: Occupies(t, id, account, m) && Occupies(t, id', account, m) ==> id == id'
  }

  lemma RootedIsPaidFrom(s: Sys, account: Account, n: int)
    requires SequencesSound(s) && RootedAt(s, account, n)
    ensures PaidFrom(s.tables, account, n)
  {
  }

  lemma SeedResult(s: Sys, account: Account, n: int)
    requires s.phase.Idle?
    ensures Run(s, [BeginSeed(account, n), FinishSeed(true)]) ==
            s.(live := s.live.(book := Seed(s.live.book, account, n)), tables := SaveReservation(s.tables, account, n))
  {
    RunOf2(s, BeginSeed(account, n), FinishSeed(true));
  }

  /** In every run with crashes and storage failures at any step, no sequence number is skipped and
      none is used twice: from the seed on, an account's stored payments occupy exactly seed+1 .. last
      reserved. The seed is the last one before the account's first payment. */
  lemma SeededAccountIsConserved(before: seq<Action>, account: Account, seed: int, after: seq<Action>)
    requires Respects(INIT, before, FreshAndSeededFirst)
    requires Run(INIT, before).phase.Idle? && account !in Run(INIT, before).first
    requires Respects(Run(Run(INIT, before), [BeginSeed(account, seed), FinishSeed(true)]), after, FreshAndSeededFirst)
    requires forall a :: a in after ==> !Seeds(a, account)
    ensures var s' := Run(Run(Run(INIT, before), [BeginSeed(account, seed), FinishSeed(true)]), after);
      PaidFrom(s'.tables, account, seed) && account in s'.tables.reservations && s'.tables.reservations[account] >= seed
  {
    RunKeepsSequencesSound(INIT, before);
    var s := Run(INIT, before);
    var seeded := Run(s, [BeginSeed(account, seed), FinishSeed(true)]);
    SeedResult(s, account, seed);
    SeedKeepsSequencesSound(s, BeginSeed(account, seed));
    SeedKeepsSequencesSound(Apply(s, BeginSeed(account, seed)), FinishSeed(true));
    RunOf2(s, BeginSeed(account, seed), FinishSeed(true));
    SeededStaysReserved(seeded, after, account);
    RunKeepsRooted(seeded, after, account, seed);
    RootedIsPaidFrom(Run(seeded, after), account, seed);
  }

  lemma {:induction false} SeededStaysReserved(s: Sys, actions: seq<Action>, account: Account)
    requires account in s.tables.reservations
    ensures account in Run(s, actions).tables.reservations
    decreases |actions|
  {
    if actions != [] {
      SeededStaysReserved(Apply(s, actions[0]), actions[1..], account);
    }
  }

  /** An account that is never seeded starts at 1. */
  lemma UnseededAccountIsConserved(actions: seq<Action>, account: Account)
    requires Respects(INIT, actions, FreshAndSeededFirst)
    requires forall a :: a in actions ==> !Seeds(a, account)
    ensures PaidFrom(Run(INIT, actions).tables, account, 0)
  {
    RunKeepsRooted(INIT, actions, account, 0);
    RootedIsPaidFrom(Run(INIT, actions), account, 0);
  }

  /** The same for all accounts together, from wherever each started. */
  lemma SequencesAreConserved(actions: seq<Action>)
    requires Respects(INIT, actions, FreshAndSeededFirst)
    ensures Conserved(Run(INIT, actions).tables, Run(INIT, actions).first)
  {
    RunKeepsSequencesSound(INIT, actions);
  }

  /** The slots of the durable envelopes, in whatever order they are listed. */
  ghost predicate SlotsOf(t: Tables, slots: seq<QueuedSlot>) {
    forall s :: s in slots <==> Occupies(t, s.id, s.account, s.sequence)
  }

  /** So conflict detection over everything stored reports nothing: the device never double-spends
      against itself. */
  lemma NoSelfConflictInAnyRun(actions: seq<Action>, slots: seq<QueuedSlot>, conflicts: seq<Conflict>)
    requires Respects(INIT, actions, FreshAndSeededFirst) && SlotsOf(Run(INIT, actions).tables, slots)
    requires forall c :: c in conflicts <==> IsConflict(slots, c)
    ensures conflicts == []
  {
    SequencesAreConserved(actions);
    forall c ensures !IsConflict(slots, c) {
      ConservedSlotsDoNotConflict(Run(INIT, actions).tables, Run(INIT, actions).first, slots, c);
    }
    FirstIsElement(conflicts);
  }

  lemma ConservedSlotsDoNotConflict(t: Tables, first: map<Account, int>, slots: seq<QueuedSlot>, c: Conflict)
    requires Conserved(t, first) && SlotsOf(t, slots)
    ensures !IsConflict(slots, c)
  {
    var x, y := QueuedSlot(c.account, c.sequence, c.a), QueuedSlot(c.account, c.sequence, c.b);
    assert x in slots ==> Occupies(t, x.id, c.account, c.sequence);
    assert y in slots ==> Occupies(t, y.id, c.account, c.sequence);
  }

  lemma FirstIsElement<T>(s: seq<T>)
    ensures s != [] ==> s[0] in s
  {
  }

  /** The restriction on seeds is exact: a completed re-seed after an account's first payment keeps
      storage and memory conserved exactly when it repeats the last reserved number. */
  lemma ReseedIsSoundIffItRepeats(s: Sys, account: Account, n: int)
    requires SequencesSound(s) && s.phase.Idle? && account in s.first
    ensures SequencesSound(Run(s, [BeginSeed(account, n), FinishSeed(true)])) <==>
            n == s.tables.reservations[account]
  {
    var seeding := Apply(s, BeginSeed(account, n));
    var s' := Apply(seeding, FinishSeed(true));
    assert Run(s, [BeginSeed(account, n), FinishSeed(true)]) == s' by {
      assert [BeginSeed(account, n), FinishSeed(true)][1..] == [FinishSeed(true)];
      assert Run(seeding, [FinishSeed(true)]) == Run(s', []);
    }
    if n == s.tables.reservations[account] {
      SeedKeepsSequencesSound(s, BeginSeed(account, n));
      SeedKeepsSequencesSound(seeding, FinishSeed(true));
    } else {
      var last := s.tables.reservations[account];
      SameEnvelopesSameSlots(s.tables, s'.tables);
      if n < last {
        assert Occupied(s'.tables, account, last);
      } else {
        assert !Occupied(s'.tables, account, n);
      }
    }
  }
}
