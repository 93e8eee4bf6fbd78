/** Whole runs of reservations, returns and chain observations over one account. */
module SequenceRuns {
  import opened SequenceReservation

  ghost predicate Increasing(s: seq<int>) {
    forall i, j :: 0 <= i < j < |s| ==> s[i] < s[j]
  }

  lemma IncreasingConcat(a: seq<int>, b: seq<int>, bound: int)
    requires Increasing(a) && Increasing(b)
    requires (forall n :: n in a ==> n <= bound) && (forall n :: n in b ==> bound < n)
    ensures Increasing(a + b)
  {
    forall i, j | 0 <= i < j < |a + b| ensures (a + b)[i] < (a + b)[j] {
      if i < |a| <= j {
        assert a[i] in a && b[j - |a|] in b;
      }
    }
  }

  datatype Op = Reserve | GiveBack(sequence: int) | Observe(chain: int)

  /** The book together with what has happened to one account since it was seeded: every chain
      sequence seen (the seed first), the numbers handed out and not given back, and every number
      reported stale, in report order. */
  datatype History = History(book: Book, observed: seq<int>, issued: set<int>, stale: seq<int>)

  function Start(account: Account, seed: int): History {
    History(Seed(Book(map[], map[]), account, seed), [seed], {}, [])
  }

  function Step(h: History, account: Account, op: Op): History {
    match op
    case Reserve => (
      match ReserveNext(h.book, account)
      case Ok((book, n)) => h.(book := book, issued := h.issued + {n})
      case Err(_) => h)
    case GiveBack(sequence) => (
      match Release(h.book, account, sequence)
      case Ok(book) => h.(book := book, issued := h.issued - {sequence})
      case Err(_) => h)
    case Observe(chain) =>
      var (book, outcome) := Reconcile(h.book, account, chain);
      h.(book := book, observed := h.observed + [chain],
         stale := h.stale + if outcome.BehindReality? then outcome.staleSequences else [])
  }

  /** Only an outstanding number is given back: one above the baseline. */
  predicate Allowed(h: History, account: Account, op: Op) {
    (op.GiveBack? && account in h.book.reserved && account in h.book.baseline &&
     op.sequence == h.book.reserved[account]) ==> h.book.reserved[account] > h.book.baseline[account]
  }

  function Run(h: History, account: Account, ops: seq<Op>): History
    decreases |ops|
  {
    if ops == [] then h else Run(Step(h, account, ops[0]), account, ops[1..])
  }

  predicate AllowedRun(h: History, account: Account, ops: seq<Op>)
    decreases |ops|
  {
    ops == [] || (Allowed(h, account, ops[0]) && AllowedRun(Step(h, account, ops[0]), account, ops[1..]))
  }

  ghost predicate Reconciled(h: History, account: Account) {
    account in h.book.baseline && account in h.book.reserved &&
    var baseline, reserved := h.book.baseline[account], h.book.reserved[account];
    // the baseline is the maximum of the seed and everything observed
    baseline in h.observed && (forall n :: n in h.observed ==> n <= baseline) &&
    baseline <= reserved &&
    // a number handed out and kept is outstanding or was reported stale
    (forall n :: n in h.issued <==> n in h.stale || baseline < n <= reserved) &&
    // never both, and no number is reported twice
    (forall n :: n in h.stale ==> n <= baseline) &&
    Increasing(h.stale)
  }

  lemma StepKeepsReconciled(h: History, account: Account, op: Op)
    requires Reconciled(h, account) && Allowed(h, account, op)
    ensures Reconciled(Step(h, account, op), account)
  {
    if op.Observe? {
      var h' := Step(h, account, op);
      var baseline, reserved := h.book.baseline[account], h.book.reserved[account];
      assert h'.observed[|h.observed|] == op.chain;
      if op.chain <= baseline {
        assert h'.stale == h.stale;
      } else {
        var more := After(baseline, if op.chain <= reserved then op.chain else reserved);
        assert h'.stale == h.stale + more;
        IncreasingConcat(h.stale, more, baseline);
        assert forall n :: n in h'.stale <==> n in h.stale || n in more;
      }
    }
  }

  /** In every run the baseline is the maximum of the seed and all observations and never passes the
      reservations; every number handed out and not given back is either outstanding or was
      reported stale exactly once; and the next number exceeds everything observed or issued. */
  lemma {:induction false} RunStaysReconciled(h: History, account: Account, ops: seq<Op>)
    requires Reconciled(h, account) && AllowedRun(h, account, ops)
    ensures var h' := Run(h, account, ops);
      Reconciled(h', account) && ReserveNext(h'.book, account).Ok? &&
      var next := ReserveNext(h'.book, account).value.1;
      (forall n :: n in h'.observed ==> n < next) && (forall n :: n in h'.issued ==> n < next)
    decreases |ops|
  {
    if ops != [] {
      StepKeepsReconciled(h, account, ops[0]);
      RunStaysReconciled(Step(h, account, ops[0]), account, ops[1..]);
    }
  }

  /** The same, from a freshly seeded account. */
  lemma SeededRunStaysReconciled(account: Account, seed: int, ops: seq<Op>)
    requires AllowedRun(Start(account, seed), account, ops)
    ensures Reconciled(Run(Start(account, seed), account, ops), account)
  {
    RunStaysReconciled(Start(account, seed), account, ops);
  }

  /** Giving a number back keeps the order baseline <= reserved exactly when it was outstanding: the
      manager itself does not refuse to give back the seed. */
  lemma GiveBackKeepsOrderIffOutstanding(h: History, account: Account, sequence: int)
    requires Reconciled(h, account) && Release(h.book, account, sequence).Ok?
    ensures Reconciled(Step(h, account, GiveBack(sequence)), account) <==>
            sequence > h.book.baseline[account]
  {
    if sequence > h.book.baseline[account] {
      StepKeepsReconciled(h, account, GiveBack(sequence));
    }
  }
}
