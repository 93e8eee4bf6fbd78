/** Sequence-number reservation and reconciliation of src/queue/sequence.rs. */
module SequenceReservation {
  import opened Wrappers

  type Account = string

  datatype SequenceError =
    | NoSequenceReserved(account: Account)
    | SequenceOutOfOrder(account: Account, requested: int, lastReserved: int)

  datatype ReconciliationOutcome =
    | NoDrift
    | BehindReality(staleSequences: seq<int>, newBaseline: int)
    | AheadOfReality(observed: int, baseline: int)

  /** The two maps of the manager, as a value. */
  datatype Book = Book(baseline: map<Account, int>, reserved: map<Account, int>)

  function Seed(book: Book, account: Account, n: int): Book {
    Book(book.baseline[account := n], book.reserved[account := n])
  }

  function Release(book: Book, account: Account, sequence: int): Result<Book, SequenceError> {
    if account !in book.reserved then Err(NoSequenceReserved(account))
    else
      var last := book.reserved[account];
      if last != sequence then Err(SequenceOutOfOrder(account, sequence, last))
      else Ok(book.(reserved := book.reserved[account := last - 1]))
  }

  function ReserveNext(book: Book, account: Account): Result<(Book, int), SequenceError> {
    if account !in book.reserved then Err(NoSequenceReserved(account))
    else
      var next := book.reserved[account] + 1;
      Ok((book.(reserved := book.reserved[account := next]), next))
  }

  /** The numbers lo+1 .. hi, in order. */
  function After(lo: int, hi: int): (r: seq<int>)
    ensures |r| == if hi > lo then hi - lo else 0
    ensures forall i :: 0 <= i < |r| ==> r[i] == lo + 1 + i
    ensures forall n :: n in r <==> lo < n <= hi
    decreases hi - lo
  {
    if lo >= hi then [] else After(lo, hi - 1) + [hi]
  }

  function Reconcile(book: Book, account: Account, observed: int): (Book, ReconciliationOutcome) {
    if account !in book.baseline then (Seed(book, account, observed), NoDrift)
    else
      var baseline := book.baseline[account];
      if observed == baseline then (book, NoDrift)
      else if observed < baseline then (book, AheadOfReality(observed, baseline))
      else
        var reserved := if account in book.reserved then book.reserved[account] else baseline;
        var staleEnd := if observed <= reserved then observed else reserved;
        (Book(book.baseline[account := observed],
              if observed > reserved then book.reserved[account := observed] else book.reserved),
         BehindReality(After(baseline, staleEnd), observed))
  }

  class SequenceReservationManager {
    var baseline: map<Account, int>
    var reserved: map<Account, int>

    function AsBook(): Book
      reads this
    {
      Book(baseline, reserved)
    }

    constructor ()
      ensures AsBook() == Book(map[], map[])
    {
      baseline, reserved := map[], map[];
    }

    method SeedAccount(account: Account, n: int)
      modifies this
      ensures AsBook() == Seed(old(AsBook()), account, n)
    {
      baseline := baseline[account := n];
      reserved := reserved[account := n];
    }

    method ReserveNextFor(account: Account) returns (r: Result<int, SequenceError>)
      modifies this
      ensures match ReserveNext(old(AsBook()), account)
              case Ok((book, n)) => r == Ok(n) && AsBook() == book
              case Err(e) => r == Err(e) && AsBook() == old(AsBook())
    {
      if account !in reserved {
        return Err(NoSequenceReserved(account));
      }
      var next := reserved[account] + 1;
      reserved := reserved[account := next];
      return Ok(next);
    }

    method ReleaseFor(account: Account, sequence: int) returns (r: Result<(), SequenceError>)
      modifies this
      ensures match Release(old(AsBook()), account, sequence)
              case Ok(book) => r == Ok(()) && AsBook() == book
              case Err(e) => r == Err(e) && AsBook() == old(AsBook())
    {
      if account !in reserved {
        return Err(NoSequenceReserved(account));
      }
      var last := reserved[account];
      if last != sequence {
        return Err(SequenceOutOfOrder(account, sequence, last));
      }
      reserved := reserved[account := last - 1];
      return Ok(());
    }

    method ReconcileAccount(account: Account, observed: int) returns (outcome: ReconciliationOutcome)
      modifies this
      ensures (AsBook(), outcome) == Reconcile(old(AsBook()), account, observed)
    {
      if account !in baseline {
        SeedAccount(account, observed);
        return NoDrift;
      }
      var current := baseline[account];
      if observed == current {
        return NoDrift;
      }
      if observed < current {
        return AheadOfReality(observed, current);
      }
      var last := if account in reserved then reserved[account] else current;
      var staleEnd := if observed <= last then observed else last;
      var stale, n := [], current;
      while n < staleEnd
        invariant n <= staleEnd || n == current
        invariant n >= current && stale == After(current, n)
      {
        n := n + 1;
        stale := stale + [n];
      }
      assert stale == After(current, staleEnd);
      baseline := baseline[account := observed];
      if observed > last {
        reserved := reserved[account := observed];
      }
      return BehindReality(stale, observed);
    }
  }

  // ---- The operations, one account against all others ----

  ghost predicate OthersKept(before: Book, after: Book, account: Account) {
    after.baseline - {account} == before.baseline - {account} && after.reserved - {account} == before.reserved - {account}
  }

  /** Reserving hands out the number after the last one; giving that one back restores the book. */
  lemma ReserveThenRelease(book: Book, account: Account)
    ensures account !in book.reserved ==> ReserveNext(book, account) == Err(NoSequenceReserved(account))
    ensures account in book.reserved ==>
      var r := ReserveNext(book, account);
      r.Ok? && r.value.1 == book.reserved[account] + 1 && OthersKept(book, r.value.0, account) &&
      r.value.0.baseline == book.baseline && account in r.value.0.reserved &&
      r.value.0.reserved[account] == r.value.1 && Release(r.value.0, account, r.value.1) == Ok(book)
  {
    if account in book.reserved {
      var bumped := book.reserved[account := book.reserved[account] + 1];
      assert bumped[account := bumped[account] - 1] == book.reserved;
    }
  }

  /** Only the last number is taken back, and only by naming it. */
  lemma ReleaseAnswers(book: Book, account: Account, sequence: int)
    ensures var r := Release(book, account, sequence);
      (account !in book.reserved ==> r == Err(NoSequenceReserved(account))) &&
      (account in book.reserved && book.reserved[account] != sequence ==>
         r == Err(SequenceOutOfOrder(account, sequence, book.reserved[account]))) &&
      (account in book.reserved && book.reserved[account] == sequence ==>
         r.Ok? && r.value.baseline == book.baseline && OthersKept(book, r.value, account) &&
         account in r.value.reserved && r.value.reserved[account] == sequence - 1)
  {
  }

  /** Every answer of a reconciliation, and what it does to the book: an unknown account is seeded; an
      observation at or below the baseline changes nothing; one above it becomes the baseline, lifts a
      reservation below it, and reports exactly the reserved numbers it has overtaken. */
  lemma ReconcileAnswers(book: Book, account: Account, observed: int)
    ensures var (after, outcome) := Reconcile(book, account, observed);
      var last := if account in book.reserved then Some(book.reserved[account])
                  else if account in book.baseline then Some(book.baseline[account]) else None;
      OthersKept(book, after, account) &&
      if account !in book.baseline then
        outcome == NoDrift && account in after.baseline && account in after.reserved &&
        after.baseline[account] == observed && after.reserved[account] == observed
      else if observed <= book.baseline[account] then
        after == book &&
        outcome == if observed == book.baseline[account] then NoDrift
                   else AheadOfReality(observed, book.baseline[account])
      else
        account in after.baseline && after.baseline[account] == observed &&
        (last.value < observed ==> account in after.reserved && after.reserved[account] == observed) &&
        (last.value >= observed ==> after.reserved == book.reserved) &&
        outcome.BehindReality? && outcome.newBaseline == observed &&
        (forall i, j :: 0 <= i < j < |outcome.staleSequences| ==>
           outcome.staleSequences[i] < outcome.staleSequences[j]) &&
        forall n :: n in outcome.staleSequences <==>
          book.baseline[account] < n <= observed && n <= last.value
  {
  }
}
