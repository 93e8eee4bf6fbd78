/** Reservation-coupled signing of src/envelope/builder.rs. */
module EnvelopeBuilder {
  import opened Wrappers
  import opened SequenceReservation

  datatype BuildError =
    | InvalidXdr
    | SourceAccountMismatch(claimed: Account, actual: Account)
    | Sequence(error: SequenceError)
    | SequenceMismatch(account: Account, reserved: int, encoded: int)

  /** What the wallet's transaction encodes, when it parses at all. */
  type Parsed = Option<(Account, int)>

  /** `build_and_sign` as a change of the book: the sequence number the envelope occupies, or an
      error with every reservation rolled back. */
  function BuildAndSign(book: Book, claimed: Account, parsed: Parsed): (Book, Result<int, BuildError>) {
    if parsed.None? then (book, Err(InvalidXdr))
    else
      var (account, sequence) := parsed.value;
      if claimed != account then (book, Err(SourceAccountMismatch(claimed, account)))
      else
        match ReserveNext(book, account)
        case Err(e) => (book, Err(Sequence(e)))
        case Ok((reservedBook, reserved)) =>
          if reserved != sequence then
            (match Release(reservedBook, account, reserved) case Ok(b) => b case Err(_) => reservedBook,
             Err(SequenceMismatch(account, reserved, sequence)))
          else (reservedBook, Ok(sequence))
  }

  /** Nothing is reserved without an envelope, and an envelope gets the number its own transaction
      carries, which is the next one of its account. */
  lemma BuildReservesIffItSigns(book: Book, claimed: Account, parsed: Parsed)
    ensures var (after, result) := BuildAndSign(book, claimed, parsed);
      (result.Ok? <==> parsed.Some? && parsed.value.0 == claimed && claimed in book.reserved &&
                       parsed.value.1 == book.reserved[claimed] + 1) &&
      (result.Err? ==> after == book) &&
      (result.Ok? ==> result.value == parsed.value.1 &&
                      after == book.(reserved := book.reserved[claimed := result.value]))
  {
    if claimed in book.reserved {
      var bumped := book.reserved[claimed := book.reserved[claimed] + 1];
      assert bumped[claimed := bumped[claimed] - 1] == book.reserved;
    }
  }

  method BuildAndSignEnvelope(sequences: SequenceReservationManager, claimed: Account, parsed: Parsed)
    returns (result: Result<int, BuildError>)
    modifies sequences
    ensures (sequences.AsBook(), result) == BuildAndSign(old(sequences.AsBook()), claimed, parsed)
  {
    if parsed.None? {
      return Err(InvalidXdr);
    }
    var (account, sequence) := parsed.value;
    if claimed != account {
      return Err(SourceAccountMismatch(claimed, account));
    }
    var reserved := sequences.ReserveNextFor(account);
    if reserved.Err? {
      return Err(Sequence(reserved.error));
    }
    if reserved.value != sequence {
      var _ := sequences.ReleaseFor(account, reserved.value);
      return Err(SequenceMismatch(account, reserved.value, sequence));
    }
    return Ok(sequence);
  }

  /** Each refusal says why, in the order of the checks. */
  lemma RefusalsSayWhy(book: Book, claimed: Account, parsed: Parsed)
    ensures var result := BuildAndSign(book, claimed, parsed).1;
      (parsed.None? ==> result == Err(InvalidXdr)) &&
      (parsed.Some? && parsed.value.0 != claimed ==>
         result == Err(SourceAccountMismatch(claimed, parsed.value.0))) &&
      (parsed.Some? && parsed.value.0 == claimed && claimed !in book.reserved ==>
         result == Err(Sequence(NoSequenceReserved(claimed)))) &&
      (parsed.Some? && parsed.value.0 == claimed && claimed in book.reserved &&
       parsed.value.1 != book.reserved[claimed] + 1 ==>
         result == Err(SequenceMismatch(claimed, book.reserved[claimed] + 1, parsed.value.1)))
  {
  }
}
