/** The log entries and the append-only log of src/settlement/transparency_log.rs. */
module TransparencyLog {
  import opened Encoding
  import opened Wrappers
  import opened MerkleTree
  import opened MerkleProofs
  import Settlement

  /** Strings are given by their UTF-8 bytes. */
  datatype LogEntry = LogEntry(
    index: nat, messageId: Bytes, fromStatus: Bytes, toStatus: Bytes, timestamp: nat)

  // ---- The byte encoding of an entry ----

  /** `to_hash_bytes`: the two status strings are joined without a separator. */
  function ToHashBytes(e: LogEntry): Bytes {
    LittleEndian(e.index, 8) + e.messageId + (e.fromStatus + e.toStatus) + LittleEndian(e.timestamp, 8)
  }

  function LeafOf(e: LogEntry): Hash {
    LeafHash(ToHashBytes(e))
  }

  /** The ranges that the Rust types give an entry: u64, [u8; 32], u64. */
  predicate InRange(e: LogEntry) {
    e.index < TWO_TO_64 && |e.messageId| == 32 && e.timestamp < TWO_TO_64
  }

  function Name(status: Settlement.Status): Bytes {
    Ascii(status.AsStr())
  }

  ghost predicate IsName(bytes: Bytes) {
    exists status :: bytes == Name(status)
  }

  /** Both statuses come from the settlement vocabulary; the first transition has no `from`. */
  ghost predicate UsesStatusNames(e: LogEntry) {
    (e.fromStatus == [] || IsName(e.fromStatus)) && IsName(e.toStatus)
  }

  /** The fourth and third characters from the end tell the five names apart. */
  function Fingerprint(status: Settlement.Status): (char, char) {
    match status
    case Queued => ('e', 'u')
    case Propagating => ('t', 'i')
    case Settled => ('t', 'l')
    case Failed => ('i', 'l')
    case Disputed => ('u', 't')
  }

  lemma FingerprintOfName(status: Settlement.Status)
    ensures var b := Name(status);
      |b| >= 6 && b[|b| - 4] == Fingerprint(status).0 as nat && b[|b| - 3] == Fingerprint(status).1 as nat
  {
    assert Settlement.Status.Queued.AsStr()[2] == 'e' && Settlement.Status.Queued.AsStr()[3] == 'u';
    assert Settlement.Status.Propagating.AsStr()[7] == 't' && Settlement.Status.Propagating.AsStr()[8] == 'i';
    assert Settlement.Status.Settled.AsStr()[3] == 't' && Settlement.Status.Settled.AsStr()[4] == 'l';
    assert Settlement.Status.Failed.AsStr()[2] == 'i' && Settlement.Status.Failed.AsStr()[3] == 'l';
    assert Settlement.Status.Disputed.AsStr()[4] == 'u' && Settlement.Status.Disputed.AsStr()[5] == 't';
  }

  /** No name ends in another one, so a joined pair of statuses splits in one way only. */
  lemma JoinedNamesSplitUniquely(from1: Bytes, to1: Bytes, from2: Bytes, to2: Bytes)
    requires IsName(to1) && IsName(to2) && from1 + to1 == from2 + to2
    ensures from1 == from2 && to1 == to2
  {
    var s :| to1 == Name(s);
    var t :| to2 == Name(t);
    TailOfJoined(from1, s);
    TailOfJoined(from2, t);
    FingerprintsDiffer(s, t);
    SplitAtSameLength(from1, to1, from2, to2);
  }

  lemma TailOfJoined(from: Bytes, status: Settlement.Status)
    ensures var joined := from + Name(status);
      |joined| >= 6 && joined[|joined| - 4] == Fingerprint(status).0 as nat &&
      joined[|joined| - 3] == Fingerprint(status).1 as nat
  {
    FingerprintOfName(status);
  }

  lemma FingerprintsDiffer(s: Settlement.Status, t: Settlement.Status)
    requires Fingerprint(s).0 as nat == Fingerprint(t).0 as nat && Fingerprint(s).1 as nat == Fingerprint(t).1 as nat
    ensures s == t
  {
    assert Fingerprint(s) == Fingerprint(t);
  }

  lemma SplitAtSameLength(a: Bytes, b: Bytes, c: Bytes, d: Bytes)
    requires a + b == c + d && |b| == |d|
    ensures a == c && b == d
  {
    assert a == (a + b)[..|a|] && b == (a + b)[|a|..];
    assert c == (c + d)[..|c|] && d == (c + d)[|c|..];
  }

  /** Where the fields of an entry stand in what is hashed: index, id, old status, new status, timestamp,
      the two numbers from their lowest byte. */
  lemma LeafLayout(e: LogEntry)
    requires InRange(e)
    ensures LeafOf(e).LeafHash?
    ensures var b := LeafOf(e).bytes; var m := 40 + |e.fromStatus|; var n := m + |e.toStatus|;
      |b| == n + 8 && b[8..40] == e.messageId && b[40..m] == e.fromStatus && b[m..n] == e.toStatus &&
      (forall k :: 0 <= k < 8 ==> b[k] == (e.index / Power256(k)) % 256) &&
      forall k :: 0 <= k < 8 ==> b[n + k] == (e.timestamp / Power256(k)) % 256
  {
    forall k | 0 <= k < 8
      ensures LittleEndian(e.index, 8)[k] == (e.index / Power256(k)) % 256
      ensures LittleEndian(e.timestamp, 8)[k] == (e.timestamp / Power256(k)) % 256
    {
      LittleEndianDigit(e.index, 8, k);
      LittleEndianDigit(e.timestamp, 8, k);
    }
  }

  /** The parts of the encoding: two fixed-width numbers, a fixed-width id and the joined statuses. */
  lemma HashBytesParts(e: LogEntry, f: LogEntry)
    requires InRange(e) && InRange(f) && ToHashBytes(e) == ToHashBytes(f)
    ensures e.index == f.index && e.messageId == f.messageId && e.timestamp == f.timestamp
    ensures e.fromStatus + e.toStatus == f.fromStatus + f.toStatus
  {
    var b := ToHashBytes(e);
    var n := |b|;
    assert Bound(8) == TWO_TO_64;
    assert b[..8] == LittleEndian(e.index, 8) && b[..8] == LittleEndian(f.index, 8);
    assert b[8..40] == e.messageId && b[8..40] == f.messageId;
    assert b[40..n - 8] == e.fromStatus + e.toStatus && b[40..n - 8] == f.fromStatus + f.toStatus;
    assert b[n - 8..] == LittleEndian(e.timestamp, 8) && b[n - 8..] == LittleEndian(f.timestamp, 8);
    LittleEndianInjective(e.index, f.index, 8);
    LittleEndianInjective(e.timestamp, f.timestamp, 8);
  }

  /** Without any vocabulary: two entries have one leaf hash if and only if they agree in index, id,
      timestamp and the two statuses read as one string. */
  lemma LeavesCollideIff(e: LogEntry, f: LogEntry)
    requires InRange(e) && InRange(f)
    ensures LeafOf(e) == LeafOf(f) <==>
      e.index == f.index && e.messageId == f.messageId && e.timestamp == f.timestamp &&
      e.fromStatus + e.toStatus == f.fromStatus + f.toStatus
  {
    if LeafOf(e) == LeafOf(f) { HashBytesParts(e, f); }
  }

  /** Entries over the status vocabulary are decodable from their hash bytes. */
  lemma HashBytesInjective(e: LogEntry, f: LogEntry)
    requires InRange(e) && InRange(f) && UsesStatusNames(e) && UsesStatusNames(f)
    ensures ToHashBytes(e) == ToHashBytes(f) <==> e == f
  {
    if ToHashBytes(e) == ToHashBytes(f) {
      HashBytesParts(e, f);
      JoinedNamesSplitUniquely(e.fromStatus, e.toStatus, f.fromStatus, f.toStatus);
    }
  }

  /** So outside the vocabulary bytes can move across the join, as from ("a", "bc") to ("ab", "c"). */
  lemma UnseparatedStatusesCollide(e: LogEntry, a: Bytes, moved: Bytes, c: Bytes)
    requires moved != []
    ensures var left := e.(fromStatus := a, toStatus := moved + c);
            var right := e.(fromStatus := a + moved, toStatus := c);
            left != right && LeafOf(left) == LeafOf(right)
  {
    assert |a| < |a + moved|;
    assert a + (moved + c) == (a + moved) + c;
  }

  // ---- The log ----

  /** What `append` maintains. */
  ghost predicate Consistent(entries: seq<LogEntry>, leaves: seq<Hash>, root: Hash) {
    |entries| == |leaves| && root == RootHash(leaves) &&
    forall i :: 0 <= i < |entries| ==> entries[i].index == i && leaves[i] == LeafOf(entries[i])
  }

  /** What `verify_integrity` checks; `zip` stops at the shorter of the two lists. */
  ghost predicate IntegrityOk(entries: seq<LogEntry>, leaves: seq<Hash>, root: Hash) {
    root == RootHash(leaves) &&
    forall i :: 0 <= i < |entries| && i < |leaves| ==> leaves[i] == LeafOf(entries[i])
  }

  ghost predicate WellFormed(entries: seq<LogEntry>) {
    forall i :: 0 <= i < |entries| ==> InRange(entries[i]) && UsesStatusNames(entries[i])
  }

  /** One root, one history: states that pass the integrity check with as many leaves as entries
      have the same root exactly when they have the same entries. */
  lemma RootBindsEntries(
    entries: seq<LogEntry>, leaves: seq<Hash>, root: Hash,
    entries': seq<LogEntry>, leaves': seq<Hash>, root': Hash)
    requires IntegrityOk(entries, leaves, root) && |entries| == |leaves| && WellFormed(entries)
    requires IntegrityOk(entries', leaves', root') && |entries'| == |leaves'| && WellFormed(entries')
    ensures root == root' <==> entries == entries'
  {
    RootBindsLeaves(leaves, leaves');
    if root == root' {
      forall i | 0 <= i < |entries| ensures entries[i] == entries'[i] {
        assert leaves[i] == leaves'[i];
        HashBytesInjective(entries[i], entries'[i]);
      }
    }
    if entries == entries' {
      assert leaves == leaves';
    }
  }

  /** The length condition is needed: because `zip` truncates, dropping entries off the end (or
      adding any) leaves the integrity check satisfied. */
  lemma IntegrityIgnoresSurplusEntries(
    entries: seq<LogEntry>, leaves: seq<Hash>, root: Hash, surplus: seq<LogEntry>, keep: nat)
    requires IntegrityOk(entries, leaves, root) && |entries| == |leaves| && keep <= |entries|
    ensures IntegrityOk(entries + surplus, leaves, root) && IntegrityOk(entries[..keep], leaves, root)
  {
  }

  /** Exactly when surplus or missing entries go unnoticed: of two states with one root, the first one
      whole, the second one holds the same history if and only if it has as many entries as leaves. */
  lemma SameHistoryIffMatched(
    entries: seq<LogEntry>, leaves: seq<Hash>, entries': seq<LogEntry>, leaves': seq<Hash>, root: Hash)
    requires IntegrityOk(entries, leaves, root) && |entries| == |leaves| && WellFormed(entries)
    requires IntegrityOk(entries', leaves', root) && AllLeaves(leaves') && WellFormed(entries')
    ensures entries == entries' <==> |entries'| == |leaves'|
  {
    RootBindsLeaves(leaves, leaves');
    if |entries'| == |leaves'| {
      RootBindsEntries(entries, leaves, root, entries', leaves', root);
    }
  }

  /** Soundness of inclusion: any path from the hash of an entry to the root of a log means that
      the log holds this entry, at the index the entry names. */
  lemma InclusionProvesMembership(
    entries: seq<LogEntry>, leaves: seq<Hash>, root: Hash, e: LogEntry, proof: InclusionProof)
    requires Consistent(entries, leaves, root) && entries != [] && WellFormed(entries)
    requires InRange(e) && UsesStatusNames(e)
    requires proof.leafHash == LeafOf(e) && proof.rootHash == root
    requires ClimbAll(proof.leafHash, proof.path) == proof.rootHash
    ensures e.index < |entries| && entries[e.index] == e
  {
    InclusionIsSound(leaves, LeafOf(e), proof.path);
    var i :| 0 <= i < |leaves| && leaves[i] == LeafOf(e);
    HashBytesInjective(entries[i], e);
  }

  class TransparencyLog {
    var entries: seq<LogEntry>
    var leaves: seq<Hash>
    var root: Hash

    ghost predicate Valid()
      reads this
    {
      Consistent(entries, leaves, root)
    }

    constructor ()
      ensures Valid() && entries == []
    {
      entries, leaves, root := [], [], EmptyHash;
    }

    /** `append`: the index is the log's, not the caller's. */
    method Append(entry: LogEntry)
      requires Valid()
      modifies this
      ensures Valid() && entries == old(entries) + [entry.(index := |old(entries)|)]
      ensures leaves[..|old(leaves)|] == old(leaves)
    {
      var e := entry.(index := |entries|);
      entries := entries + [e];
      leaves := leaves + [LeafOf(e)];
      root := RootFromLeaves(leaves);
    }

    method MakeInclusionProof(index: nat) returns (proof: Option<InclusionProof>)
      ensures proof.None? <==> index >= |leaves|
      ensures index < |leaves| ==>
                proof == Some(InclusionProof(index, leaves[index], GeneratedPath(leaves, index), RootHash(leaves)))
    {
      var levels := BuildTreeLevels(leaves);
      proof := InclusionProofFromLevels(levels, leaves, index);
    }

    method ConsistencyProofFor(oldSize: nat) returns (proof: Option<ConsistencyProof>)
      requires Valid()
      ensures proof == if 0 < oldSize <= |entries| then Some(HonestConsistencyProof(leaves, oldSize)) else None
    {
      if oldSize == 0 || oldSize > |entries| {
        return None;
      }
      proof := MakeConsistencyProof(leaves[..oldSize], leaves, oldSize, |entries|);
    }

    method VerifyIntegrity() returns (ok: bool)
      ensures ok <==> IntegrityOk(entries, leaves, root)
    {
      var recomputed := RootFromLeaves(leaves);
      if recomputed != root {
        return false;
      }
      var n := if |entries| <= |leaves| then |entries| else |leaves|;
      for i := 0 to n
        invariant forall j :: 0 <= j < i ==> leaves[j] == LeafOf(entries[j])
      {
        if LeafOf(entries[i]) != leaves[i] {
          return false;
        }
      }
      return true;
    }

    static method FromEntries(source: seq<LogEntry>) returns (log: TransparencyLog)
      ensures fresh(log) && log.Valid() && |log.entries| == |source|
      ensures forall i :: 0 <= i < |source| ==> log.entries[i] == source[i].(index := i)
    {
      log := new TransparencyLog();
      for i := 0 to |source|
        invariant fresh(log) && log.Valid() && |log.entries| == i
        invariant forall j :: 0 <= j < i ==> log.entries[j] == source[j].(index := j)
      {
        log.Append(source[i]);
      }
    }
  }
}
