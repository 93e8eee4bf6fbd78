/** Structural double-spend detection of src/conflict/detector.rs. */
module ConflictDetector {
  import opened Encoding
  import opened Wrappers
  import opened Sorting
  import opened Settlement
  import opened SequenceReservation

  datatype QueuedSlot = QueuedSlot(account: Account, sequence: int, id: Id)

  datatype Conflict = Conflict(account: Account, sequence: int, a: Id, b: Id)

  datatype NWayConflict = NWayConflict(account: Account, sequence: int, ids: seq<Id>)

  type Key = (Account, int)

  /** `conflicts_between`. */
  function ConflictsBetween(x: QueuedSlot, y: QueuedSlot): Option<Conflict> {
    if x.account != y.account || x.sequence != y.sequence then None
    else if x.id == y.id then None
    else Some(Conflict(x.account, x.sequence, x.id, y.id))
  }

  /** The conflicts of a set of slots, each pair once with the smaller id first. */
  predicate IsConflict(slots: seq<QueuedSlot>, c: Conflict) {
    c.a < c.b && QueuedSlot(c.account, c.sequence, c.a) in slots && QueuedSlot(c.account, c.sequence, c.b) in slots
  }

  /** The contested slots, with every contender once, in increasing order. */
  ghost predicate IsNWayConflict(slots: seq<QueuedSlot>, g: NWayConflict) {
    |g.ids| >= 2 && StrictlyIncreasing(g.ids) &&
    forall id :: id in g.ids <==> QueuedSlot(g.account, g.sequence, id) in slots
  }

  // ---- The order of the reports ----

  lemma AsciiInjective(s: string, t: string)
    requires Ascii(s) == Ascii(t)
    ensures s == t
  {
    assert |Ascii(s)| == |s| && |Ascii(t)| == |t|;
    forall i | 0 <= i < |s| ensures s[i] == t[i] {
      assert Ascii(s)[i] == s[i] as nat && Ascii(t)[i] == t[i] as nat;
    }
  }

  /** Two tuples compared by an account, a sequence and a list of numbers, in this order. */
  predicate TupleLe(account: Account, sequence: int, rest: seq<nat>,
                    account': Account, sequence': int, rest': seq<nat>) {
    if account != account' then LexLe(Ascii(account), Ascii(account'))
    else if sequence != sequence' then sequence < sequence'
    else LexLe(rest, rest')
  }

  predicate ConflictLe(x: Conflict, y: Conflict) {
    TupleLe(x.account, x.sequence, [x.a, x.b], y.account, y.sequence, [y.a, y.b])
  }

  predicate NWayLe(x: NWayConflict, y: NWayConflict) {
    TupleLe(x.account, x.sequence, x.ids, y.account, y.sequence, y.ids)
  }

  lemma TupleOrder(a: Account, s: int, r: seq<nat>, a': Account, s': int, r': seq<nat>,
                   a'': Account, s'': int, r'': seq<nat>)
    ensures TupleLe(a, s, r, a', s', r') || TupleLe(a', s', r', a, s, r)
    ensures TupleLe(a, s, r, a', s', r') && TupleLe(a', s', r', a, s, r) ==> a == a' && s == s' && r == r'
    ensures TupleLe(a, s, r, a', s', r') && TupleLe(a', s', r', a'', s'', r'') ==> TupleLe(a, s, r, a'', s'', r'')
  {
    var x, y, z := Ascii(a), Ascii(a'), Ascii(a'');
    LexTotal(x, y);
    LexTotal(r, r');
    if x == y { AsciiInjective(a, a'); }
    if LexLe(x, y) && LexLe(y, z) {
      LexTransitive(x, y, z);
      if x == z {
        LexTotal(x, y);
      }
    }
    if LexLe(r, r') && LexLe(r', r'') { LexTransitive(r, r', r''); }
  }

  lemma ConflictOrder()
    ensures TotalPreorder(ConflictLe)
    ensures forall x, y :: ConflictLe(x, y) && ConflictLe(y, x) ==> x == y
  {
    forall x: Conflict, y: Conflict
      ensures ConflictLe(x, y) || ConflictLe(y, x)
      ensures ConflictLe(x, y) && ConflictLe(y, x) ==> x == y
    {
      TupleOrder(x.account, x.sequence, [x.a, x.b], y.account, y.sequence, [y.a, y.b], "", 0, []);
      assert [x.a, x.b] == [y.a, y.b] ==> [x.a, x.b][0] == [y.a, y.b][0] && [x.a, x.b][1] == [y.a, y.b][1];
    }
    forall x: Conflict, y: Conflict, z: Conflict | ConflictLe(x, y) && ConflictLe(y, z) ensures ConflictLe(x, z) {
      TupleOrder(x.account, x.sequence, [x.a, x.b], y.account, y.sequence, [y.a, y.b], z.account, z.sequence, [z.a, z.b]);
    }
  }

  lemma NWayOrder()
    ensures TotalPreorder(NWayLe)
    ensures forall x, y :: NWayLe(x, y) && NWayLe(y, x) ==> x == y
  {
    forall x: NWayConflict, y: NWayConflict
      ensures NWayLe(x, y) || NWayLe(y, x)
      ensures NWayLe(x, y) && NWayLe(y, x) ==> x == y
    {
      TupleOrder(x.account, x.sequence, x.ids, y.account, y.sequence, y.ids, "", 0, []);
    }
    forall x: NWayConflict, y: NWayConflict, z: NWayConflict | NWayLe(x, y) && NWayLe(y, z) ensures NWayLe(x, z) {
      TupleOrder(x.account, x.sequence, x.ids, y.account, y.sequence, y.ids, z.account, z.sequence, z.ids);
    }
  }

  // ---- Grouping ----

  type Groups = map<Key, seq<Id>>

  ghost predicate Grouped(slots: seq<QueuedSlot>, groups: Groups) {
    (forall s :: s in slots ==> (s.account, s.sequence) in groups) &&
    forall key, id :: key in groups ==> (id in groups[key] <==> QueuedSlot(key.0, key.1, id) in slots)
  }

  method GroupSlots(slots: seq<QueuedSlot>) returns (groups: Groups)
    ensures Grouped(slots, groups)
  {
    groups := map[];
    for i := 0 to |slots|
      invariant Grouped(slots[..i], groups)
    {
      var slot := slots[i];
      var key := (slot.account, slot.sequence);
      assert slots[..i + 1] == slots[..i] + [slot];
      groups := groups[key := (if key in groups then groups[key] else []) + [slot.id]];
    }
    assert slots[..|slots|] == slots;
  }

  /** The two nested loops over one group. */
  method PairsInGroup(key: Key, ids: seq<Id>) returns (pairs: seq<Conflict>)
    requires StrictlyIncreasing(ids)
    ensures DistinctElements(pairs)
    ensures forall c :: c in pairs <==> (c.account, c.sequence) == key && c.a < c.b && c.a in ids && c.b in ids
  {
    pairs := [];
    for i := 0 to |ids|
      invariant DistinctElements(pairs)
      invariant forall c :: c in pairs <==>
                  (c.account, c.sequence) == key && c.a < c.b && c.a in ids[..i] && c.b in ids
    {
      for j := i + 1 to |ids|
        invariant DistinctElements(pairs)
        invariant forall c :: c in pairs <==>
                    (c.account, c.sequence) == key && c.a < c.b && c.b in ids &&
                    (c.a in ids[..i] || (c.a == ids[i] && c.b in ids[..j]))
      {
        assert ids[..j + 1] == ids[..j] + [ids[j]];
        var c := Conflict(key.0, key.1, ids[i], ids[j]);
        assert c !in pairs;
        pairs := pairs + [c];
      }
      assert ids[..|ids|] == ids && ids[..i + 1] == ids[..i] + [ids[i]];
    }
    assert ids[..|ids|] == ids;
  }

  /** `detect_conflicts`: every conflicting pair once, in one order, whatever order the hash map is
      walked in. */
  method DetectConflicts(slots: seq<QueuedSlot>) returns (conflicts: seq<Conflict>)
    ensures forall c :: c in conflicts <==> IsConflict(slots, c)
    ensures SortedBy(conflicts, ConflictLe) && DistinctElements(conflicts)
  {
    var groups := GroupSlots(slots);
    var found: seq<Conflict> := [];
    var todo := groups.Keys;
    while todo != {}
      invariant todo <= groups.Keys
      invariant DistinctElements(found)
      invariant forall c :: c in found <==>
                  (c.account, c.sequence) in groups.Keys - todo && IsConflict(slots, c)
      decreases todo
    {
      var key :| key in todo;
      var pairs := PairsInGroup(key, SortDedup(groups[key]));
      found := found + pairs;
      todo := todo - {key};
    }
    ConflictOrder();
    conflicts := SortBy(found, ConflictLe);
    SameElements(conflicts, found);
    DistinctIsMultiset(found);
    DistinctIsMultiset(conflicts);
  }

  /** The n-way conflicts on the given slots, each once. */
  ghost predicate FoundOn(slots: seq<QueuedSlot>, keys: set<Key>, found: seq<NWayConflict>) {
    DistinctElements(found) &&
    forall g :: g in found <==> (g.account, g.sequence) in keys && IsNWayConflict(slots, g)
  }

  lemma OneMoreKey(slots: seq<QueuedSlot>, keys: set<Key>, key: Key, found: seq<NWayConflict>, ids: seq<Id>)
    requires FoundOn(slots, keys, found) && key !in keys
    requires forall g: NWayConflict :: (g.account, g.sequence) == key ==>
      (IsNWayConflict(slots, g) <==> |ids| >= 2 && g == NWayConflict(key.0, key.1, ids))
    ensures FoundOn(slots, keys + {key}, found + if |ids| >= 2 then [NWayConflict(key.0, key.1, ids)] else [])
  {
    var one := NWayConflict(key.0, key.1, ids);
    assert one !in found;
    if |ids| < 2 {
      assert found + [] == found;
    }
  }

  /** One report per group of at least two, the groups in any order. */
  method CollectGroups(slots: seq<QueuedSlot>, groups: Groups) returns (found: seq<NWayConflict>)
    requires Grouped(slots, groups)
    ensures FoundOn(slots, groups.Keys, found)
  {
    found := [];
    var todo := groups.Keys;
    ghost var done: set<Key> := {};
    while todo != {}
      invariant done + todo == groups.Keys && done !! todo
      invariant FoundOn(slots, done, found)
      decreases todo
    {
      var key :| key in todo;
      var ids := SortDedup(groups[key]);
      OneGroupPerKey(slots, groups, key, ids);
      OneMoreKey(slots, done, key, found, ids);
      found := found + if |ids| >= 2 then [NWayConflict(key.0, key.1, ids)] else [];
      done, todo := done + {key}, todo - {key};
    }
    assert done == groups.Keys;
  }

  /** `detect_nway_conflicts`: every contested slot once. */
  method DetectNWayConflicts(slots: seq<QueuedSlot>) returns (conflicts: seq<NWayConflict>)
    ensures forall g :: g in conflicts <==> IsNWayConflict(slots, g)
    ensures SortedBy(conflicts, NWayLe) && DistinctElements(conflicts)
  {
    var groups := GroupSlots(slots);
    var found := CollectGroups(slots, groups);
    forall g | IsNWayConflict(slots, g) ensures (g.account, g.sequence) in groups {
      assert g.ids[0] in g.ids;
    }
    NWayOrder();
    conflicts := SortBy(found, NWayLe);
    SameElements(conflicts, found);
    DistinctIsMultiset(found);
    DistinctIsMultiset(conflicts);
  }

  lemma OneGroupPerKey(slots: seq<QueuedSlot>, groups: Groups, key: Key, ids: seq<Id>)
    requires Grouped(slots, groups) && key in groups
    requires StrictlyIncreasing(ids) && forall id :: id in ids <==> id in groups[key]
    ensures forall g: NWayConflict :: (g.account, g.sequence) == key ==>
      (IsNWayConflict(slots, g) <==> |ids| >= 2 && g == NWayConflict(key.0, key.1, ids))
  {
    forall g: NWayConflict | (g.account, g.sequence) == key && IsNWayConflict(slots, g) ensures g.ids == ids {
      IncreasingIsUnique(g.ids, ids);
    }
  }

  // ---- What the reports mean ----

  /** The reports depend on the set of slots only: any permutation or duplication of the input, and
      any walk of the hash map, gives the same list. */
  lemma ReportIsAFunctionOfTheSet(slots: seq<QueuedSlot>, slots': seq<QueuedSlot>, r: seq<Conflict>, r': seq<Conflict>)
    requires forall s :: s in slots <==> s in slots'
    requires (forall c :: c in r <==> IsConflict(slots, c)) && SortedBy(r, ConflictLe) && DistinctElements(r)
    requires (forall c :: c in r' <==> IsConflict(slots', c)) && SortedBy(r', ConflictLe) && DistinctElements(r')
    ensures r == r'
  {
    ConflictOrder();
    DistinctIsMultiset(r);
    DistinctIsMultiset(r');
    forall c ensures multiset(r)[c] == multiset(r')[c] {
      assert c in r <==> c in multiset(r);
      assert c in r' <==> c in multiset(r');
    }
    assert multiset(r) == multiset(r');
    SortedIsUnique(r, r', ConflictLe);
  }

  lemma NWayReportIsAFunctionOfTheSet(
    slots: seq<QueuedSlot>, slots': seq<QueuedSlot>, r: seq<NWayConflict>, r': seq<NWayConflict>)
    requires forall s :: s in slots <==> s in slots'
    requires (forall g :: g in r <==> IsNWayConflict(slots, g)) && SortedBy(r, NWayLe) && DistinctElements(r)
    requires (forall g :: g in r' <==> IsNWayConflict(slots', g)) && SortedBy(r', NWayLe) && DistinctElements(r')
    ensures r == r'
  {
    NWayOrder();
    DistinctIsMultiset(r);
    DistinctIsMultiset(r');
    forall g ensures multiset(r)[g] == multiset(r')[g] {
      assert g in r <==> g in multiset(r);
      assert g in r' <==> g in multiset(r');
      assert IsNWayConflict(slots, g) <==> IsNWayConflict(slots', g);
    }
    assert multiset(r) == multiset(r');
    SortedIsUnique(r, r', NWayLe);
  }

  /** A pair with the smaller id first. */
  function Normalized(c: Conflict): Conflict {
    if c.a <= c.b then c else c.(a := c.b, b := c.a)
  }

  /** Grouping finds what the naive scan of all pairs of positions finds. */
  lemma GroupingMatchesNaiveScan(slots: seq<QueuedSlot>, c: Conflict)
    ensures IsConflict(slots, c) <==>
      exists i, j :: 0 <= i < j < |slots| && ConflictsBetween(slots[i], slots[j]).Some? &&
                     Normalized(ConflictsBetween(slots[i], slots[j]).value) == c
  {
    if IsConflict(slots, c) {
      var i :| 0 <= i < |slots| && slots[i] == QueuedSlot(c.account, c.sequence, c.a);
      var j :| 0 <= j < |slots| && slots[j] == QueuedSlot(c.account, c.sequence, c.b);
      var lo, hi := if i < j then i else j, if i < j then j else i;
      assert ConflictsBetween(slots[lo], slots[hi]).Some? && Normalized(ConflictsBetween(slots[lo], slots[hi]).value) == c;
    }
  }

  ghost function IdsAt(slots: seq<QueuedSlot>, account: Account, sequence: int): (ids: seq<Id>)
    ensures forall id :: id in ids <==> QueuedSlot(account, sequence, id) in slots
  {
    if slots == [] then [] else
      var s, rest := slots[0], IdsAt(slots[1..], account, sequence);
      assert slots == [s] + slots[1..];
      if s.account == account && s.sequence == sequence then [s.id] + rest else rest
  }

  /** The pairwise conflicts are exactly the pairs inside the n-way groups. */
  lemma PairsAreThePairsOfGroups(slots: seq<QueuedSlot>, c: Conflict)
    ensures IsConflict(slots, c) <==>
      exists g :: IsNWayConflict(slots, g) && g.account == c.account && g.sequence == c.sequence &&
                  c.a < c.b && c.a in g.ids && c.b in g.ids
  {
    if IsConflict(slots, c) {
      var ids := SortDedup(IdsAt(slots, c.account, c.sequence));
      var i :| 0 <= i < |ids| && ids[i] == c.a;
      var j :| 0 <= j < |ids| && ids[j] == c.b;
      assert i != j;
      assert IsNWayConflict(slots, NWayConflict(c.account, c.sequence, ids));
    }
  }

  // ---- The order of the reports in plain terms ----

  /** The account that comes first in the byte order of strings. */
  ghost predicate AccountBefore(x: Account, y: Account) {
    x != y && (x <= y || exists k :: 0 <= k < |x| && k < |y| && x[..k] == y[..k] && x[k] < y[k])
  }

  lemma AccountBeforeIff(x: Account, y: Account)
    requires x != y
    ensures LexLe(Ascii(x), Ascii(y)) <==> AccountBefore(x, y)
  {
    var a, b := Ascii(x), Ascii(y);
    LexLeIff(a, b);
    if x <= y {
      assert a <= b;
    }
    if a <= b {
      forall i | 0 <= i < |x| ensures x[i] == y[i] {
        assert a[i] == b[i];
      }
    }
    if k :| FirstDifference(a, b, k) && a[k] < b[k] {
      SamePrefix(x, y, k);
      assert x[..k] == y[..k] && x[k] < y[k];
    }
    if k :| 0 <= k < |x| && k < |y| && x[..k] == y[..k] && x[k] < y[k] {
      SamePrefix(x, y, k);
      assert FirstDifference(a, b, k);
    }
  }

  lemma SamePrefix(x: string, y: string, k: nat)
    requires k <= |x| && k <= |y|
    ensures Ascii(x)[..k] == Ascii(y)[..k] <==> x[..k] == y[..k]
  {
    if Ascii(x)[..k] == Ascii(y)[..k] {
      forall i | 0 <= i < k ensures x[i] == y[i] {
        assert Ascii(x)[..k][i] == Ascii(y)[..k][i];
      }
    }
    if x[..k] == y[..k] {
      forall i | 0 <= i < k ensures Ascii(x)[i] == Ascii(y)[i] {
        assert x[..k][i] == y[..k][i];
      }
    }
  }

  lemma PairLe(a: Id, b: Id, c: Id, d: Id)
    ensures LexLe([a, b], [c, d]) <==> a < c || (a == c && b <= d)
  {
    var x, y, z, w := [a, b], [c, d], [b], [d];
    assert x[1..] == z && y[1..] == w && z[1..] == [] && w[1..] == [];
    assert LexLe(z, w) <==> b <= d;
  }

  /** Reports are ordered by account, then sequence, then the smaller id, then the larger one. */
  lemma ConflictLeIff(x: Conflict, y: Conflict)
    ensures ConflictLe(x, y) <==>
      AccountBefore(x.account, y.account) ||
      (x.account == y.account &&
       (x.sequence < y.sequence ||
        (x.sequence == y.sequence && (x.a < y.a || (x.a == y.a && x.b <= y.b)))))
  {
    if x.account != y.account { AccountBeforeIff(x.account, y.account); }
    PairLe(x.a, x.b, y.a, y.b);
  }

  /** And n-way reports by account, then sequence; one slot has one report. */
  lemma NWayLeIff(x: NWayConflict, y: NWayConflict)
    requires x.account != y.account || x.sequence != y.sequence
    ensures NWayLe(x, y) <==>
      AccountBefore(x.account, y.account) || (x.account == y.account && x.sequence < y.sequence)
  {
    if x.account != y.account { AccountBeforeIff(x.account, y.account); }
  }
}
