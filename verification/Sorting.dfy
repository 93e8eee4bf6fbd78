/** What `slice::sort_by` and `dedup` of the Rust standard library do, as functions. */
module Sorting {

  ghost predicate TotalPreorder<T(!new)>(le: (T, T) -> bool) {
    (forall a, b :: le(a, b) || le(b, a)) &&
    (forall a, b, c :: le(a, b) && le(b, c) ==> le(a, c))
  }

  ghost predicate SortedBy<T>(s: seq<T>, le: (T, T) -> bool) {
    forall i, j :: 0 <= i < j < |s| ==> le(s[i], s[j])
  }

  lemma SameElements<T>(r: seq<T>, s: seq<T>)
    requires multiset(r) == multiset(s)
    ensures forall x :: x in r <==> x in s
  {
    forall x ensures x in r <==> x in s {
      assert x in r <==> x in multiset(r);
      assert x in s <==> x in multiset(s);
    }
  }

  lemma SortedCons<T>(x: T, s: seq<T>, le: (T, T) -> bool)
    requires SortedBy(s, le) && forall y :: y in s ==> le(x, y)
    ensures SortedBy([x] + s, le)
  {
  }

  lemma SortedTail<T(!new)>(x: T, s: seq<T>, le: (T, T) -> bool)
    requires TotalPreorder(le) && SortedBy(s, le) && s != []
    ensures SortedBy(s[1..], le) && forall y :: y in s[1..] ==> le(s[0], y)
    ensures le(x, s[0]) ==> forall y :: y in s ==> le(x, y)
  {
  }

  function Insert<T(!new)>(x: T, s: seq<T>, le: (T, T) -> bool): (r: seq<T>)
    requires TotalPreorder(le) && SortedBy(s, le)
    ensures SortedBy(r, le) && multiset(r) == multiset([x] + s)
  {
    if s == [] then [x]
    else
      SortedTail(x, s, le);
      if le(x, s[0]) then
        SortedCons(x, s, le);
        [x] + s
      else
        var rest := Insert(x, s[1..], le);
        SameElements(rest, [x] + s[1..]);
        SortedCons(s[0], rest, le);
        assert s == [s[0]] + s[1..];
        [s[0]] + rest
  }

  /** A stable sort: equal elements keep their order. */
  function SortBy<T(!new)>(s: seq<T>, le: (T, T) -> bool): (r: seq<T>)
    requires TotalPreorder(le)
    ensures SortedBy(r, le) && multiset(r) == multiset(s)
  {
    if s == [] then [] else
      assert s == [s[0]] + s[1..];
      Insert(s[0], SortBy(s[1..], le), le)
  }

  lemma TailMultiset<T>(s: seq<T>)
    requires s != []
    ensures multiset(s[1..]) == multiset(s) - multiset{s[0]}
  {
    assert s == [s[0]] + s[1..];
  }

  /** Elements of s that the order ranks both ways are equal. */
  ghost predicate TellsApart<T(!new)>(le: (T, T) -> bool, s: seq<T>) {
    forall x, y :: x in s && y in s && le(x, y) && le(y, x) ==> x == y
  }

  lemma TailTellsApart<T(!new)>(le: (T, T) -> bool, s: seq<T>)
    requires TellsApart(le, s) && s != []
    ensures TellsApart(le, s[1..]) && (SortedBy(s, le) ==> SortedBy(s[1..], le))
  {
    assert forall x :: x in s[1..] ==> x in s;
  }

  lemma SameHeadAndTail<T>(r: seq<T>, s: seq<T>)
    requires r != [] && s != [] && r[0] == s[0] && r[1..] == s[1..]
    ensures r == s
  {
    assert r == [r[0]] + r[1..] && s == [s[0]] + s[1..];
  }

  lemma HeadsAgree<T(!new)>(r: seq<T>, s: seq<T>, le: (T, T) -> bool)
    requires SortedBy(r, le) && SortedBy(s, le) && r != [] && s != []
    requires TellsApart(le, r) && forall x :: x in r <==> x in s
    ensures r[0] == s[0]
  {
    assert r[0] in r && s[0] in s;
    assert r[0] in s && s[0] in r;
    var i :| 0 <= i < |s| && s[i] == r[0];
    var j :| 0 <= j < |r| && r[j] == s[0];
    assert i > 0 && j > 0 ==> le(s[0], r[0]) && le(r[0], s[0]);
  }

  /** On elements that the order tells apart there is only one sorted arrangement. */
  lemma {:induction false} SortedIsUnique<T(!new)>(r: seq<T>, s: seq<T>, le: (T, T) -> bool)
    requires SortedBy(r, le) && SortedBy(s, le) && multiset(r) == multiset(s) && TellsApart(le, r)
    ensures r == s
  {
    if r == [] {
      assert multiset(s) == multiset{};
    } else {
      assert r[0] in multiset(r);
      SameElements(r, s);
      HeadsAgree(r, s, le);
      TailMultiset(r);
      TailMultiset(s);
      TailTellsApart(le, r);
      assert SortedBy(s[1..], le);
      SortedIsUnique(r[1..], s[1..], le);
      SameHeadAndTail(r, s);
    }
  }

  ghost predicate DistinctElements<T>(s: seq<T>) {
    forall i, j :: 0 <= i < j < |s| ==> s[i] != s[j]
  }

  lemma DistinctIsMultiset<T>(s: seq<T>)
    ensures DistinctElements(s) <==> forall x :: multiset(s)[x] <= 1
  {
    if DistinctElements(s) {
      forall x ensures multiset(s)[x] <= 1 { DistinctCount(s, x); }
    }
    if i, j :| 0 <= i < j < |s| && s[i] == s[j] {
      assert s == s[..j] + s[j..];
      assert s[..j][i] == s[i] && s[j..][0] == s[j];
      assert multiset(s)[s[i]] == multiset(s[..j])[s[i]] + multiset(s[j..])[s[i]];
      assert s[i] in multiset(s[..j]) && s[i] in multiset(s[j..]);
    }
  }

  lemma {:induction false} DistinctCount<T>(s: seq<T>, x: T)
    requires DistinctElements(s)
    ensures multiset(s)[x] <= 1
  {
    if s != [] {
      DistinctCount(s[1..], x);
      assert s == [s[0]] + s[1..];
      assert s[0] == x ==> x !in s[1..];
    }
  }

  // ---- Mapping over permutations ----

  function Mapped<T, U>(s: seq<T>, f: T -> U): seq<U> {
    seq(|s|, i requires 0 <= i < |s| => f(s[i]))
  }

  lemma MappedWithout<T, U>(s: seq<T>, f: T -> U, k: nat)
    requires k < |s|
    ensures multiset(s) == multiset(s[..k] + s[k + 1..]) + multiset{s[k]}
    ensures multiset(Mapped(s, f)) == multiset(Mapped(s[..k] + s[k + 1..], f)) + multiset{f(s[k])}
  {
    var a, b := s[..k], s[k + 1..];
    assert s == a + [s[k]] + b;
    assert Mapped(s, f) == Mapped(a, f) + [f(s[k])] + Mapped(b, f) && Mapped(a + b, f) == Mapped(a, f) + Mapped(b, f);
  }

  lemma CancelOne<T>(m: multiset<T>, m': multiset<T>, x: T)
    requires m + multiset{x} == m' + multiset{x}
    ensures m == m'
  {
    assert m == (m + multiset{x}) - multiset{x} && m' == (m' + multiset{x}) - multiset{x};
  }

  lemma {:induction false} MappedPermutation<T, U>(r: seq<T>, s: seq<T>, f: T -> U)
    requires multiset(r) == multiset(s)
    ensures multiset(Mapped(r, f)) == multiset(Mapped(s, f))
    decreases |r|
  {
    SameElements(r, s);
    if r == [] {
      assert |s| == |multiset(s)| == |multiset(r)| == 0;
    } else {
      assert r[0] in s;
      var k :| 0 <= k < |s| && s[k] == r[0];
      MappedWithout(r, f, 0);
      MappedWithout(s, f, k);
      var r', s' := r[..0] + r[1..], s[..k] + s[k + 1..];
      CancelOne(multiset(r'), multiset(s'), r[0]);
      MappedPermutation(r', s', f);
    }
  }

  // ---- Sorted lists of numbers ----

  ghost predicate StrictlyIncreasing(s: seq<nat>) {
    forall i, j :: 0 <= i < j < |s| ==> s[i] < s[j]
  }

  predicate NatLe(a: nat, b: nat) {
    a <= b
  }

  /** `dedup`: drops consecutive repetitions. */
  function Dedup(s: seq<nat>): (r: seq<nat>)
    ensures forall x :: x in r <==> x in s
  {
    if |s| <= 1 then s else
      var rest := Dedup(s[1..]);
      assert s == [s[0]] + s[1..];
      if s[0] == s[1] then rest else [s[0]] + rest
  }

  lemma {:induction false} DedupOfSorted(s: seq<nat>)
    requires SortedBy(s, NatLe)
    ensures StrictlyIncreasing(Dedup(s))
  {
    if |s| > 1 {
      DedupOfSorted(s[1..]);
      var rest := Dedup(s[1..]);
      if s[0] != s[1] {
        forall j | 0 <= j < |rest| ensures s[0] < rest[j] {
          assert rest[j] in rest;
          assert NatLe(s[0], s[1]);
          var k :| 0 <= k < |s[1..]| && s[1..][k] == rest[j];
          assert k > 0 ==> NatLe(s[1], s[k + 1]);
        }
      }
    }
  }

  /** `ids.sort(); ids.dedup();`: the elements, once each, in increasing order. */
  function SortDedup(s: seq<nat>): (r: seq<nat>)
    ensures StrictlyIncreasing(r) && forall x :: x in r <==> x in s
  {
    var sorted := SortBy(s, NatLe);
    SameElements(sorted, s);
    DedupOfSorted(sorted);
    Dedup(sorted)
  }

  /** A strictly increasing list is determined by its elements. */
  lemma {:induction false} IncreasingIsUnique(r: seq<nat>, s: seq<nat>)
    requires StrictlyIncreasing(r) && StrictlyIncreasing(s) && forall x :: x in r <==> x in s
    ensures r == s
  {
    assert r != [] ==> r[0] in s;
    assert s != [] ==> s[0] in r;
    if r != [] {
      assert r[0] == s[0];
      assert r == [r[0]] + r[1..] && s == [s[0]] + s[1..];
      assert forall x :: x in r[1..] <==> x in r && x != r[0];
      assert forall x :: x in s[1..] <==> x in s && x != s[0];
      IncreasingIsUnique(r[1..], s[1..]);
    }
  }

  // ---- Lexicographic order, as for Rust slices and strings ----

  predicate LexLe(a: seq<nat>, b: seq<nat>) {
    a == [] || (b != [] && (a[0] < b[0] || (a[0] == b[0] && LexLe(a[1..], b[1..]))))
  }

  lemma {:induction false} LexTotal(a: seq<nat>, b: seq<nat>)
    ensures LexLe(a, b) || LexLe(b, a)
    ensures LexLe(a, b) && LexLe(b, a) ==> a == b
  {
    if a != [] && b != [] {
      LexTotal(a[1..], b[1..]);
      assert a == [a[0]] + a[1..] && b == [b[0]] + b[1..];
    }
  }

  lemma {:induction false} LexTransitive(a: seq<nat>, b: seq<nat>, c: seq<nat>)
    requires LexLe(a, b) && LexLe(b, c)
    ensures LexLe(a, c)
  {
    if a != [] && b != [] && c != [] && a[0] == b[0] == c[0] {
      LexTransitive(a[1..], b[1..], c[1..]);
    }
  }

  /** The order is decided where the two lists first differ; a prefix comes first. */
  lemma {:induction false} LexLeIff(a: seq<nat>, b: seq<nat>)
    ensures LexLe(a, b) <==> a <= b || exists k :: FirstDifference(a, b, k) && a[k] < b[k]
  {
    if a != [] && b != [] && a[0] == b[0] {
      LexLeIff(a[1..], b[1..]);
      assert a == [a[0]] + a[1..] && b == [b[0]] + b[1..];
      if k :| FirstDifference(a[1..], b[1..], k) && a[1..][k] < b[1..][k] {
        assert a[..k + 1] == [a[0]] + a[1..][..k] && b[..k + 1] == [b[0]] + b[1..][..k];
        assert FirstDifference(a, b, k + 1);
      }
      if k :| FirstDifference(a, b, k) && a[k] < b[k] {
        assert k > 0;
        assert a[1..][..k - 1] == a[..k][1..] && b[1..][..k - 1] == b[..k][1..];
        assert FirstDifference(a[1..], b[1..], k - 1);
      }
    } else if a != [] && b != [] {
      if a[0] < b[0] {
        assert FirstDifference(a, b, 0);
      }
      if k :| FirstDifference(a, b, k) && a[k] < b[k] {
        assert k > 0 ==> a[..k][0] == b[..k][0];
      }
    }
  }

  ghost predicate FirstDifference(a: seq<nat>, b: seq<nat>, k: int) {
    0 <= k < |a| && k < |b| && a[..k] == b[..k] && a[k] != b[k]
  }
}
