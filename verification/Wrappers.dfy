/** The types that stand for Rust's `Option` and `Result`, and facts about sequences and sets that
    several modules need. */
module Wrappers {
  datatype Option<+T> = None | Some(value: T)

  datatype Result<+T, +E> = Ok(value: T) | Err(error: E)

  lemma AppendOne<T>(a: seq<T>, x: T, rest: seq<T>)
    ensures a + [x] + rest == a + ([x] + rest)
  {
  }

  lemma AppendPrefix<T>(a: seq<T>, x: T)
    ensures (a + [x])[..|a|] == a
  {
  }

  lemma {:induction false} SubsetIsSmaller<T>(s: set<T>, t: set<T>)
    requires s <= t
    ensures |s| <= |t|
  {
    if s != {} {
      var x :| x in s;
      SubsetIsSmaller(s - {x}, t - {x});
    }
  }
}
