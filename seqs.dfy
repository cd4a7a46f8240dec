/** Order-preserving selection over a sequence: what a Java stream `filter(...).toList()`
    keeps and what `List.removeIf` leaves behind (with the negated predicate). */
module Seqs {

  /** The elements of `s` satisfying `keep`, in their original order. */
  function Select<T>(s: seq<T>, keep: T -> bool): (r: seq<T>)
    ensures |r| <= |s|
  {
    if s == [] then [] else (if keep(s[0]) then [s[0]] else []) + Select(s[1..], keep)
  }

  /** An element is selected exactly when it occurs in the input and satisfies `keep`. */
  lemma {:induction false} SelectMembership<T>(s: seq<T>, keep: T -> bool, x: T)
    ensures x in Select(s, keep) <==> x in s && keep(x)
  {
    if s != [] {
      SelectMembership(s[1..], keep, x);
      assert s == [s[0]] + s[1..];
    }
  }

  /** Every element satisfying `keep` survives with its full multiplicity; every other
      element disappears. */
  lemma {:induction false} SelectCount<T>(s: seq<T>, keep: T -> bool, x: T)
    ensures multiset(Select(s, keep))[x] == if keep(x) then multiset(s)[x] else 0
  {
    if s != [] {
      SelectCount(s[1..], keep, x);
      var head := if keep(s[0]) then [s[0]] else [];
      assert multiset(Select(s, keep)) == multiset(head) + multiset(Select(s[1..], keep));
      assert s == [s[0]] + s[1..];
      assert multiset(s) == multiset([s[0]]) + multiset(s[1..]);
    }
  }

  /** Selection distributes over concatenation, so relative order is preserved. */
  lemma {:induction false} SelectAppend<T>(a: seq<T>, b: seq<T>, keep: T -> bool)
    ensures Select(a + b, keep) == Select(a, keep) + Select(b, keep)
  {
    if a == [] {
      assert a + b == b;
    } else {
      var ab := a + b;
      var head := if keep(a[0]) then [a[0]] else [];
      assert ab[0] == a[0] && ab[1..] == a[1..] + b;
      assert Select(ab, keep) == head + Select(a[1..] + b, keep);
      SelectAppend(a[1..], b, keep);
      assert Select(a, keep) == head + Select(a[1..], keep);
    }
  }

  /** When every element satisfies `keep`, nothing is removed. */
  lemma {:induction false} SelectAll<T>(s: seq<T>, keep: T -> bool)
    requires forall i :: 0 <= i < |s| ==> keep(s[i])
    ensures Select(s, keep) == s
  {
    if s != [] {
      SelectAll(s[1..], keep);
    }
  }

  /** Selecting twice with the same predicate is selecting once. */
  lemma {:induction false} SelectIdempotent<T>(s: seq<T>, keep: T -> bool)
    ensures Select(Select(s, keep), keep) == Select(s, keep)
  {
    if s != [] {
      SelectIdempotent(s[1..], keep);
      var rest := Select(s[1..], keep);
      if keep(s[0]) {
        var once := [s[0]] + rest;
        assert Select(s, keep) == once;
        assert once != [] && once[0] == s[0] && once[1..] == rest;
        assert Select(once, keep) == [s[0]] + Select(rest, keep);
      } else {
        assert Select(s, keep) == [] + rest == rest;
      }
    }
  }
}
