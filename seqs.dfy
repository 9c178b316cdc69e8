/** Facts about sequences shared by the classifier and the ranking. */
module Seqs {

  /** `a` lists some of the elements of `b`, in the order `b` has them. */
  predicate IsSubsequence<T(==)>(a: seq<T>, b: seq<T>)
    decreases |b|
  {
    a == [] || (b != [] && if a[0] == b[0] then IsSubsequence(a[1..], b[1..]) else IsSubsequence(a, b[1..]))
  }

  predicate Distinct<T(==)>(s: seq<T>)
  {
    forall i, j :: 0 <= i < j < |s| ==> s[i] != s[j]
  }

  lemma {:induction false} SubsequenceMembers<T>(a: seq<T>, b: seq<T>)
    requires IsSubsequence(a, b)
    ensures forall x :: x in a ==> x in b
    decreases |b|
  {
    if a != [] {
      if a[0] == b[0] {
        SubsequenceMembers(a[1..], b[1..]);
        forall x | x in a ensures x in b {
          if x != a[0] { assert x in a[1..]; assert x in b[1..]; }
        }
      } else {
        SubsequenceMembers(a, b[1..]);
      }
    }
  }

  /**
   * Over a list without repetitions, a subsequence is determined by its
   * elements: the mentioned platforms can only be listed in one way.
   */
  lemma {:induction false} SubsequenceUnique<T>(a: seq<T>, b: seq<T>, names: seq<T>)
    requires Distinct(names)
    requires IsSubsequence(a, names) && IsSubsequence(b, names)
    requires forall x :: x in a <==> x in b
    ensures a == b
    decreases |names|
  {
    if names != [] {
      var n0, rest := names[0], names[1..];
      assert Distinct(rest) by {
        forall i, j | 0 <= i < j < |rest| ensures rest[i] != rest[j] {
          assert rest[i] == names[i + 1] && rest[j] == names[j + 1];
        }
      }
      assert n0 !in rest by {
        forall i | 0 <= i < |rest| ensures rest[i] != n0 { assert rest[i] == names[i + 1]; }
      }
      if a != [] && a[0] == n0 {
        SubsequenceMembers(a[1..], rest);
        assert n0 in b;
        if b[0] != n0 {
          SubsequenceMembers(b, rest);
          assert false;
        }
        SubsequenceMembers(b[1..], rest);
        forall x ensures x in a[1..] <==> x in b[1..] {
          if x in a[1..] { assert x != n0 && x in a; assert x in b; assert x == b[0] || x in b[1..]; }
          if x in b[1..] { assert x != n0 && x in b; assert x in a; assert x == a[0] || x in a[1..]; }
        }
        SubsequenceUnique(a[1..], b[1..], rest);
        assert a == [a[0]] + a[1..] && b == [b[0]] + b[1..];
      } else {
        if a != [] { assert IsSubsequence(a, rest); }
        if b != [] && b[0] == n0 { assert n0 in a; SubsequenceMembers(a, rest); assert false; }
        if b != [] { assert IsSubsequence(b, rest); }
        SubsequenceUnique(a, b, rest);
      }
    }
  }
}
