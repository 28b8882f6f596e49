/** Order-preserving selection of elements from a sequence. */
module Subsequences {

  /** sub can be obtained from s by deleting elements, keeping the order
      of the rest. */
  predicate IsSubsequence<T(==)>(sub: seq<T>, s: seq<T>)
    decreases |s|
  {
    if s == [] then sub == []
    else (sub != [] && sub[0] == s[0] && IsSubsequence(sub[1..], s[1..]))
         || IsSubsequence(sub, s[1..])
  }

  lemma {:induction false} SubsequenceMembers<T>(sub: seq<T>, s: seq<T>)
    requires IsSubsequence(sub, s)
    ensures forall x :: x in sub ==> x in s
    decreases |s|
  {
    if s != [] {
      if sub != [] && sub[0] == s[0] && IsSubsequence(sub[1..], s[1..]) {
        SubsequenceMembers(sub[1..], s[1..]);
        assert sub == [sub[0]] + sub[1..];
      } else {
        SubsequenceMembers(sub, s[1..]);
      }
    }
  }

  /** Keeping the same head on both sides preserves the relation. */
  lemma SubsequenceCons<T>(x: T, sub: seq<T>, s: seq<T>)
    requires IsSubsequence(sub, s)
    ensures IsSubsequence([x] + sub, [x] + s)
  {
    assert ([x] + sub)[1..] == sub;
    assert ([x] + s)[1..] == s;
  }

  lemma {:induction false} SubsequenceTransitive<T>(a: seq<T>, b: seq<T>, c: seq<T>)
    requires IsSubsequence(a, b) && IsSubsequence(b, c)
    ensures IsSubsequence(a, c)
    decreases |c|
  {
    if c == [] {
      assert b == [];
    } else if b != [] && b[0] == c[0] && IsSubsequence(b[1..], c[1..]) {
      if b == [] {
      } else if a != [] && a[0] == b[0] && IsSubsequence(a[1..], b[1..]) {
        SubsequenceTransitive(a[1..], b[1..], c[1..]);
      } else {
        SubsequenceTransitive(a, b[1..], c[1..]);
      }
    } else {
      SubsequenceTransitive(a, b, c[1..]);
    }
  }
}
