/** Facts about sequences that several components share. */
module Sequences {

  ghost predicate NoDuplicates<T>(s: seq<T>) {
    forall i, j :: 0 <= i < j < |s| ==> s[i] != s[j]
  }

  function Elements<T>(s: seq<T>): (r: set<T>) {
    set x | x in s
  }

  function Reversed<T>(s: seq<T>): (r: seq<T>)
    ensures |r| == |s|
    ensures forall k :: 0 <= k < |s| ==> r[k] == s[|s| - 1 - k]
  {
    seq(|s|, k requires 0 <= k < |s| => s[|s| - 1 - k])
  }

  function Take<T>(s: seq<T>, n: nat): (r: seq<T>) {
    if |s| <= n then s else s[..n]
  }

  function Min(a: int, b: int): (r: int) {
    if a <= b then a else b
  }

  function Max(a: int, b: int): (r: int) {
    if a >= b then a else b
  }

  /** a can be obtained from b by dropping elements. It peels from the end, where queues grow. */
  ghost predicate Subsequence<T>(a: seq<T>, b: seq<T>) {
    if a == [] then true
    else if b == [] then false
    else
      || (a[|a| - 1] == b[|b| - 1] && Subsequence(a[..|a| - 1], b[..|b| - 1]))
      || Subsequence(a, b[..|b| - 1])
  }

  /** A non-empty sequence holds its last element and what is before it. */
  lemma InitAndLast<T>(s: seq<T>)
    requires s != []
    ensures s == s[..|s| - 1] + [s[|s| - 1]]
    ensures forall x :: x in s <==> x in s[..|s| - 1] || x == s[|s| - 1]
  {
  }

  /** A duplicate-free sequence is as long as its element set is large. */
  lemma {:induction false} DistinctCount<T>(s: seq<T>)
    requires NoDuplicates(s)
    ensures |Elements(s)| == |s|
  {
    if s != [] {
      var rest, last := s[..|s| - 1], s[|s| - 1];
      DistinctCount(rest);
      assert Elements(s) == Elements(rest) + {last};
    }
  }

  lemma {:induction false} CountDistinct<T>(s: seq<T>)
    ensures |Elements(s)| <= |s|
    ensures |Elements(s)| == |s| ==> NoDuplicates(s)
  {
    if s != [] {
      var rest, last := s[..|s| - 1], s[|s| - 1];
      CountDistinct(rest);
      assert Elements(s) == Elements(rest) + {last};
      if last in Elements(rest) {
        assert Elements(s) == Elements(rest);
      }
    }
  }
}
