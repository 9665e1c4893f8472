/** Sequence facts shared by the string rewrites and the token-list filters. */
module Seqs {

  /** `a` can be obtained from `b` by deleting elements: every element of `a` appears in `b`, in the same order. */
  predicate IsSubsequence<T(==)>(a: seq<T>, b: seq<T>)
    decreases |b|
  {
    |a| == 0 ||
    (|b| > 0 && ((a[0] == b[0] && IsSubsequence(a[1..], b[1..])) || IsSubsequence(a, b[1..])))
  }

  /** A subsequence of a suffix of `b` is a subsequence of `b`. */
  lemma {:induction false} SubsequenceOfSuffix<T>(a: seq<T>, b: seq<T>, k: nat)
    requires k <= |b|
    requires IsSubsequence(a, b[k..])
    ensures IsSubsequence(a, b)
    decreases k
  {
    if k > 0 {
      assert b[1..][k - 1..] == b[k..];
      SubsequenceOfSuffix(a, b[1..], k - 1);
    }
  }

  /** Deleting elements never introduces a new one. */
  lemma {:induction false} SubsequenceElements<T>(a: seq<T>, b: seq<T>, x: T)
    requires IsSubsequence(a, b)
    requires x in a
    ensures x in b
    decreases |b|
  {
    if a[0] == b[0] && IsSubsequence(a[1..], b[1..]) {
      if x != a[0] {
        SubsequenceElements(a[1..], b[1..], x);
      }
    } else {
      SubsequenceElements(a, b[1..], x);
    }
  }

  /** `p` is a prefix of `s` (Python's `s.startswith(p)`). */
  predicate StartsWith<T(==)>(s: seq<T>, p: seq<T>) {
    |p| <= |s| && s[..|p|] == p
  }

  /** The first element of a non-empty prefix is the first element of the sequence. */
  lemma StartsWithHead<T>(s: seq<T>, p: seq<T>)
    requires |p| > 0 && StartsWith(s, p)
    ensures |s| > 0 && s[0] == p[0]
  {
    assert s[..|p|][0] == s[0];
  }

  /** Sequences that differ in their first element do not start one with the other. */
  lemma HeadMismatch<T>(s: seq<T>, p: seq<T>)
    requires |s| > 0 && |p| > 0 && s[0] != p[0]
    ensures !StartsWith(s, p)
  {
    if |p| <= |s| {
      assert s[..|p|][0] == s[0];
    }
  }

  /** Dropping the common first element keeps the prefix relation. */
  lemma StartsWithTail<T>(x: T, s: seq<T>, p: seq<T>)
    requires |p| > 0 && StartsWith([x] + s, p)
    ensures StartsWith(s, p[1..])
  {
    assert s[..|p| - 1] == ([x] + s)[1..|p|];
  }

  /** Adding the common first element keeps the prefix relation. */
  lemma StartsWithCons<T>(s: seq<T>, p: seq<T>)
    requires |p| > 0 && |s| > 0 && s[0] == p[0] && StartsWith(s[1..], p[1..])
    ensures StartsWith(s, p)
  {
    assert s[..|p|] == [s[0]] + s[1..][..|p| - 1];
  }

  /** Splitting off the first element of the left operand of a concatenation. */
  lemma ConsAppend<T>(p: seq<T>, s: seq<T>)
    requires |p| > 0
    ensures [p[0]] + (p[1..] + s) == p + s
  {
  }

  /** Length of the longest prefix of `s` whose elements all satisfy `p`: the extent of a greedy `[...]+` run. */
  function RunLength<T>(s: seq<T>, p: T -> bool): (n: nat)
    ensures n <= |s|
    ensures forall j :: 0 <= j < n ==> p(s[j])
    ensures n < |s| ==> !p(s[n])
    decreases |s|
  {
    if |s| == 0 || !p(s[0]) then 0 else 1 + RunLength(s[1..], p)
  }

  /** The elements of `s` that satisfy `p`, in order: a list comprehension with an `if` clause. */
  function Filter<T(==,!new)>(s: seq<T>, p: T -> bool): (r: seq<T>)
    ensures IsSubsequence(r, s)
    ensures forall x :: multiset(r)[x] == if p(x) then multiset(s)[x] else 0
    ensures forall x :: x in r <==> x in s && p(x)
    decreases |s|
  {
    if |s| == 0 then []
    else
      var rest := Filter(s[1..], p);
      assert s == [s[0]] + s[1..];
      if p(s[0]) then
        assert ([s[0]] + rest)[1..] == rest;
        [s[0]] + rest
      else rest
  }

  /** The append loop `out = []; for x in s: out.append(f(x))`: one result per element, in order. */
  method MapEach<A, B>(s: seq<A>, f: A -> B) returns (r: seq<B>)
    ensures |r| == |s|
    ensures forall i :: 0 <= i < |s| ==> r[i] == f(s[i])
  {
    r := [];
    for k := 0 to |s|
      invariant |r| == k
      invariant forall i :: 0 <= i < k ==> r[i] == f(s[i])
    {
      r := r + [f(s[k])];
    }
  }

  /** Total length of a list of strings. */
  function TotalLength(words: seq<string>): (r: nat) {
    if |words| == 0 then 0 else |words[0]| + TotalLength(words[1..])
  }

  /** Python's `sep.join(words)`. */
  function Join(words: seq<string>, sep: string): (r: string)
    ensures |words| == 0 ==> r == ""
    ensures |words| > 0 ==> |r| == TotalLength(words) + |sep| * (|words| - 1)
    ensures |words| > 0 ==> StartsWith(r, words[0])
    decreases |words|
  {
    if |words| == 0 then ""
    else if |words| == 1 then words[0]
    else words[0] + sep + Join(words[1..], sep)
  }
}
