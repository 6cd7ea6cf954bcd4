/** Generic sequence facts used by the filters and the test assembler. */
module Seqs {

  /** Order-preserving filter, the model of `Array.prototype.filter`. */
  function Filter<T>(p: T -> bool, s: seq<T>): (r: seq<T>)
    ensures |r| <= |s|
    ensures forall i :: 0 <= i < |r| ==> r[i] in s && p(r[i])
    ensures forall i :: 0 <= i < |s| ==> (s[i] in r <==> p(s[i]))
    ensures IsSubsequence(r, s)
    decreases |s|
  {
    if s == [] then []
    else if p(s[0]) then [s[0]] + Filter(p, s[1..])
    else Filter(p, s[1..])
  }

  /** `r` is obtained from `s` by deleting elements, keeping the order of the rest. */
  ghost predicate IsSubsequence<T>(r: seq<T>, s: seq<T>)
    decreases |s|
  {
    r == [] || (s != [] && ((r[0] == s[0] && IsSubsequence(r[1..], s[1..])) || IsSubsequence(r, s[1..])))
  }

  lemma {:induction false} FilterAll<T>(p: T -> bool, s: seq<T>)
    requires forall i :: 0 <= i < |s| ==> p(s[i])
    ensures Filter(p, s) == s
    decreases |s|
  {
    if s != [] {
      FilterAll(p, s[1..]);
    }
  }

  /** The filter keeps every copy of a passing element and no copy of a failing one. */
  lemma {:induction false} FilterCounts<T>(p: T -> bool, s: seq<T>)
    ensures forall x :: multiset(Filter(p, s))[x] == if p(x) then multiset(s)[x] else 0
    decreases |s|
  {
    if s != [] {
      FilterCounts(p, s[1..]);
      assert s == [s[0]] + s[1..];
    }
  }

  /** The first `n` elements, or all of them when there are fewer (`slice(0, n)`, `[:n]`). */
  function Take<T>(s: seq<T>, n: nat): (r: seq<T>)
    ensures |r| == if |s| < n then |s| else n
    ensures r == s[..|r|]
  {
    if |s| < n then s else s[..n]
  }

  /** `perm` is a bijection on the indices 0 .. n-1. */
  predicate IsIndexPermutation(perm: seq<nat>, n: nat)
  {
    && |perm| == n
    && (forall i :: 0 <= i < n ==> perm[i] < n)
    && (forall i, j :: 0 <= i < j < n ==> perm[i] != perm[j])
  }

  /** The rearrangement of `s` that puts `s[perm[i]]` at position `i`. */
  function Permute<T>(s: seq<T>, perm: seq<nat>): (r: seq<T>)
    requires IsIndexPermutation(perm, |s|)
    ensures |r| == |s|
    ensures forall i :: 0 <= i < |s| ==> r[i] == s[perm[i]]
  {
    seq(|s|, i requires 0 <= i < |s| => s[perm[i]])
  }

  /** The set of indices below `n`. */
  function Below(n: nat): (r: set<nat>)
    ensures |r| == n
    ensures forall v: nat :: v in r <==> v < n
  {
    if n == 0 then {} else Below(n - 1) + {n - 1}
  }

  /** An injective map of n indices into [0, n) reaches every index (pigeonhole). */
  lemma PermutationOnto(perm: seq<nat>, n: nat, k: nat)
    requires IsIndexPermutation(perm, n)
    requires k < n
    ensures exists j :: 0 <= j < n && perm[j] == k
  {
    if forall j :: 0 <= j < n ==> perm[j] != k {
      var values := set j | 0 <= j < n :: perm[j];
      ImageSize(perm, n);
      assert values <= Below(n) - {k};
      SubsetSize(values, Below(n) - {k});
      assert false;
    }
  }

  lemma SubsetSize(a: set<nat>, b: set<nat>)
    requires a <= b
    ensures |a| <= |b|
  {
    assert b == a + (b - a);
  }

  lemma {:induction false} ImageSize(perm: seq<nat>, n: nat)
    requires |perm| >= n
    requires forall i, j :: 0 <= i < j < n ==> perm[i] != perm[j]
    ensures |set j | 0 <= j < n :: perm[j]| == n
  {
    if n > 0 {
      ImageSize(perm, n - 1);
      var smaller := set j | 0 <= j < n - 1 :: perm[j];
      assert (set j | 0 <= j < n :: perm[j]) == smaller + {perm[n - 1]};
      assert perm[n - 1] !in smaller;
    }
  }

  /** Deleting the entry that maps to the last index leaves a permutation of one fewer index. */
  lemma RemoveLast(perm: seq<nat>, n: nat, j: nat)
    requires n > 0 && IsIndexPermutation(perm, n)
    requires j < n && perm[j] == n - 1
    ensures IsIndexPermutation(perm[..j] + perm[j + 1..], n - 1)
  {
    var rest := perm[..j] + perm[j + 1..];
    assert forall i :: 0 <= i < n - 1 ==> rest[i] == (if i < j then perm[i] else perm[i + 1]);
  }

  lemma PermuteSplit<T>(s: seq<T>, perm: seq<nat>, j: nat)
    requires |s| > 0 && IsIndexPermutation(perm, |s|)
    requires j < |s| && perm[j] == |s| - 1
    requires IsIndexPermutation(perm[..j] + perm[j + 1..], |s| - 1)
    ensures var q := Permute(s[..|s| - 1], perm[..j] + perm[j + 1..]);
            Permute(s, perm) == q[..j] + [s[|s| - 1]] + q[j..]
  {
    var rest := perm[..j] + perm[j + 1..];
    var q := Permute(s[..|s| - 1], rest);
    var p := Permute(s, perm);
    var r := q[..j] + [s[|s| - 1]] + q[j..];
    assert |p| == |r|;
    forall i | 0 <= i < |p|
      ensures p[i] == r[i]
    {
      if i < j {
        assert rest[i] == perm[i];
      } else if i > j {
        assert rest[i - 1] == perm[i];
      }
    }
  }

  /** Rearranging by an index permutation keeps every element with its multiplicity. */
  lemma {:induction false} PermuteMultiset<T>(s: seq<T>, perm: seq<nat>)
    requires IsIndexPermutation(perm, |s|)
    ensures multiset(Permute(s, perm)) == multiset(s)
    decreases |s|
  {
    var n := |s|;
    if n > 0 {
      PermutationOnto(perm, n, n - 1);
      var j :| 0 <= j < n && perm[j] == n - 1;
      var rest := perm[..j] + perm[j + 1..];
      RemoveLast(perm, n, j);
      var shorter := s[..n - 1];
      PermuteMultiset(shorter, rest);
      PermuteSplit(s, perm, j);
      SpliceMultiset(s, Permute(shorter, rest), j);
    }
  }

  lemma SpliceMultiset<T>(s: seq<T>, q: seq<T>, j: nat)
    requires |s| > 0 && j <= |q|
    requires multiset(q) == multiset(s[..|s| - 1])
    ensures multiset(q[..j] + [s[|s| - 1]] + q[j..]) == multiset(s)
  {
    assert q == q[..j] + q[j..];
    assert s == s[..|s| - 1] + [s[|s| - 1]];
  }

  /** Sum of a sequence of integers, accumulated from the left. */
  function Sum(s: seq<int>): int
    decreases |s|
  {
    if s == [] then 0 else Sum(s[..|s| - 1]) + s[|s| - 1]
  }
}
