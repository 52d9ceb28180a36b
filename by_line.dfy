/** `byLine`: the result buffer as a `sort.Interface` ordered by line number, and the
    in-place sort that puts the results back into input order. */
module ByLine {
  import opened Records

  /** `Less(i, j)`: ordered by `line` only; text and error play no part. */
  predicate Less(s: seq<Result>, i: int, j: int)
    requires 0 <= i < |s| && 0 <= j < |s|
  {
    s[i].line < s[j].line
  }

  /** What `sort.Sort` leaves behind: no element is `Less` than one before it. */
  predicate SortedByLine(s: seq<Result>)
  {
    forall i, j :: 0 <= i < j < |s| ==> !Less(s, j, i)
  }

  /** `Less` is a strict weak order, as `sort.Sort` demands of it: irreflexive,
      transitive, and with incomparability transitive too. */
  lemma LessIsStrictWeakOrder(s: seq<Result>, i: int, j: int, k: int)
    requires 0 <= i < |s| && 0 <= j < |s| && 0 <= k < |s|
    ensures !Less(s, i, i)
    ensures Less(s, i, j) && Less(s, j, k) ==> Less(s, i, k)
    ensures !Less(s, i, j) && !Less(s, j, i) && !Less(s, j, k) && !Less(s, k, j) ==>
              !Less(s, i, k) && !Less(s, k, i)
  {
  }

  /** `Swap(i, j)` exchanges two entries of the buffer and leaves the rest alone. */
  method Swap(a: array<Result>, i: int, j: int)
    requires 0 <= i < a.Length && 0 <= j < a.Length
    modifies a
    ensures a[i] == old(a[j]) && a[j] == old(a[i])
    ensures forall k :: 0 <= k < a.Length && k != i && k != j ==> a[k] == old(a[k])
    ensures multiset(a[..]) == old(multiset(a[..]))
  {
    a[i], a[j] := a[j], a[i];
  }

  /** `sort.Sort(results)`: reorders the buffer in place, only through `Swap`, until it
      is sorted by `Less`. (Any algorithm with this contract will do; this one is an
      insertion sort.) */
  method Sort(a: array<Result>)
    modifies a
    ensures SortedByLine(a[..])
    ensures multiset(a[..]) == old(multiset(a[..]))
  {
    var i := 0;
    while i < a.Length
      invariant 0 <= i <= a.Length
      invariant forall p, q :: 0 <= p < q < i ==> a[p].line <= a[q].line
      invariant multiset(a[..]) == old(multiset(a[..]))
    {
      var j := i;
      while 0 < j && Less(a[..], j, j - 1)
        invariant 0 <= j <= i
        invariant forall p, q :: 0 <= p < q <= i && p != j && q != j ==> a[p].line <= a[q].line
        invariant forall q :: j < q <= i ==> a[j].line <= a[q].line
        invariant multiset(a[..]) == old(multiset(a[..]))
      {
        Swap(a, j, j - 1);
        j := j - 1;
      }
      i := i + 1;
    }
  }

  /** Dropping entries from the end keeps a buffer sorted. */
  lemma SortedPrefix(t: seq<Result>, n: nat)
    requires SortedByLine(t) && n <= |t|
    ensures SortedByLine(t[..n])
  {
    forall p, q | 0 <= p < q < n
      ensures !Less(t[..n], q, p)
    {
      assert !Less(t, q, p);
    }
  }

  /** In a sorted permutation of `byPosition`, the last entry is the result for the
      last line. */
  lemma LastInLineOrder(t: seq<Result>, byPosition: seq<Result>)
    requires forall k :: 0 <= k < |byPosition| ==> byPosition[k].line == k
    requires SortedByLine(t)
    requires multiset(t) == multiset(byPosition)
    requires t != []
    ensures |t| == |byPosition| && t[|t| - 1] == byPosition[|t| - 1]
  {
    assert |t| == |multiset(t)| == |byPosition|;
    var n := |t| - 1;
    assert t[n] in multiset(byPosition);
    var j :| 0 <= j < |byPosition| && byPosition[j] == t[n];
    assert byPosition[n] in multiset(t);
    var i :| 0 <= i < |t| && t[i] == byPosition[n];
    assert i < n ==> !Less(t, n, i);
  }

  /** The buffer holds one result per line 0..n-1 (it is a permutation of `byPosition`,
      whose entry k is the result for line k); once it is sorted, position k holds
      the result for line k, whatever order the results arrived in. */
  lemma {:induction false} SortedPermutationIsInLineOrder(t: seq<Result>, byPosition: seq<Result>)
    requires forall k :: 0 <= k < |byPosition| ==> byPosition[k].line == k
    requires SortedByLine(t)
    requires multiset(t) == multiset(byPosition)
    ensures t == byPosition
  {
    if t == [] {
      assert |byPosition| == |multiset(byPosition)| == 0;
    } else {
      LastInLineOrder(t, byPosition);
      var n := |t| - 1;
      assert t == t[..n] + [t[n]];
      assert byPosition == byPosition[..n] + [t[n]];
      assert multiset(t) == multiset(t[..n]) + multiset{t[n]};
      assert multiset(byPosition) == multiset(byPosition[..n]) + multiset{t[n]};
      assert multiset(t[..n]) == multiset(t) - multiset{t[n]} == multiset(byPosition[..n]);
      SortedPrefix(t, n);
      SortedPermutationIsInLineOrder(t[..n], byPosition[..n]);
    }
  }
}
