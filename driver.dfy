/** `main`: number the input lines, hand them to the workers, tell the collector how
    many there were, wait for it, and sort the buffer back into input order. The
    goroutines are abstracted away: the workers' finishing order is an arbitrary
    permutation of the lines, and the total reaches the collector at an arbitrary
    point among their results. */
module Driver {
  import opened Records
  import opened Translation
  import opened Collection
  import opened ByLine

  /** The read loop: line i of the input becomes item i, in read order, and the number
      of lines read is the total sent to the collector. */
  method Number(lines: seq<string>) returns (items: seq<SourceText>, total: nat)
    ensures total == |lines| == |items|
    ensures forall k :: 0 <= k < |items| ==> items[k].line == k && items[k].text == lines[k]
    ensures forall k, m :: 0 <= k < m < |items| ==> items[k].line < items[m].line
  {
    items := [];
    var i := 0;
    while i < |lines|
      invariant i <= |lines| && |items| == i
      invariant forall k :: 0 <= k < i ==> items[k].line == k && items[k].text == lines[k]
    {
      items := items + [SourceText(i, lines[i])];
      i := i + 1;
    }
    total := i;
  }

  /** The positions 0, 1, ..., n-1. */
  function Upto(n: nat): (r: seq<nat>)
    ensures |r| == n
    ensures forall k :: 0 <= k < n ==> r[k] == k
  {
    if n == 0 then [] else Upto(n - 1) + [n - 1]
  }

  /** Every entry of `order` is a position among n lines. */
  predicate AllBelow(order: seq<nat>, n: nat)
  {
    forall j :: 0 <= j < |order| ==> order[j] < n
  }

  /** The results in the order the workers deliver them: the j-th to arrive is the result
      for item order[j]. */
  function Pick(outcomes: seq<Result>, order: seq<nat>): seq<Result>
    requires AllBelow(order, |outcomes|)
  {
    seq(|order|, j requires 0 <= j < |order| => outcomes[order[j]])
  }

  lemma PickSplit(outcomes: seq<Result>, a: seq<nat>, b: seq<nat>)
    requires AllBelow(a, |outcomes|)
    requires AllBelow(b, |outcomes|)
    ensures AllBelow(a + b, |outcomes|)
    ensures Pick(outcomes, a + b) == Pick(outcomes, a) + Pick(outcomes, b)
  {
  }

  /** Taking one position out of an arrival order. */
  lemma RemoveAt(t: seq<nat>, i: nat)
    requires i < |t|
    ensures multiset(t[..i] + t[i + 1..]) == multiset(t) - multiset{t[i]}
  {
    assert t == t[..i] + [t[i]] + t[i + 1..];
  }

  /** Positions in range stay in range when reordered. */
  lemma PermutedInRange(s: seq<nat>, t: seq<nat>, n: nat)
    requires AllBelow(s, n)
    requires multiset(s) == multiset(t)
    ensures AllBelow(t, n)
  {
    forall j | 0 <= j < |t|
      ensures t[j] < n
    {
      assert t[j] in multiset(s);
    }
  }

  /** The result at position i of an arrival order, taken out of what it delivers. */
  lemma PickRemoveAt(outcomes: seq<Result>, t: seq<nat>, i: nat)
    requires AllBelow(t, |outcomes|)
    requires i < |t|
    ensures AllBelow(t[..i] + t[i + 1..], |outcomes|)
    ensures multiset(Pick(outcomes, t)) ==
            multiset(Pick(outcomes, t[..i] + t[i + 1..])) + multiset{outcomes[t[i]]}
  {
    var front, back := t[..i], t[i + 1..];
    assert t == front + [t[i]] + back;
    PickSplit(outcomes, front, back);
    PickSplit(outcomes, front, [t[i]]);
    PickSplit(outcomes, front + [t[i]], back);
    assert Pick(outcomes, [t[i]]) == [outcomes[t[i]]];
  }

  /** Two arrival orders with the same positions deliver the same results, counted with
      multiplicity. */
  lemma {:induction false} PermutedPick(outcomes: seq<Result>, s: seq<nat>, t: seq<nat>)
    requires AllBelow(s, |outcomes|)
    requires multiset(s) == multiset(t)
    ensures AllBelow(t, |outcomes|)
    ensures multiset(Pick(outcomes, s)) == multiset(Pick(outcomes, t))
  {
    PermutedInRange(s, t, |outcomes|);
    if s == [] {
      assert |t| == |multiset(t)| == 0;
    } else {
      var n := |s| - 1;
      assert s[n] in multiset(t);
      var i :| 0 <= i < |t| && t[i] == s[n];
      RemoveAt(s, n);
      RemoveAt(t, i);
      PickRemoveAt(outcomes, s, n);
      PermutedPick(outcomes, s[..n] + s[n + 1..], t[..i] + t[i + 1..]);
      PickRemoveAt(outcomes, t, i);
    }
  }

  lemma PickAll(outcomes: seq<Result>)
    ensures Pick(outcomes, Upto(|outcomes|)) == outcomes
  {
    var all := Upto(|outcomes|);
    var picked := Pick(outcomes, all);
    assert |picked| == |outcomes|;
    forall j | 0 <= j < |outcomes|
      ensures picked[j] == outcomes[j]
    {
      assert all[j] == j;
    }
  }

  /** Whatever order the workers finish in, the collector receives every line's result
      exactly once. */
  lemma ArrivalIsPermutation(outcomes: seq<Result>, order: seq<nat>)
    requires multiset(order) == multiset(Upto(|outcomes|))
    ensures |order| == |outcomes|
    ensures AllBelow(order, |outcomes|)
    ensures multiset(Pick(outcomes, order)) == multiset(outcomes)
  {
    assert |order| == |multiset(order)| == |outcomes|;
    var all := Upto(|outcomes|);
    PermutedPick(outcomes, all, order);
    PickAll(outcomes);
  }

  /** Results delivered to the collector, all of them receives of `translated`. */
  function AsArrivals(rs: seq<Result>): seq<Event>
  {
    seq(|rs|, j requires 0 <= j < |rs| => Arrive(rs[j]))
  }

  lemma {:induction false} AsArrivalsCounted(rs: seq<Result>)
    ensures Arrivals(AsArrivals(rs)) == rs && Totals(AsArrivals(rs)) == []
  {
    if rs != [] {
      assert AsArrivals(rs)[..|rs| - 1] == AsArrivals(rs[..|rs| - 1]);
      AsArrivalsCounted(rs[..|rs| - 1]);
      assert rs == rs[..|rs| - 1] + [rs[|rs| - 1]];
    }
  }

  /** What the collector's select loop receives when the first `totalAt` results arrive
      before the total and the others after it. */
  function Interleave(arrived: seq<Result>, totalAt: nat, n: nat): seq<Event>
    requires totalAt <= |arrived|
  {
    AsArrivals(arrived[..totalAt]) + [Total(n)] + AsArrivals(arrived[totalAt..])
  }

  /** A lone total. */
  lemma TotalAlone(n: nat)
    ensures Arrivals([Total(n)]) == [] && Totals([Total(n)]) == [n]
  {
    assert [Total(n)][..0] == [];
  }

  /** Results, then the total, then more results. */
  lemma ResultsAroundTotal(early: seq<Result>, late: seq<Result>, n: nat)
    ensures Arrivals(AsArrivals(early) + [Total(n)] + AsArrivals(late)) == early + late
    ensures Totals(AsArrivals(early) + [Total(n)] + AsArrivals(late)) == [n]
  {
    var before, after := AsArrivals(early), AsArrivals(late);
    AsArrivalsCounted(early);
    AsArrivalsCounted(late);
    TotalAlone(n);
    EventsSplit(before, [Total(n)]);
    EventsSplit(before + [Total(n)], after);
  }

  /** Wherever the total falls among the n results, the collector sees a schedule for n
      lines, and the results in the order they arrived. */
  lemma InterleaveIsSchedule(arrived: seq<Result>, totalAt: nat, n: nat)
    requires |arrived| == n && totalAt <= n
    ensures IsSchedule(Interleave(arrived, totalAt, n), n)
    ensures Arrivals(Interleave(arrived, totalAt, n)) == arrived
  {
    ResultsAroundTotal(arrived[..totalAt], arrived[totalAt..], n);
    assert arrived[..totalAt] + arrived[totalAt..] == arrived;
  }

  /** The whole program on `lines`: `replies[k]` is what the translation service made of
      line k, the workers finish in `order` (any permutation of the lines) and the total
      reaches the collector after `totalAt` of their results. Line k of the output is
      the translation of input line k (empty when it failed), whatever the order. */
  method TranslateAll(lines: seq<string>, replies: seq<Reply>, order: seq<nat>, totalAt: nat)
    returns (output: seq<string>)
    requires |replies| == |lines|
    requires multiset(order) == multiset(Upto(|lines|))
    requires totalAt <= |lines|
    ensures |output| == |lines|
    ensures forall k :: 0 <= k < |lines| ==> output[k] == Translate(SourceText(k, lines[k]), replies[k]).text
  {
    var items, total := Number(lines);
    // Each item is translated exactly once, by whichever worker takes it.
    var outcomes := seq(total, k requires 0 <= k < total => Translate(items[k], replies[k]));
    assert forall k :: 0 <= k < total ==> outcomes[k].line == k;
    ArrivalIsPermutation(outcomes, order);
    var arrived := Pick(outcomes, order);
    InterleaveIsSchedule(arrived, totalAt, total);
    var results, received, finished := Collect(Interleave(arrived, totalAt, total));
    assert results == arrived;
    var sorted := SortResults(results);
    SortedPermutationIsInLineOrder(sorted, outcomes);
    output := seq(|sorted|, k requires 0 <= k < |sorted| => sorted[k].text);
  }

  /** `sort.Sort(results)` on the collected buffer, in place. */
  method SortResults(results: seq<Result>) returns (sorted: seq<Result>)
    ensures SortedByLine(sorted)
    ensures multiset(sorted) == multiset(results)
  {
    var buffer := new Result[|results|](k requires 0 <= k < |results| => results[k]);
    assert buffer[..] == results;
    Sort(buffer);
    sorted := buffer[..];
  }
}
