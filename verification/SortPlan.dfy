/**
 External sorting: the input is cut into runs, runs are merged two by two until at most two
 are left, and a final scan merges those.

 The comparator is a parameter. The call sites read compare(a, b) as "a is not less than b"
 (sort_plan.h:43,74; sort_scan.h:62), while record_comparator.h:20-28 tests for equal fields;
 what the call sites mean is asked of the parameter.
 */
module Sorting {

  // ---------- what is asked of the comparator ----------

  /** notLess is a total preorder, read backwards. */
  ghost predicate Compares<T(!new)>(notLess: (T, T) -> bool) {
    && (forall a, b :: notLess(a, b) || notLess(b, a))
    && (forall a, b, c :: notLess(a, b) && notLess(b, c) ==> notLess(a, c))
  }

  ghost predicate Sorted<T>(notLess: (T, T) -> bool, s: seq<T>) {
    forall i, j :: 0 <= i < j < |s| ==> notLess(s[j], s[i])
  }

  ghost predicate AllSorted<T>(notLess: (T, T) -> bool, runs: seq<seq<T>>) {
    forall i :: 0 <= i < |runs| ==> runs[i] != [] && Sorted(notLess, runs[i])
  }

  // ---------- merging two runs ----------

  /** The merge of two runs; of two equal records the second run's goes first. */
  function Merge<T>(notLess: (T, T) -> bool, a: seq<T>, b: seq<T>): (m: seq<T>)
    ensures |m| == |a| + |b|
    decreases |a| + |b|
  {
    if a == [] then b
    else if b == [] then a
    else if !notLess(a[0], b[0]) then [a[0]] + Merge(notLess, a[1..], b)
    else [b[0]] + Merge(notLess, a, b[1..])
  }

  /** Merging loses and adds nothing. */
  lemma {:induction false} MergePermutes<T>(notLess: (T, T) -> bool, a: seq<T>, b: seq<T>)
    ensures multiset(Merge(notLess, a, b)) == multiset(a) + multiset(b)
    decreases |a| + |b|
  {
    if a != [] && b != [] {
      if !notLess(a[0], b[0]) {
        MergePermutes(notLess, a[1..], b);
        OneInFront(a[0], a[1..], a, Merge(notLess, a[1..], b), b);
      } else {
        MergePermutes(notLess, a, b[1..]);
        OneInFront(b[0], b[1..], b, Merge(notLess, a, b[1..]), a);
      }
    }
  }

  lemma OneInFront<T>(x: T, rest: seq<T>, whole: seq<T>, m: seq<T>, other: seq<T>)
    requires whole == [x] + rest && multiset(m) == multiset(rest) + multiset(other)
    ensures multiset([x] + m) == multiset(whole) + multiset(other)
  {
  }

  /** A record in front of two sorted runs is in front of their merge. */
  lemma InFront<T(!new)>(notLess: (T, T) -> bool, x: T, a: seq<T>, b: seq<T>)
    requires forall y :: y in a || y in b ==> notLess(y, x)
    ensures forall i :: 0 <= i < |Merge(notLess, a, b)| ==> notLess(Merge(notLess, a, b)[i], x)
  {
    MergePermutes(notLess, a, b);
    var m := Merge(notLess, a, b);
    forall i | 0 <= i < |m|
      ensures notLess(m[i], x)
    {
      assert m[i] in multiset(m);
      assert m[i] in multiset(a) || m[i] in multiset(b);
    }
  }

  lemma SortedHead<T(!new)>(notLess: (T, T) -> bool, a: seq<T>)
    requires Compares(notLess) && Sorted(notLess, a) && a != []
    ensures forall y :: y in a ==> notLess(y, a[0])
    ensures Sorted(notLess, a[1..])
  {
  }

  lemma SortedCons<T>(notLess: (T, T) -> bool, x: T, s: seq<T>)
    requires Sorted(notLess, s) && forall i :: 0 <= i < |s| ==> notLess(s[i], x)
    ensures Sorted(notLess, [x] + s)
  {
  }

  /** Merging two sorted runs gives a sorted one. */
  lemma {:induction false} MergeSorts<T(!new)>(notLess: (T, T) -> bool, a: seq<T>, b: seq<T>)
    requires Compares(notLess) && Sorted(notLess, a) && Sorted(notLess, b)
    ensures Sorted(notLess, Merge(notLess, a, b))
    decreases |a| + |b|
  {
    if a != [] && b != [] {
      SortedHead(notLess, a);
      SortedHead(notLess, b);
      if !notLess(a[0], b[0]) {
        MergeSorts(notLess, a[1..], b);
        forall y | y in a[1..] || y in b
          ensures notLess(y, a[0])
        {
          assert notLess(b[0], a[0]);
        }
        InFront(notLess, a[0], a[1..], b);
        SortedCons(notLess, a[0], Merge(notLess, a[1..], b));
      } else {
        MergeSorts(notLess, a, b[1..]);
        InFront(notLess, b[0], a, b[1..]);
        SortedCons(notLess, b[0], Merge(notLess, a, b[1..]));
      }
    }
  }

  lemma MergeStep<T>(notLess: (T, T) -> bool, a: seq<T>, b: seq<T>, i: nat, j: nat)
    requires i < |a| && j < |b|
    ensures Merge(notLess, a[i..], b[j..]) ==
            if !notLess(a[i], b[j]) then [a[i]] + Merge(notLess, a[i + 1..], b[j..]) else [b[j]] + Merge(notLess, a[i..], b[j + 1..])
  {
    assert a[i..][1..] == a[i + 1..] && b[j..][1..] == b[j + 1..];
  }

  lemma Shift<T>(s: seq<T>, x: T, r: seq<T>)
    ensures s + ([x] + r) == (s + [x]) + r
  {
  }

  /** sort_plan::merge_two_runs */
  method MergeTwoRuns<T>(notLess: (T, T) -> bool, run1: seq<T>, run2: seq<T>) returns (result: seq<T>)
    ensures result == Merge(notLess, run1, run2)
  {
    ghost var all := Merge(notLess, run1, run2);
    result := [];
    var i, j := 0, 0;
    while i < |run1| && j < |run2|
      invariant i <= |run1| && j <= |run2|
      invariant all == result + Merge(notLess, run1[i..], run2[j..])
      decreases |run1| - i + |run2| - j
    {
      MergeStep(notLess, run1, run2, i, j);
      if !notLess(run1[i], run2[j]) {
        Shift(result, run1[i], Merge(notLess, run1[i + 1..], run2[j..]));
        result, i := result + [run1[i]], i + 1;
      } else {
        Shift(result, run2[j], Merge(notLess, run1[i..], run2[j + 1..]));
        result, j := result + [run2[j]], j + 1;
      }
    }
    result, i := CopyRest(run1, i, result);
    result, j := CopyRest(run2, j, result);
    assert all == result;
  }

  /** Copy what is left of one run. */
  method CopyRest<T>(run: seq<T>, start: nat, before: seq<T>) returns (result: seq<T>, i: nat)
    requires start <= |run|
    ensures result == before + run[start..] && i == |run|
  {
    result, i := before, start;
    while i < |run|
      invariant start <= i <= |run| && result == before + run[start..i]
    {
      assert run[start..i + 1] == run[start..i] + [run[i]];
      result, i := result + [run[i]], i + 1;
    }
  }

  // ---------- runs ----------

  function Flatten<T>(runs: seq<seq<T>>): seq<T> {
    if runs == [] then [] else runs[0] + Flatten(runs[1..])
  }

  lemma {:induction false} FlattenConcat<T>(a: seq<seq<T>>, b: seq<seq<T>>)
    ensures Flatten(a + b) == Flatten(a) + Flatten(b)
    decreases |a|
  {
    if a == [] {
      assert a + b == b;
    } else {
      assert (a + b)[1..] == a[1..] + b;
      FlattenConcat(a[1..], b);
    }
  }

  ghost predicate BreakAt<T>(notLess: (T, T) -> bool, a: seq<T>, b: seq<T>) {
    a != [] && b != [] && !notLess(b[0], a[|a| - 1])
  }

  /** Between two neighbouring runs the order breaks, so no two runs could be one. */
  ghost predicate Breaks<T>(notLess: (T, T) -> bool, runs: seq<seq<T>>) {
    forall i, j :: 0 <= i < |runs| && j == i + 1 < |runs| ==> BreakAt(notLess, runs[i], runs[j])
  }

  lemma Longer<T(!new)>(notLess: (T, T) -> bool, run: seq<T>, x: T)
    requires Compares(notLess) && run != [] && Sorted(notLess, run) && notLess(x, run[|run| - 1])
    ensures Sorted(notLess, run + [x])
  {
    forall i | 0 <= i < |run|
      ensures notLess(x, run[i])
    {
      assert i < |run| - 1 ==> notLess(run[|run| - 1], run[i]);
    }
  }

  /** How often a record of s is less than the one before it. */
  function Descents<T>(notLess: (T, T) -> bool, s: seq<T>): nat {
    if |s| <= 1 then 0
    else Descents(notLess, s[..|s| - 1]) + if notLess(s[|s| - 1], s[|s| - 2]) then 0 else 1
  }

  function RunCount<T>(notLess: (T, T) -> bool, s: seq<T>): nat {
    if s == [] then 0 else 1 + Descents(notLess, s)
  }

  lemma OneMoreRead<T>(notLess: (T, T) -> bool, s: seq<T>, x: T)
    requires s != []
    ensures RunCount(notLess, s + [x]) == RunCount(notLess, s) + if notLess(x, s[|s| - 1]) then 0 else 1
  {
    assert (s + [x])[..|s|] == s;
  }

  /** done and then curr are the runs of what has been read. */
  ghost predicate CutSoFar<T>(notLess: (T, T) -> bool, done: seq<seq<T>>, curr: seq<T>, read: seq<T>) {
    && curr != [] && Flatten(done) + curr == read && AllSorted(notLess, done) && Sorted(notLess, curr)
    && |done| + 1 == RunCount(notLess, read)
    && Breaks(notLess, done) && (done != [] ==> BreakAt(notLess, done[|done| - 1], curr))
  }

  lemma SameRun<T(!new)>(notLess: (T, T) -> bool, done: seq<seq<T>>, curr: seq<T>, read: seq<T>, x: T)
    requires Compares(notLess) && CutSoFar(notLess, done, curr, read) && notLess(x, curr[|curr| - 1])
    ensures CutSoFar(notLess, done, curr + [x], read + [x])
  {
    OneMoreRead(notLess, read, x);
    Longer(notLess, curr, x);
    assert Flatten(done) + (curr + [x]) == (Flatten(done) + curr) + [x];
  }

  lemma NewRun<T>(notLess: (T, T) -> bool, done: seq<seq<T>>, curr: seq<T>, read: seq<T>, x: T)
    requires CutSoFar(notLess, done, curr, read) && !notLess(x, curr[|curr| - 1])
    ensures CutSoFar(notLess, done + [curr], [x], read + [x])
  {
    OneMoreRead(notLess, read, x);
    FlattenOneMore(done, curr);
    OneMoreBreak(notLess, done, curr);
  }

  lemma FlattenOneMore<T>(done: seq<seq<T>>, curr: seq<T>)
    ensures Flatten(done + [curr]) == Flatten(done) + curr
  {
    FlattenConcat(done, [curr]);
    assert Flatten([curr]) == curr + Flatten([]);
  }

  lemma OneMoreBreak<T>(notLess: (T, T) -> bool, done: seq<seq<T>>, curr: seq<T>)
    requires Breaks(notLess, done) && (done != [] ==> BreakAt(notLess, done[|done| - 1], curr))
    ensures Breaks(notLess, done + [curr])
  {
    var runs := done + [curr];
    forall i, j | 0 <= i < |runs| && j == i + 1 < |runs|
      ensures BreakAt(notLess, runs[i], runs[j])
    {
      assert j < |done| ==> BreakAt(notLess, done[i], done[j]);
    }
  }

  lemma AllRead<T>(notLess: (T, T) -> bool, done: seq<seq<T>>, curr: seq<T>, read: seq<T>)
    requires CutSoFar(notLess, done, curr, read)
    ensures |done + [curr]| == RunCount(notLess, read) && Flatten(done + [curr]) == read
    ensures AllSorted(notLess, done + [curr]) && Breaks(notLess, done + [curr])
  {
    FlattenOneMore(done, curr);
    OneMoreBreak(notLess, done, curr);
  }

  /** The next record goes to the current run, or to a new one if it is less than the last record. */
  method CopyToRun<T(!new)>(notLess: (T, T) -> bool, done: seq<seq<T>>, curr: seq<T>, x: T, ghost read: seq<T>)
    returns (done': seq<seq<T>>, curr': seq<T>)
    requires Compares(notLess) && CutSoFar(notLess, done, curr, read)
    ensures CutSoFar(notLess, done', curr', read + [x])
  {
    if !notLess(x, curr[|curr| - 1]) {
      NewRun(notLess, done, curr, read, x);
      done', curr' := done + [curr], [x];
    } else {
      SameRun(notLess, done, curr, read, x);
      done', curr' := done, curr + [x];
    }
  }

  /** split_into_runs: the input cut wherever a record is less than the one before it. */
  method SplitIntoRuns<T(!new)>(notLess: (T, T) -> bool, src: seq<T>) returns (runs: seq<seq<T>>)
    requires Compares(notLess)
    ensures Flatten(runs) == src && AllSorted(notLess, runs) && Breaks(notLess, runs)
    ensures |runs| == RunCount(notLess, src)
  {
    if src == [] {
      return [];
    }
    runs := [];
    var curr, i := [src[0]], 1;
    while i < |src|
      invariant 1 <= i <= |src| && CutSoFar(notLess, runs, curr, src[..i])
    {
      assert src[..i] + [src[i]] == src[..i + 1];
      runs, curr := CopyToRun(notLess, runs, curr, src[i], src[..i]);
      i := i + 1;
    }
    AllRead(notLess, runs, curr, src[..i]);
    runs := runs + [curr];
  }

  // ---------- one pass over all runs ----------

  /** Runs merged in pairs; the last one is kept when their number is odd. */
  function MergePass<T>(notLess: (T, T) -> bool, runs: seq<seq<T>>): (r: seq<seq<T>>)
    ensures |r| == (|runs| + 1) / 2
  {
    if |runs| <= 1 then runs else [Merge(notLess, runs[0], runs[1])] + MergePass(notLess, runs[2..])
  }

  lemma {:induction false} PassKeeps<T(!new)>(notLess: (T, T) -> bool, runs: seq<seq<T>>)
    requires Compares(notLess) && AllSorted(notLess, runs)
    ensures AllSorted(notLess, MergePass(notLess, runs))
    ensures multiset(Flatten(MergePass(notLess, runs))) == multiset(Flatten(runs))
    decreases |runs|
  {
    if |runs| > 1 {
      var rest := runs[2..];
      PassKeeps(notLess, rest);
      MergeSorts(notLess, runs[0], runs[1]);
      MergePermutes(notLess, runs[0], runs[1]);
      assert runs[1..][1..] == rest;
      assert Flatten(runs) == runs[0] + (runs[1] + Flatten(rest));
    }
  }

  method DoAMergeIteration<T>(notLess: (T, T) -> bool, runs: seq<seq<T>>) returns (result: seq<seq<T>>)
    ensures result == MergePass(notLess, runs)
  {
    result := [];
    var remaining := runs;
    while |remaining| > 1
      invariant MergePass(notLess, runs) == result + MergePass(notLess, remaining)
      decreases |remaining|
    {
      var plan1 := remaining[0];
      remaining := remaining[1..];
      var plan2 := remaining[0];
      remaining := remaining[1..];
      var merged := MergeTwoRuns(notLess, plan1, plan2);
      result := result + [merged];
    }
    if remaining != [] {
      result := result + [remaining[0]];
    }
  }

  // ---------- the number of passes ----------

  function Pow2(k: nat): (p: nat)
    ensures p >= 1
  {
    if k == 0 then 1 else 2 * Pow2(k - 1)
  }

  function CeilDiv(n: nat, d: nat): nat
    requires d > 0
  {
    (n + d - 1) / d
  }

  lemma CeilDivIs(n: nat, d: nat, q: int)
    requires d > 0
    ensures CeilDiv(n, d) == q <==> (q - 1) * d < n <= q * d || (n == 0 && q == 0)
    ensures CeilDiv(n, d) <= q <==> n <= q * d
  {
    var c := CeilDiv(n, d);
    assert c * d <= n + d - 1 < c * d + d;
    if q < c {
      assert q * d <= (c - 1) * d by { Times(q, c - 1, d); }
    } else if q > c {
      assert c * d <= (q - 1) * d by { Times(c, q - 1, d); }
    }
  }

  lemma Times(a: int, b: int, d: nat)
    requires a <= b
    ensures a * d <= b * d
  {
  }

  lemma CeilHalf(n: nat, d: nat)
    requires d > 0
    ensures (CeilDiv(n, d) + 1) / 2 == CeilDiv(n, 2 * d)
  {
    var c := CeilDiv(n, d);
    var q: int := (c + 1) / 2;
    CeilDivIs(n, d, c);
    CeilDivIs(n, 2 * d, q);
    Doubled(q, d);
    Doubled(q - 1, d);
    assert c == 2 * q || c == 2 * q - 1;
    CeilDivIs(n, d, 2 * q - 2);
  }

  lemma Doubled(q: int, d: int)
    ensures q * (2 * d) == (2 * q) * d
  {
  }

  /** k passes are the least number after which at most two of r runs are left. */
  ghost predicate LeastPasses(r: nat, k: nat) {
    CeilDiv(r, Pow2(k)) <= 2 && TooFew(r, k)
  }

  ghost predicate TooFew(r: nat, k: nat) {
    forall j: nat :: j < k ==> CeilDiv(r, Pow2(j)) > 2
  }

  lemma AfterPass(r: nat, k: nat, n: nat)
    requires n == CeilDiv(r, Pow2(k)) && n > 2 && TooFew(r, k)
    ensures (n + 1) / 2 == CeilDiv(r, Pow2(k + 1)) && TooFew(r, k + 1)
  {
    CeilHalf(r, Pow2(k));
  }

  /** Runs that hold the records of src, in order each. */
  ghost predicate RunsOf<T>(notLess: (T, T) -> bool, runs: seq<seq<T>>, src: seq<T>) {
    AllSorted(notLess, runs) && multiset(Flatten(runs)) == multiset(src) && (runs == []) == (src == [])
  }

  /** open: merge until at most two runs are left. */
  method MergeRuns<T(!new)>(notLess: (T, T) -> bool, src: seq<T>) returns (runs: seq<seq<T>>, ghost passes: nat)
    requires Compares(notLess)
    ensures |runs| <= 2 && RunsOf(notLess, runs, src)
    ensures LeastPasses(RunCount(notLess, src), passes) && |runs| == CeilDiv(RunCount(notLess, src), Pow2(passes))
  {
    runs := SplitIntoRuns(notLess, src);
    ghost var initial := |runs|;
    passes := 0;
    assert CeilDiv(initial, 1) == initial;
    while |runs| > 2
      invariant RunsOf(notLess, runs, src)
      invariant |runs| == CeilDiv(initial, Pow2(passes)) && TooFew(initial, passes)
      decreases |runs|
    {
      PassKeeps(notLess, runs);
      AfterPass(initial, passes, |runs|);
      runs := DoAMergeIteration(notLess, runs);
      passes := passes + 1;
    }
  }
}
