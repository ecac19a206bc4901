/**
 One-pass grouping with a look-ahead of one record, and the aggregates folded over each group.
 */
module GroupBys {
  import opened DbTypes
  import opened Sorting
  import opened SortScans

  // ---------- aggregates ----------

  /** count_fn holds a count; cmp_fn holds the value its comparison (new, held) prefers. */
  datatype Aggregate<!T, !V> = Count(count: int) | Best(field: T -> V, better: (V, V) -> bool, val: V)

  function First<T, V>(fn: Aggregate<T, V>, row: T): Aggregate<T, V> {
    match fn
    case Count(_) => Count(1)
    case Best(field, better, _) => Best(field, better, field(row))
  }

  function Next<T, V>(fn: Aggregate<T, V>, row: T): Aggregate<T, V> {
    match fn
    case Count(n) => Count(n + 1)
    case Best(field, better, val) => if better(field(row), val) then Best(field, better, field(row)) else fn
  }

  /** The state of an aggregate after a whole group. */
  function Fold<T, V>(fn: Aggregate<T, V>, rows: seq<T>): Aggregate<T, V>
    requires rows != []
  {
    if |rows| == 1 then First(fn, rows[0]) else Next(Fold(fn, rows[..|rows| - 1]), rows[|rows| - 1])
  }

  lemma FoldMore<T, V>(fn: Aggregate<T, V>, rows: seq<T>, row: T)
    requires rows != []
    ensures Fold(fn, rows + [row]) == Next(Fold(fn, rows), row)
  {
    assert (rows + [row])[..|rows|] == rows;
  }

  /** A count counts the records of its group. */
  lemma {:induction false} FoldCounts<T, V>(fn: Aggregate<T, V>, rows: seq<T>)
    requires rows != [] && fn.Count?
    ensures Fold(fn, rows) == Count(|rows|)
    decreases |rows|
  {
    if |rows| > 1 {
      FoldCounts(fn, rows[..|rows| - 1]);
    }
  }

  /** better orders values strictly: of two values, at most one is better, and being no better is transitive. */
  ghost predicate Strict<V(!new)>(better: (V, V) -> bool) {
    && (forall a, b :: better(a, b) ==> !better(b, a))
    && (forall a, b, c :: !better(a, b) && !better(b, c) ==> !better(a, c))
  }

  /** A minimum or maximum is a value of its group that no value of the group beats. */
  lemma {:induction false} FoldIsBest<T, V(!new)>(fn: Aggregate<T, V>, rows: seq<T>)
    requires rows != [] && fn.Best? && Strict(fn.better)
    ensures
      var r := Fold(fn, rows);
      && r.Best? && r.field == fn.field && r.better == fn.better
      && (exists i :: 0 <= i < |rows| && fn.field(rows[i]) == r.val)
      && (forall i :: 0 <= i < |rows| ==> !fn.better(fn.field(rows[i]), r.val))
    decreases |rows|
  {
    if |rows| == 1 {
      assert fn.field(rows[0]) == Fold(fn, rows).val;
    } else {
      var init, last := rows[..|rows| - 1], rows[|rows| - 1];
      FoldIsBest(fn, init);
      var before, after := Fold(fn, init), Fold(fn, rows);
      assert rows[|rows| - 1] == last;
      forall i | 0 <= i < |rows|
        ensures !fn.better(fn.field(rows[i]), after.val)
      {
        assert i < |init| ==> rows[i] == init[i] && !fn.better(fn.field(init[i]), before.val);
      }
      var k :| 0 <= k < |init| && fn.field(init[k]) == before.val;
      assert rows[k] == init[k];
    }
  }

  // ---------- groups ----------

  /** Records with equal keys stand together. */
  ghost predicate Grouped<T, K>(key: T -> K, rows: seq<T>) {
    forall i, j, k :: 0 <= i < j < k < |rows| && key(rows[i]) == key(rows[k]) ==> key(rows[j]) == key(rows[i])
  }

  /** Sorting by what tells the keys apart puts equal keys together. */
  lemma SortedIsGrouped<T(!new), K>(notLess: (T, T) -> bool, key: T -> K, rows: seq<T>)
    requires Compares(notLess) && Sorted(notLess, rows)
    requires forall a, b :: notLess(a, b) && notLess(b, a) <==> key(a) == key(b)
    ensures Grouped(key, rows)
  {
    forall i, j, k | 0 <= i < j < k < |rows| && key(rows[i]) == key(rows[k])
      ensures key(rows[j]) == key(rows[i])
    {
      assert notLess(rows[j], rows[i]) && notLess(rows[k], rows[j]) && notLess(rows[i], rows[k]);
    }
  }

  /** A row of the result: the group's key and its aggregates. */
  datatype Group<!T, K, !V> = Group(key: K, aggs: seq<Aggregate<T, V>>)

  /** The scan over rows[lo..hi] as one group. */
  ghost predicate IsGroup<T, K, V>(key: T -> K, fns: seq<Aggregate<T, V>>, rows: seq<T>, lo: int, hi: int, g: Group<T,
                                   K, V>) {
    && 0 <= lo < hi <= |rows| && g.key == key(rows[lo])
    && (forall i :: lo <= i < hi ==> key(rows[i]) == g.key)
    && (hi < |rows| ==> key(rows[hi]) != g.key)
    && |g.aggs| == |fns| && forall k :: 0 <= k < |fns| ==> g.aggs[k] == Fold(fns[k], rows[lo..hi])
  }

  class GroupByScan<T(!new), K(==, !new), V(!new)> {
    const rows: seq<T>
    const key: T -> K
    const fns: seq<Aggregate<T, V>>
    var pos: nat
    var moreGroups: bool
    var groupVal: Option<K>
    var aggs: seq<Aggregate<T, V>>

    ghost predicate Valid()
      reads this
    {
      pos <= |rows| && moreGroups == (pos < |rows|) && |aggs| == |fns|
    }

    constructor (rows: seq<T>, key: T -> K, fns: seq<Aggregate<T, V>>)
      ensures Valid() && pos == 0 && this.rows == rows && this.key == key && this.fns == fns
    {
      this.rows, this.key, this.fns := rows, key, fns;
      pos, moreGroups, groupVal, aggs := 0, |rows| > 0, None, fns;
    }

    method ProcessFirst()
      requires Valid() && pos < |rows|
      modifies this`aggs
      ensures |aggs| == |fns| && forall k :: 0 <= k < |fns| ==> aggs[k] == Fold(fns[k], rows[pos..pos + 1])
    {
      var i := 0;
      aggs := [];
      while i < |fns|
        invariant 0 <= i <= |fns| && |aggs| == i
        invariant forall k :: 0 <= k < i ==> aggs[k] == Fold(fns[k], rows[pos..pos + 1])
      {
        aggs := aggs + [First(fns[i], rows[pos])];
        i := i + 1;
      }
    }

    method ProcessNext(ghost lo: nat)
      requires Valid() && lo < pos < |rows|
      requires forall k :: 0 <= k < |fns| ==> aggs[k] == Fold(fns[k], rows[lo..pos])
      modifies this`aggs
      ensures |aggs| == |fns| && forall k :: 0 <= k < |fns| ==> aggs[k] == Fold(fns[k], rows[lo..pos + 1])
    {
      var i := 0;
      assert rows[lo..pos + 1] == rows[lo..pos] + [rows[pos]];
      while i < |fns|
        invariant 0 <= i <= |fns| == |aggs|
        invariant forall k :: 0 <= k < i ==> aggs[k] == Fold(fns[k], rows[lo..pos + 1])
        invariant forall k :: i <= k < |fns| ==> aggs[k] == Fold(fns[k], rows[lo..pos])
      {
        FoldMore(fns[i], rows[lo..pos], rows[pos]);
        aggs := aggs[i := Next(aggs[i], rows[pos])];
        i := i + 1;
      }
    }

    /** Fold the next group, reading one record past it. */
    method NextGroup() returns (found: bool)
      requires Valid()
      modifies this
      ensures Valid() && found == (old(pos) < |rows|)
      ensures found ==> groupVal.Some? && IsGroup(key, fns, rows, old(pos), pos, Group(groupVal.value, aggs))
      ensures !found ==> pos == old(pos)
    {
      if !moreGroups {
        return false;
      }
      ghost var lo := pos;
      ProcessFirst();
      var val := key(rows[pos]);
      groupVal := Some(val);
      pos := pos + 1;
      while pos < |rows| && key(rows[pos]) == val
        invariant lo < pos <= |rows| && |aggs| == |fns| && groupVal == Some(val)
        invariant forall k :: 0 <= k < |fns| ==> aggs[k] == Fold(fns[k], rows[lo..pos])
        invariant forall i :: lo <= i < pos ==> key(rows[i]) == val
      {
        moreGroups := true;
        ProcessNext(lo);
        pos := pos + 1;
      }
      moreGroups := pos < |rows|;
      found := true;
    }
  }

  // ---------- the whole result ----------

  /** cuts are the positions where the groups start, and the end. */
  ghost predicate GroupsOf<T, K, V>(key: T -> K, fns: seq<Aggregate<T, V>>, rows: seq<T>, cuts: seq<int>,
                                    groups: seq<Group<T, K, V>>) {
    && |cuts| == |groups| + 1 && cuts[0] == 0
    && forall g, h :: 0 <= g < |groups| && h == g + 1 ==> IsGroup(key, fns, rows, cuts[g], cuts[h], groups[g])
  }

  /** Read all groups. */
  method RunGroups<T(!new), K(==, !new), V(!new)>(scan: GroupByScan<T, K, V>) returns (groups: seq<Group<T, K, V>>,
                     ghost cuts: seq<int>)
    requires scan.Valid() && scan.pos == 0
    modifies scan
    ensures GroupsOf(scan.key, scan.fns, scan.rows, cuts, groups) && cuts[|groups|] == |scan.rows|
  {
    groups, cuts := [], [0];
    var found := scan.NextGroup();
    while found
      invariant scan.Valid() && GroupsOf(scan.key, scan.fns, scan.rows, cuts, groups)
      invariant found ==>
                  && scan.groupVal.Some? && cuts[|groups|] < scan.pos
                  && IsGroup(scan.key, scan.fns, scan.rows, cuts[|groups|], scan.pos, Group(scan.groupVal.value, scan.aggs))
      invariant !found ==> cuts[|groups|] == |scan.rows|
      decreases found, |scan.rows| - cuts[|groups|]
    {
      ghost var before := cuts;
      groups := groups + [Group(scan.groupVal.value, scan.aggs)];
      cuts := cuts + [scan.pos];
      found := scan.NextGroup();
    }
  }

  /** What the k-th aggregates, if they are counts, come to over the first n groups. */
  function CountSum<T, K, V>(groups: seq<Group<T, K, V>>, k: nat, n: nat): int
    requires n <= |groups| && forall g :: 0 <= g < n ==> k < |groups[g].aggs|
  {
    if n == 0 then 0
    else
      var agg := groups[n - 1].aggs[k];
      CountSum(groups, k, n - 1) + if agg.Count? then agg.count else 0
  }

  /** The counts of the groups in front of a cut sum to the number of records in front of it. */
  lemma {:induction false} CountsUpTo<T, K, V>(key: T -> K, fns: seq<Aggregate<T, V>>, rows: seq<T>, cuts: seq<int>,
      groups: seq<Group<T, K, V>>, k: nat, n: nat)
    requires GroupsOf(key, fns, rows, cuts, groups) && k < |fns| && fns[k].Count? && n <= |groups|
    ensures forall g :: 0 <= g < n ==> k < |groups[g].aggs|
    ensures CountSum(groups, k, n) == cuts[n]
    decreases n
  {
    if n > 0 {
      assert IsGroup(key, fns, rows, cuts[n - 1], cuts[n], groups[n - 1]);
      CountsUpTo(key, fns, rows, cuts, groups, k, n - 1);
      FoldCounts(fns[k], rows[cuts[n - 1]..cuts[n]]);
    }
  }

  /** A count in all groups of an input counts each of its records once. */
  lemma CountsAddUp<T, K, V>(key: T -> K, fns: seq<Aggregate<T, V>>, rows: seq<T>, cuts: seq<int>,
                             groups: seq<Group<T, K, V>>, k: nat)
    requires GroupsOf(key, fns, rows, cuts, groups) && cuts[|groups|] == |rows| && k < |fns| && fns[k].Count?
    ensures forall g :: 0 <= g < |groups| ==> k < |groups[g].aggs|
    ensures CountSum(groups, k, |groups|) == |rows|
  {
    CountsUpTo(key, fns, rows, cuts, groups, k, |groups|);
  }

  lemma {:induction false} CutsGrow<T, K, V>(key: T -> K, fns: seq<Aggregate<T, V>>, rows: seq<T>, cuts: seq<int>,
      groups: seq<Group<T, K, V>>, g: int, h: int)
    requires GroupsOf(key, fns, rows, cuts, groups) && 0 <= g < h <= |groups|
    ensures 0 <= cuts[g] < cuts[h] <= |rows|
    decreases h
  {
    assert IsGroup(key, fns, rows, cuts[h - 1], cuts[h], groups[h - 1]);
    if g < h - 1 {
      CutsGrow(key, fns, rows, cuts, groups, g, h - 1);
    }
  }

  /** On an input with equal keys together, no two groups have the same key. */
  lemma KeysDistinct<T, K, V>(key: T -> K, fns: seq<Aggregate<T, V>>, rows: seq<T>, cuts: seq<int>,
                              groups: seq<Group<T, K, V>>, g: int, h: int)
    requires Grouped(key, rows) && GroupsOf(key, fns, rows, cuts, groups) && 0 <= g < h < |groups|
    ensures groups[g].key != groups[h].key
  {
    assert IsGroup(key, fns, rows, cuts[g], cuts[g + 1], groups[g]);
    assert IsGroup(key, fns, rows, cuts[h], cuts[h + 1], groups[h]);
    if g + 1 < h {
      CutsGrow(key, fns, rows, cuts, groups, g + 1, h);
    }
  }

  /** Every record is in the group of its key. */
  lemma {:induction false} EveryRecord<T, K, V>(key: T -> K, fns: seq<Aggregate<T, V>>, rows: seq<T>, cuts: seq<int>,
      groups: seq<Group<T, K, V>>, i: int, n: int)
    returns (g: int)
    requires GroupsOf(key, fns, rows, cuts, groups) && 0 <= n <= |groups| && 0 <= i < cuts[n]
    ensures 0 <= g < n && cuts[g] <= i < cuts[g + 1] && i < |rows| && key(rows[i]) == groups[g].key
    decreases n
  {
    assert n > 0;
    assert IsGroup(key, fns, rows, cuts[n - 1], cuts[n], groups[n - 1]);
    if i >= cuts[n - 1] {
      g := n - 1;
    } else {
      g := EveryRecord(key, fns, rows, cuts, groups, i, n - 1);
    }
  }

  ghost predicate DistinctKeys<T, K, V>(groups: seq<Group<T, K, V>>) {
    forall g, h :: 0 <= g < h < |groups| ==> groups[g].key != groups[h].key
  }

  /** Every record's key has a group. */
  ghost predicate AllGrouped<T, K, V>(key: T -> K, rows: seq<T>, groups: seq<Group<T, K, V>>) {
    forall i :: 0 <= i < |rows| ==> exists g :: 0 <= g < |groups| && groups[g].key == key(rows[i])
  }

  /** group_by_plan: sorting by the group fields first puts every key of the input into exactly one group. */
  method SortAndGroup<T(!new), K(==, !new), V(!new)>(notLess: (T, T) -> bool, key: T -> K, fns: seq<Aggregate<T, V>>,
                                                     src: seq<T>)
    returns (groups: seq<Group<T, K, V>>, ghost rows: seq<T>, ghost cuts: seq<int>)
    requires Compares(notLess) && src != []
    requires forall a, b :: notLess(a, b) && notLess(b, a) <==> key(a) == key(b)
    ensures multiset(rows) == multiset(src)
    ensures GroupsOf(key, fns, rows, cuts, groups) && cuts[|groups|] == |rows|
    ensures DistinctKeys(groups) && AllGrouped(key, rows, groups)
  {
    var sorted := ReadSorted(notLess, src);
    SortedIsGrouped(notLess, key, sorted);
    var scan := new GroupByScan(sorted, key, fns);
    groups, cuts := RunGroups(scan);
    rows := sorted;
    forall g, h | 0 <= g < h < |groups|
      ensures groups[g].key != groups[h].key
    {
      KeysDistinct(key, fns, rows, cuts, groups, g, h);
    }
    forall i | 0 <= i < |rows|
      ensures exists g :: 0 <= g < |groups| && groups[g].key == key(rows[i])
    {
      var g := EveryRecord(key, fns, rows, cuts, groups, i, |groups|);
    }
  }
}
