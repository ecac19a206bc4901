/**
 Merge join over two sorted scans, with the right one going back to the start of a group for
 every further left record of the same key.

 As intended: there is no join value before the first match (merge_join_scan.hpp:16 starts
 with a default constant that a first record could equal).
 */
module MergeJoins {
  import opened DbTypes
  import opened Sorting
  import opened SortScans

  // ---------- keys ----------

  ghost predicate Antisymmetric<K>(cmp: (K, K) -> int, a: K, b: K) {
    (cmp(a, b) == 0 <==> a == b) && (cmp(a, b) < 0 <==> cmp(b, a) > 0)
  }

  ghost predicate Transitive<K>(cmp: (K, K) -> int, a: K, b: K, c: K) {
    cmp(a, b) <= 0 && cmp(b, c) <= 0 ==> cmp(a, c) <= 0
  }

  /** compare_to orders all constants of a field. */
  ghost predicate Orders<K(!new)>(cmp: (K, K) -> int) {
    (forall a, b :: Antisymmetric(cmp, a, b)) && (forall a, b, c :: Transitive(cmp, a, b, c))
  }

  ghost predicate InOrderAt<T, K>(cmp: (K, K) -> int, key: T -> K, rows: seq<T>, i: int, j: int) {
    0 <= i <= j < |rows| ==> cmp(key(rows[i]), key(rows[j])) <= 0
  }

  ghost predicate InOrder<T, K>(cmp: (K, K) -> int, key: T -> K, rows: seq<T>) {
    forall i: int, j: int :: InOrderAt(cmp, key, rows, i, j)
  }

  /** What the order says about three keys. */
  lemma Keys<K(!new)>(cmp: (K, K) -> int, a: K, b: K, c: K)
    requires Orders(cmp)
    ensures cmp(a, b) < 0 && cmp(b, c) <= 0 ==> cmp(a, c) < 0 && a != c
    ensures cmp(a, b) <= 0 && cmp(b, c) < 0 ==> cmp(a, c) < 0 && a != c
    ensures (cmp(a, b) == 0 <==> a == b) && (cmp(a, b) < 0 <==> cmp(b, a) > 0) && (cmp(b, a) < 0 <==> cmp(a, b) > 0)
  {
    assert Transitive(cmp, a, b, c);
    assert Antisymmetric(cmp, a, b) && Antisymmetric(cmp, b, a) && Antisymmetric(cmp, a, c) && Antisymmetric(cmp, b, c);
  }

  // ---------- the nested-loop join ----------

  /** l with every right record of its key, in order. */
  function Matches<A, B, K(==)>(key1: A -> K, key2: B -> K, l: A, rows: seq<B>): seq<(A, B)> {
    if rows == [] then []
    else Matches(key1, key2, l, rows[..|rows| - 1]) +
         if key1(l) == key2(rows[|rows| - 1]) then [(l, rows[|rows| - 1])] else []
  }

  /** All pairs with equal keys, each once, by left record and then by right record. */
  function Join<A, B, K(==)>(key1: A -> K, key2: B -> K, lrows: seq<A>, rrows: seq<B>): seq<(A, B)> {
    if lrows == [] then []
    else Join(key1, key2, lrows[..|lrows| - 1], rrows) + Matches(key1, key2, lrows[|lrows| - 1], rrows)
  }

  lemma JoinUpTo<A, B, K>(key1: A -> K, key2: B -> K, lrows: seq<A>, rrows: seq<B>, i: nat)
    requires i < |lrows|
    ensures Join(key1, key2, lrows[..i + 1], rrows) ==
            Join(key1, key2, lrows[..i], rrows) + Matches(key1, key2, lrows[i], rrows)
  {
    assert lrows[..i + 1][..i] == lrows[..i];
  }

  lemma MatchesUpTo<A, B, K>(key1: A -> K, key2: B -> K, l: A, rows: seq<B>, j: nat)
    requires j < |rows|
    ensures Matches(key1, key2, l, rows[..j + 1]) ==
            Matches(key1, key2, l, rows[..j]) + if key1(l) == key2(rows[j]) then [(l, rows[j])] else []
  {
    assert rows[..j + 1][..j] == rows[..j];
  }

  lemma {:induction false} NoMatches<A, B, K>(key1: A -> K, key2: B -> K, l: A, rows: seq<B>)
    requires forall k :: 0 <= k < |rows| ==> key2(rows[k]) != key1(l)
    ensures Matches(key1, key2, l, rows) == []
    decreases |rows|
  {
    if rows != [] {
      NoMatches(key1, key2, l, rows[..|rows| - 1]);
    }
  }

  /** Right records from j on that do not match add nothing. */
  lemma {:induction false} NoMoreMatches<A, B, K>(key1: A -> K, key2: B -> K, l: A, rows: seq<B>, j: nat)
    requires j <= |rows| && forall k :: j <= k < |rows| ==> key2(rows[k]) != key1(l)
    ensures Matches(key1, key2, l, rows) == Matches(key1, key2, l, rows[..j])
    decreases |rows|
  {
    if j < |rows| {
      NoMoreMatches(key1, key2, l, rows[..|rows| - 1], j);
      assert rows[..|rows| - 1][..j] == rows[..j];
    } else {
      assert rows[..j] == rows;
    }
  }

  lemma OneMoreTimes(n: nat, m: nat)
    ensures (n + 1) * m == n * m + m
  {
  }

  /** Every pair of equal keys comes out as often as its two records occur, and no other pair does. */
  lemma {:induction false} JoinCount<A, B, K>(key1: A -> K, key2: B -> K, lrows: seq<A>, rrows: seq<B>, l: A, r: B)
    ensures multiset(Join(key1, key2, lrows, rrows))[(l, r)] ==
            if key1(l) == key2(r) then multiset(lrows)[l] * multiset(rrows)[r] else 0
    decreases |lrows|
  {
    if lrows != [] {
      var init, last := lrows[..|lrows| - 1], lrows[|lrows| - 1];
      assert lrows == init + [last];
      JoinCount(key1, key2, init, rrows, l, r);
      MatchesCount(key1, key2, last, rrows, l, r);
      assert multiset(lrows)[l] == multiset(init)[l] + if last == l then 1 else 0;
      OneMoreTimes(multiset(init)[l], multiset(rrows)[r]);
    }
  }

  lemma {:induction false} MatchesCount<A, B, K>(key1: A -> K, key2: B -> K, x: A, rows: seq<B>, l: A, r: B)
    ensures multiset(Matches(key1, key2, x, rows))[(l, r)] == if x == l && key1(l) == key2(r) then multiset(rows)[r] else 0
    decreases |rows|
  {
    if rows != [] {
      var init, last := rows[..|rows| - 1], rows[|rows| - 1];
      assert rows == init + [last];
      MatchesCount(key1, key2, x, init, l, r);
    }
  }

  // ---------- where the join is ----------

  /** The two inputs and how they are compared. */
  datatype Input<!A, !B, !K> = Input(key1: A -> K, key2: B -> K, cmp: (K, K) -> int, lrows: seq<A>, rrows: seq<B>)

  ghost predicate InputOk<A, B, K(!new)>(c: Input<A, B, K>) {
    Orders(c.cmp) && InOrder(c.cmp, c.key1, c.lrows) && InOrder(c.cmp, c.key2, c.rrows)
  }

  /** The last pair was (i, j), in a right group that starts at s. */
  ghost predicate OnPair<A, B, K>(c: Input<A, B, K>, out: seq<(A, B)>, i: int, j: int, s: int) {
    && 0 <= i < |c.lrows| && 0 <= s <= j < |c.rrows|
    && (forall k :: s <= k <= j ==> c.key2(c.rrows[k]) == c.key1(c.lrows[i]))
    && (forall k :: 0 <= k < s ==> c.cmp(c.key2(c.rrows[k]), c.key1(c.lrows[i])) < 0)
    && out == Join(c.key1, c.key2, c.lrows[..i], c.rrows) + Matches(c.key1, c.key2, c.lrows[i], c.rrows[..j + 1])
  }

  /** All pairs of left records before i are out, and right records before j are too small for i. */
  ghost predicate Searching<A, B, K>(c: Input<A, B, K>, out: seq<(A, B)>, i: int, j: int) {
    && 0 <= i <= |c.lrows| && 0 <= j <= |c.rrows|
    && (i < |c.lrows| ==> forall k :: 0 <= k < j ==> c.cmp(c.key2(c.rrows[k]), c.key1(c.lrows[i])) < 0)
    && out == Join(c.key1, c.key2, c.lrows[..i], c.rrows)
  }

  lemma NextInGroup<A, B, K(!new)>(c: Input<A, B, K>, out: seq<(A, B)>, i: int, j: int, s: int)
    requires OnPair(c, out, i, j, s) && j + 1 < |c.rrows| && c.key2(c.rrows[j + 1]) == c.key1(c.lrows[i])
    ensures OnPair(c, out + [(c.lrows[i], c.rrows[j + 1])], i, j + 1, s)
  {
    MatchesUpTo(c.key1, c.key2, c.lrows[i], c.rrows, j + 1);
    assert out + [(c.lrows[i], c.rrows[j + 1])] ==
           Join(c.key1, c.key2, c.lrows[..i], c.rrows) +
           (Matches(c.key1, c.key2, c.lrows[i], c.rrows[..j + 1]) + [(c.lrows[i], c.rrows[j + 1])]);
  }

  /** Behind its group, no right record has the group's key. */
  lemma BehindGroup<A, B, K(!new)>(c: Input<A, B, K>, out: seq<(A, B)>, i: int, j: int, s: int, k: int)
    requires InputOk(c) && OnPair(c, out, i, j, s) && j < k < |c.rrows|
    requires c.key2(c.rrows[j + 1]) != c.key1(c.lrows[i])
    ensures c.key2(c.rrows[k]) != c.key1(c.lrows[i])
  {
    var v, w := c.key1(c.lrows[i]), c.key2(c.rrows[j + 1]);
    assert c.key2(c.rrows[j]) == v;
    assert InOrderAt(c.cmp, c.key2, c.rrows, j, j + 1) && InOrderAt(c.cmp, c.key2, c.rrows, j + 1, k);
    Keys(c.cmp, v, w, c.key2(c.rrows[k]));
  }

  /** Up to its end, right records are too small for a left record of another key. */
  lemma BeforeGroupEnd<A, B, K(!new)>(c: Input<A, B, K>, out: seq<(A, B)>, i: int, j: int, s: int, k: int)
    requires InputOk(c) && OnPair(c, out, i, j, s) && 0 <= k <= j
    requires i + 1 < |c.lrows| && c.key1(c.lrows[i + 1]) != c.key1(c.lrows[i])
    ensures c.cmp(c.key2(c.rrows[k]), c.key1(c.lrows[i + 1])) < 0
  {
    var v, w := c.key1(c.lrows[i]), c.key1(c.lrows[i + 1]);
    assert InOrderAt(c.cmp, c.key1, c.lrows, i, i + 1);
    Keys(c.cmp, v, w, w);
    assert c.cmp(v, w) < 0;
    Keys(c.cmp, c.key2(c.rrows[k]), v, w);
    assert k < s ==> c.cmp(c.key2(c.rrows[k]), v) < 0;
  }

  /** The group is over for left record i: all of its pairs are out. */
  lemma GroupOver<A, B, K(!new)>(c: Input<A, B, K>, out: seq<(A, B)>, i: int, j: int, s: int)
    requires InputOk(c) && OnPair(c, out, i, j, s)
    requires j + 1 < |c.rrows| ==> c.key2(c.rrows[j + 1]) != c.key1(c.lrows[i])
    ensures out == Join(c.key1, c.key2, c.lrows[..i + 1], c.rrows)
    ensures i + 1 == |c.lrows| || c.key1(c.lrows[i + 1]) != c.key1(c.lrows[i]) ==> Searching(c, out, i + 1, j + 1)
  {
    forall k | j + 1 <= k < |c.rrows|
      ensures c.key2(c.rrows[k]) != c.key1(c.lrows[i])
    {
      BehindGroup(c, out, i, j, s, k);
    }
    NoMoreMatches(c.key1, c.key2, c.lrows[i], c.rrows, j + 1);
    JoinUpTo(c.key1, c.key2, c.lrows, c.rrows, i);
    if i + 1 < |c.lrows| && c.key1(c.lrows[i + 1]) != c.key1(c.lrows[i]) {
      forall k | 0 <= k < j + 1
        ensures c.cmp(c.key2(c.rrows[k]), c.key1(c.lrows[i + 1])) < 0
      {
        BeforeGroupEnd(c, out, i, j, s, k);
      }
    }
  }

  /** Between two calls: before the first pair, or on a pair whose key is v. */
  ghost predicate Paused<A, B, K>(c: Input<A, B, K>, out: seq<(A, B)>, v: Option<K>, i: int, j: int, s: int) {
    match v
    case None => i == -1 && j == -1 && out == []
    case Some(v) => OnPair(c, out, i, j, s) && c.key1(c.lrows[i]) == v
  }

  /** Where the search for the left record behind i begins: no right record behind j belongs to the pair's group. */
  ghost predicate Leaving<A, B, K>(c: Input<A, B, K>, out: seq<(A, B)>, v: Option<K>, i: int, j: int, s: int) {
    Paused(c, out, v, i, j, s) && (v.Some? && 0 <= j + 1 < |c.rrows| ==> c.key2(c.rrows[j + 1]) != v.value)
  }

  lemma GroupLeft<A, B, K(!new)>(c: Input<A, B, K>, out: seq<(A, B)>, v: Option<K>, i: int, j: int, s: int)
    requires InputOk(c) && Leaving(c, out, v, i, j, s)
    ensures i + 1 == |c.lrows| || v.None? || c.key1(c.lrows[i + 1]) != v.value ==> Searching(c, out, i + 1, j + 1)
    ensures v.Some? ==> out == Join(c.key1, c.key2, c.lrows[..i + 1], c.rrows)
  {
    if v.Some? {
      GroupOver(c, out, i, j, s);
    }
  }

  /** The next left record has the same key: start over in the group. */
  lemma GroupAgain<A, B, K(!new)>(c: Input<A, B, K>, out: seq<(A, B)>, i: int, j: int, s: int)
    requires InputOk(c) && OnPair(c, out, i, j, s) && out == Join(c.key1, c.key2, c.lrows[..i + 1], c.rrows)
    requires i + 1 < |c.lrows| && c.key1(c.lrows[i + 1]) == c.key1(c.lrows[i])
    ensures OnPair(c, out + [(c.lrows[i + 1], c.rrows[s])], i + 1, s, s)
  {
    FirstMatch(c, i + 1, s);
  }

  lemma FirstMatch<A, B, K(!new)>(c: Input<A, B, K>, i: int, j: int)
    requires InputOk(c) && 0 <= i < |c.lrows| && 0 <= j < |c.rrows| && c.key2(c.rrows[j]) == c.key1(c.lrows[i])
    requires forall k :: 0 <= k < j ==> c.cmp(c.key2(c.rrows[k]), c.key1(c.lrows[i])) < 0
    ensures Matches(c.key1, c.key2, c.lrows[i], c.rrows[..j + 1]) == [(c.lrows[i], c.rrows[j])]
  {
    MatchesUpTo(c.key1, c.key2, c.lrows[i], c.rrows, j);
    forall k | 0 <= k < j
      ensures c.key2(c.rrows[..j][k]) != c.key1(c.lrows[i])
    {
      assert c.cmp(c.key2(c.rrows[k]), c.key1(c.lrows[i])) < 0;
      Keys(c.cmp, c.key2(c.rrows[k]), c.key1(c.lrows[i]), c.key1(c.lrows[i]));
    }
    NoMatches(c.key1, c.key2, c.lrows[i], c.rrows[..j]);
  }

  lemma Found<A, B, K(!new)>(c: Input<A, B, K>, out: seq<(A, B)>, i: int, j: int)
    requires InputOk(c) && Searching(c, out, i, j) && i < |c.lrows| && j < |c.rrows|
    requires c.cmp(c.key1(c.lrows[i]), c.key2(c.rrows[j])) == 0
    ensures c.key1(c.lrows[i]) == c.key2(c.rrows[j]) && OnPair(c, out + [(c.lrows[i], c.rrows[j])], i, j, j)
  {
    Keys(c.cmp, c.key1(c.lrows[i]), c.key2(c.rrows[j]), c.key2(c.rrows[j]));
    FirstMatch(c, i, j);
  }

  /** A left record smaller than the current right one matches nothing. */
  lemma TooSmall<A, B, K(!new)>(c: Input<A, B, K>, out: seq<(A, B)>, i: int, j: int, k: int)
    requires InputOk(c) && Searching(c, out, i, j) && i < |c.lrows| && 0 <= k < |c.rrows|
    requires j < |c.rrows| ==> c.cmp(c.key1(c.lrows[i]), c.key2(c.rrows[j])) < 0
    ensures c.key2(c.rrows[k]) != c.key1(c.lrows[i])
  {
    var v, w := c.key1(c.lrows[i]), c.key2(c.rrows[k]);
    if k >= j {
      assert InOrderAt(c.cmp, c.key2, c.rrows, j, k);
      Keys(c.cmp, v, c.key2(c.rrows[j]), w);
    } else {
      Keys(c.cmp, w, v, v);
    }
  }

  lemma SkipLeft<A, B, K(!new)>(c: Input<A, B, K>, out: seq<(A, B)>, i: int, j: int)
    requires InputOk(c) && Searching(c, out, i, j) && i < |c.lrows|
    requires j < |c.rrows| ==> c.cmp(c.key1(c.lrows[i]), c.key2(c.rrows[j])) < 0
    ensures Searching(c, out, i + 1, j)
  {
    forall k | 0 <= k < |c.rrows|
      ensures c.key2(c.rrows[k]) != c.key1(c.lrows[i])
    {
      TooSmall(c, out, i, j, k);
    }
    NoMatches(c.key1, c.key2, c.lrows[i], c.rrows);
    JoinUpTo(c.key1, c.key2, c.lrows, c.rrows, i);
    if i + 1 < |c.lrows| {
      forall k | 0 <= k < j
        ensures c.cmp(c.key2(c.rrows[k]), c.key1(c.lrows[i + 1])) < 0
      {
        assert InOrderAt(c.cmp, c.key1, c.lrows, i, i + 1);
        Keys(c.cmp, c.key2(c.rrows[k]), c.key1(c.lrows[i]), c.key1(c.lrows[i + 1]));
      }
    }
  }

  lemma SkipRight<A, B, K(!new)>(c: Input<A, B, K>, out: seq<(A, B)>, i: int, j: int)
    requires InputOk(c) && Searching(c, out, i, j) && i < |c.lrows| && j < |c.rrows|
    requires c.cmp(c.key1(c.lrows[i]), c.key2(c.rrows[j])) > 0
    ensures Searching(c, out, i, j + 1)
  {
    Keys(c.cmp, c.key2(c.rrows[j]), c.key1(c.lrows[i]), c.key1(c.lrows[i]));
  }

  /** One side has run out: every pair is out. */
  lemma {:induction false} RanOut<A, B, K(!new)>(c: Input<A, B, K>, out: seq<(A, B)>, i: int, j: int)
    requires InputOk(c) && Searching(c, out, i, j) && (i == |c.lrows| || j == |c.rrows|)
    ensures out == Join(c.key1, c.key2, c.lrows, c.rrows)
    decreases |c.lrows| - i
  {
    if i == |c.lrows| {
      assert c.lrows[..i] == c.lrows;
    } else {
      SkipLeft(c, out, i, j);
      RanOut(c, out, i + 1, j);
    }
  }

  // ---------- the scan ----------

  class MergeJoinScan<A(!new), B(!new), K(!new, ==)> {
    const key1: A -> K
    const key2: B -> K
    const cmp: (K, K) -> int
    const lhs: SortScan<A>
    const rhs: SortScan<B>
    var joinVal: Option<K>
    ghost var out: seq<(A, B)>        // the pairs emitted so far

    ghost function Data(): Input<A, B, K> {
      Input(key1, key2, cmp, lhs.rows, rhs.rows)
    }

    ghost predicate Valid()
      reads this, lhs, rhs
    {
      && lhs as object != rhs as object && lhs.Valid() && rhs.Valid() && InputOk(Data())
      && (joinVal.Some? ==> rhs.SavedOk()) && Paused(Data(), out, joinVal, lhs.index, rhs.index, rhs.savedIndex)
    }

    constructor (lhs: SortScan<A>, rhs: SortScan<B>, key1: A -> K, key2: B -> K, cmp: (K, K) -> int)
      requires lhs as object != rhs as object && lhs.Valid() && rhs.Valid()
      requires InputOk(Input(key1, key2, cmp, lhs.rows, rhs.rows))
      modifies lhs, rhs
      ensures Valid() && out == []
      ensures this.lhs == lhs && this.rhs == rhs && Data() == Input(key1, key2, cmp, lhs.rows, rhs.rows)
    {
      this.lhs, this.rhs, this.key1, this.key2, this.cmp := lhs, rhs, key1, key2, cmp;
      joinVal, out := None, [];
      new;
      lhs.BeforeFirst();
      rhs.BeforeFirst();
    }

    /** Each call emits the next pair of the nested-loop join; the last one finds them all emitted. */
    method Next() returns (found: bool)
      requires Valid()
      modifies this`joinVal, this`out, lhs, rhs
      ensures found ==> Valid() && joinVal.Some? && out == old(out) + [(lhs.rows[lhs.index], rhs.rows[rhs.index])]
      ensures !found ==> out == old(out) == Join(key1, key2, lhs.rows, rhs.rows)
      ensures found && old(joinVal).Some? ==>
                lhs.index > old(lhs.index) || (lhs.index == old(lhs.index) && rhs.index > old(rhs.index))
    {
      ghost var i, j, s := lhs.index, rhs.index, rhs.savedIndex;
      var more2 := rhs.Next();
      if more2 && joinVal.Some? {
        var r := rhs.Get();
        if key2(r) == joinVal.value {
          NextInGroup(Data(), out, i, j, s);
          out := out + [(lhs.rows[i], r)];
          return true;
        }
      }
      found := NextLeft(more2, j);
    }

    /** The left side has moved on from i to a record of the same key: the right side starts its group over. */
    method BackToGroup(l: A, ghost i: int, ghost j: int)
      requires lhs as object != rhs as object && lhs.Valid() && rhs.Valid() && rhs.SavedOk() && InputOk(Data())
      requires OnPair(Data(), out, i, j, rhs.savedIndex) && out == Join(key1, key2, lhs.rows[..i + 1], rhs.rows)
      requires i + 1 == lhs.index < |lhs.rows| && l == lhs.rows[lhs.index] && joinVal == Some(key1(l))
      requires key1(l) == key1(lhs.rows[i])
      modifies this`out, rhs
      ensures Valid() && out == old(out) + [(l, rhs.rows[rhs.index])]
    {
      GroupAgain(Data(), out, i, j, rhs.savedIndex);
      rhs.RestorePosition();
      out := out + [(l, rhs.rows[rhs.index])];
    }

    /** The right side has left its group, if there was one: go on with the next left record. */
    method NextLeft(more2: bool, ghost j: int) returns (found: bool)
      requires lhs as object != rhs as object && lhs.Valid() && rhs.Valid() && InputOk(Data())
      requires rhs.index == j + 1 && more2 == (j + 1 < |rhs.rows|)
      requires (joinVal.Some? ==> rhs.SavedOk()) && Leaving(Data(), out, joinVal, lhs.index, j, rhs.savedIndex)
      modifies this`joinVal, this`out, lhs, rhs
      ensures found ==> Valid() && joinVal.Some? && out == old(out) + [(lhs.rows[lhs.index], rhs.rows[rhs.index])]
      ensures !found ==> out == old(out) == Join(key1, key2, lhs.rows, rhs.rows)
      ensures lhs.index > old(lhs.index)
    {
      ghost var i := lhs.index;
      GroupLeft(Data(), out, joinVal, i, j, rhs.savedIndex);
      var more1 := lhs.Next();
      if more1 && joinVal.Some? {
        var l := lhs.Get();
        if key1(l) == joinVal.value {
          BackToGroup(l, i, j);
          return true;
        }
      }
      found := Search(more1, more2);
    }

    /** No pair is current; the two scans stand where the search for the next pair goes on. */
    ghost predicate Seeking()
      reads this, lhs, rhs
    {
      && lhs as object != rhs as object && lhs.Valid() && rhs.Valid() && InputOk(Data())
      && Searching(Data(), out, lhs.index, rhs.index)
    }

    method AdvanceLeft() returns (more: bool)
      requires Seeking() && lhs.index < |lhs.rows| && rhs.index < |rhs.rows|
      requires cmp(key1(lhs.rows[lhs.index]), key2(rhs.rows[rhs.index])) < 0
      modifies lhs
      ensures Seeking() && lhs.index == old(lhs.index) + 1 && more == (lhs.index < |lhs.rows|)
    {
      SkipLeft(Data(), out, lhs.index, rhs.index);
      more := lhs.Next();
    }

    method AdvanceRight() returns (more: bool)
      requires Seeking() && lhs.index < |lhs.rows| && rhs.index < |rhs.rows|
      requires cmp(key1(lhs.rows[lhs.index]), key2(rhs.rows[rhs.index])) > 0
      modifies rhs
      ensures Seeking() && rhs.index == old(rhs.index) + 1 && more == (rhs.index < |rhs.rows|)
    {
      SkipRight(Data(), out, lhs.index, rhs.index);
      more := rhs.Next();
    }

    /** Both sides have the same key: remember where the right group starts. */
    method StartGroup(l: A, r: B)
      requires Seeking() && lhs.index < |lhs.rows| && rhs.index < |rhs.rows|
      requires l == lhs.rows[lhs.index] && r == rhs.rows[rhs.index] && cmp(key1(l), key2(r)) == 0
      modifies this`joinVal, this`out, rhs
      ensures Valid() && joinVal.Some? && out == old(out) + [(l, r)] && rhs.index == old(rhs.index)
    {
      Found(Data(), out, lhs.index, rhs.index);
      rhs.SavePosition();
      joinVal := Some(key2(r));
      out := out + [(l, r)];
    }

    /** The loop that advances the side with the smaller key. */
    method Search(hasMore1: bool, hasMore2: bool) returns (found: bool)
      requires Seeking() && hasMore1 == (lhs.index < |lhs.rows|) && hasMore2 == (rhs.index < |rhs.rows|)
      modifies this`joinVal, this`out, lhs, rhs
      ensures found ==> Valid() && joinVal.Some? && out == old(out) + [(lhs.rows[lhs.index], rhs.rows[rhs.index])]
      ensures !found ==> out == old(out) == Join(key1, key2, lhs.rows, rhs.rows)
      ensures lhs.index >= old(lhs.index)
    {
      var more1, more2 := hasMore1, hasMore2;
      while more1 && more2
        invariant Seeking() && lhs.index >= old(lhs.index) && out == old(out)
        invariant more1 == (lhs.index < |lhs.rows|) && more2 == (rhs.index < |rhs.rows|)
        decreases |lhs.rows| - lhs.index + |rhs.rows| - rhs.index
      {
        var l := lhs.Get();
        var r := rhs.Get();
        if cmp(key1(l), key2(r)) < 0 {
          more1 := AdvanceLeft();
        } else if cmp(key1(l), key2(r)) > 0 {
          more2 := AdvanceRight();
        } else {
          StartGroup(l, r);
          return true;
        }
      }
      RanOut(Data(), out, lhs.index, rhs.index);
      return false;
    }
  }

  /** Running the join to its end gives the nested-loop join of the two inputs. */
  method RunJoin<A(!new), B(!new), K(!new, ==)>(join: MergeJoinScan<A, B, K>) returns (pairs: seq<(A, B)>)
    requires join.Valid() && join.out == []
    modifies join, join.lhs, join.rhs
    ensures pairs == Join(join.key1, join.key2, join.lhs.rows, join.rhs.rows)
  {
    pairs := [];
    var found := join.Next();
    while found
      invariant found ==> join.Valid() && join.joinVal.Some? && join.out == pairs + [(join.lhs.rows[join.lhs.index], join.rhs.rows[join.rhs.index])]
      invariant !found ==> pairs == Join(join.key1, join.key2, join.lhs.rows, join.rhs.rows)
      decreases found, |join.lhs.rows| - join.lhs.index, |join.rhs.rows| - join.rhs.index
    {
      var l := join.lhs.Get();
      var r := join.rhs.Get();
      pairs := pairs + [(l, r)];
      found := join.Next();
    }
  }

  // ---------- sorted inputs ----------

  /** The order that both inputs of a merge join are sorted by: that of their join fields. */
  function ByKey<T, K>(cmp: (K, K) -> int, key: T -> K): (T, T) -> bool {
    (a: T, b: T) => cmp(key(a), key(b)) >= 0
  }

  lemma ByKeyCompares<T(!new), K(!new)>(cmp: (K, K) -> int, key: T -> K)
    requires Orders(cmp)
    ensures Compares(ByKey(cmp, key))
  {
    var notLess := ByKey(cmp, key);
    forall a, b
      ensures notLess(a, b) || notLess(b, a)
    {
      assert Antisymmetric(cmp, key(a), key(b)) && Antisymmetric(cmp, key(b), key(a));
    }
    forall a, b, c | notLess(a, b) && notLess(b, c)
      ensures notLess(a, c)
    {
      NotLessIs(cmp, key(a), key(b));
      NotLessIs(cmp, key(b), key(c));
      NotLessIs(cmp, key(a), key(c));
      assert Transitive(cmp, key(c), key(b), key(a));
    }
  }

  lemma NotLessIs<K(!new)>(cmp: (K, K) -> int, a: K, b: K)
    requires Orders(cmp)
    ensures cmp(a, b) >= 0 <==> cmp(b, a) <= 0
  {
    assert Antisymmetric(cmp, a, b) && Antisymmetric(cmp, b, a);
  }

  lemma SortedInOrder<T(!new), K(!new)>(cmp: (K, K) -> int, key: T -> K, rows: seq<T>)
    requires Orders(cmp) && Sorted(ByKey(cmp, key), rows)
    ensures InOrder(cmp, key, rows)
  {
    forall i: int, j: int
      ensures InOrderAt(cmp, key, rows, i, j)
    {
      if 0 <= i < j < |rows| {
        assert ByKey(cmp, key)(rows[j], rows[i]);
        NotLessIs(cmp, key(rows[j]), key(rows[i]));
      } else if 0 <= i == j < |rows| {
        assert Antisymmetric(cmp, key(rows[i]), key(rows[i]));
      }
    }
  }

  /** The order of the inputs does not matter to which pairs a join holds. */
  lemma JoinAnyOrder<A(!new), B(!new), K>(key1: A -> K, key2: B -> K, lrows: seq<A>, rrows: seq<B>, lrows': seq<A>,
                                          rrows': seq<B>)
    requires multiset(lrows) == multiset(lrows') && multiset(rrows) == multiset(rrows')
    ensures multiset(Join(key1, key2, lrows, rrows)) == multiset(Join(key1, key2, lrows', rrows'))
  {
    forall x: (A, B)
      ensures multiset(Join(key1, key2, lrows, rrows))[x] == multiset(Join(key1, key2, lrows', rrows'))[x]
    {
      JoinCount(key1, key2, lrows, rrows, x.0, x.1);
      JoinCount(key1, key2, lrows', rrows', x.0, x.1);
    }
  }

  /** merge_join_plan: sorting both inputs by their join fields and merging gives the nested-loop join. */
  method SortMergeJoin<A(!new), B(!new), K(!new, ==)>(key1: A -> K, key2: B -> K, cmp: (K, K) -> int, lrows: seq<A>,
                                                      rrows: seq<B>) returns (pairs: seq<(A, B)>)
    requires Orders(cmp) && lrows != [] && rrows != []
    ensures multiset(pairs) == multiset(Join(key1, key2, lrows, rrows))
  {
    ByKeyCompares(cmp, key1);
    ByKeyCompares(cmp, key2);
    var lhs, _ := OpenSorted(ByKey(cmp, key1), lrows);
    var rhs, _ := OpenSorted(ByKey(cmp, key2), rrows);
    SortedInOrder(cmp, key1, lhs.rows);
    SortedInOrder(cmp, key2, rhs.rows);
    var join := new MergeJoinScan(lhs, rhs, key1, key2, cmp);
    pairs := RunJoin(join);
    JoinAnyOrder(key1, key2, lhs.rows, rhs.rows, lrows, rrows);
  }
}
