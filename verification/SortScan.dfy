/**
 The scan over a sorted result: it merges the last two runs on the fly and can return to a
 saved position.

 As intended: a single run leaves the second side without more records (sort_scan.h:33-37
 leaves the flag unset), and a saved position includes which run is current and the has-more
 flags (sort_scan.h:98-112 saves the two record ids only).
 */
module SortScans {
  import opened Sorting

  datatype Side = NoSide | Left | Right

  /** Everything that next depends on. */
  datatype Position = Position(lhsPos: nat, rhsPos: nat, curr: Side, lhsMore: bool, rhsMore: bool)

  /** The position in the left run once its current record is passed. */
  function LeftNext(p: Position): nat {
    if p.curr.Left? then p.lhsPos + 1 else p.lhsPos
  }

  function RightNext(p: Position): nat {
    if p.curr.Right? then p.rhsPos + 1 else p.rhsPos
  }

  /** Which side next takes its record from, with the sides at l and r. */
  function Choice<T>(notLess: (T, T) -> bool, lhs: seq<T>, rhs: seq<T>, l: nat, r: nat): Side {
    if l < |lhs| && r < |rhs| then (if notLess(lhs[l], rhs[r]) then Right else Left)
    else if l < |lhs| then Left else Right
  }

  /** How many of the first n records come from the left run. */
  function LeftTaken<T>(notLess: (T, T) -> bool, lhs: seq<T>, rhs: seq<T>, n: nat): (l: nat)
    ensures l <= n && l <= |lhs| && (n <= |lhs| + |rhs| ==> n - l <= |rhs|)
  {
    if n == 0 then 0
    else
      var l := LeftTaken(notLess, lhs, rhs, n - 1);
      if Choice(notLess, lhs, rhs, l, n - 1 - l) == Left then l + 1 else l
  }

  /** What is left of a merge after its next record. */
  lemma MergeTail<T>(notLess: (T, T) -> bool, lhs: seq<T>, rhs: seq<T>, l: nat, r: nat, l': nat, r': nat)
    requires l <= |lhs| && r <= |rhs| && l + r < |lhs| + |rhs|
    requires if Choice(notLess, lhs, rhs, l, r) == Left then l' == l + 1 && r' == r else l' == l && r' == r + 1
    ensures l' <= |lhs| && r' <= |rhs|
    ensures Merge(notLess, lhs[l..], rhs[r..])[1..] == Merge(notLess, lhs[l'..], rhs[r'..])
  {
    if l < |lhs| && r < |rhs| {
      MergeStep(notLess, lhs, rhs, l, r);
    } else if l < |lhs| {
      assert rhs[r..] == [] && lhs[l..][1..] == lhs[l + 1..];
    } else {
      assert lhs[l..] == [] && rhs[r..][1..] == rhs[r + 1..];
    }
  }

  /** Taking the records one by one follows the merge. */
  lemma {:induction false} TakenIsMerge<T>(notLess: (T, T) -> bool, lhs: seq<T>, rhs: seq<T>, n: nat)
    requires n <= |lhs| + |rhs|
    ensures
      var l := LeftTaken(notLess, lhs, rhs, n);
      Merge(notLess, lhs, rhs)[n..] == Merge(notLess, lhs[l..], rhs[n - l..])
  {
    assert lhs[0..] == lhs && rhs[0..] == rhs;
    var tails := seq(n + 1, k requires 0 <= k <= n => TailAfter(notLess, lhs, rhs, k));
    forall k | 0 <= k < n
      ensures tails[k] != [] && tails[k][1..] == tails[k + 1]
    {
      TailNext(notLess, lhs, rhs, k);
    }
    TailsOf(Merge(notLess, lhs, rhs), tails, n);
  }

  /** What is left of the merge after n records. */
  function TailAfter<T>(notLess: (T, T) -> bool, lhs: seq<T>, rhs: seq<T>, n: nat): seq<T>
    requires n <= |lhs| + |rhs|
  {
    var l := LeftTaken(notLess, lhs, rhs, n);
    Merge(notLess, lhs[l..], rhs[n - l..])
  }

  lemma TailNext<T>(notLess: (T, T) -> bool, lhs: seq<T>, rhs: seq<T>, n: nat)
    requires n < |lhs| + |rhs|
    ensures TailAfter(notLess, lhs, rhs, n) != []
    ensures TailAfter(notLess, lhs, rhs, n)[1..] == TailAfter(notLess, lhs, rhs, n + 1)
  {
    var l, l' := LeftTaken(notLess, lhs, rhs, n), LeftTaken(notLess, lhs, rhs, n + 1);
    MergeTail(notLess, lhs, rhs, l, n - l, l', n + 1 - l');
  }

  /** Tails that lose a record at a time are those of m if the first is m. */
  lemma {:induction false} TailsOf<T>(m: seq<T>, tails: seq<seq<T>>, n: nat)
    requires n < |tails| && tails[0] == m
    requires forall k :: 0 <= k < |tails| - 1 ==> tails[k] != [] && tails[k][1..] == tails[k + 1]
    ensures n <= |m| && m[n..] == tails[n]
    decreases n
  {
    if n > 0 {
      TailsOf(m, tails, n - 1);
      assert m[n - 1..][1..] == m[n..];
    }
  }

  /** Record n of rows is the one taken after the first n. */
  ghost predicate TakenAt<T>(notLess: (T, T) -> bool, lhs: seq<T>, rhs: seq<T>, rows: seq<T>, n: nat) {
    var l := LeftTaken(notLess, lhs, rhs, n);
    n < |rows| == |lhs| + |rhs| ==>
      && (Choice(notLess, lhs, rhs, l, n - l) == Left ==> l < |lhs| && rows[n] == lhs[l])
      && (Choice(notLess, lhs, rhs, l, n - l) != Left ==> n - l < |rhs| && rows[n] == rhs[n - l])
  }

  lemma TakenNext<T>(notLess: (T, T) -> bool, lhs: seq<T>, rhs: seq<T>, n: nat)
    ensures TakenAt(notLess, lhs, rhs, Merge(notLess, lhs, rhs), n)
  {
    var l, m := LeftTaken(notLess, lhs, rhs, n), Merge(notLess, lhs, rhs);
    if n < |m| {
      TakenIsMerge(notLess, lhs, rhs, n);
      assert m[n] == m[n..][0];
      if l < |lhs| && n - l < |rhs| {
        MergeStep(notLess, lhs, rhs, l, n - l);
      }
    }
  }

  /** At position p, record i of rows is current, if there is one, and the sides stand where the first i + 1 records leave them. */
  ghost predicate AtIndex<T>(notLess: (T, T) -> bool, lhs: seq<T>, rhs: seq<T>, rows: seq<T>, p: Position, i: int) {
    && p.lhsPos <= |lhs| && p.rhsPos <= |rhs| && -1 <= i <= |rows| && |rows| == |lhs| + |rhs| > 0
    && p.lhsMore == (p.lhsPos < |lhs|) && p.rhsMore == (p.rhsPos < |rhs|)
    && (p.curr.NoSide? <==> i == -1)
    && (0 <= i < |rows| && p.curr.Left? ==> p.lhsMore && rows[i] == lhs[p.lhsPos])
    && (0 <= i < |rows| && p.curr.Right? ==> p.rhsMore && rows[i] == rhs[p.rhsPos])
    && (i < |rows| ==> LeftNext(p) == LeftTaken(notLess, lhs, rhs, i + 1) && LeftNext(p) + RightNext(p) == i + 1)
  }

  lemma NextIs<T>(notLess: (T, T) -> bool, lhs: seq<T>, rhs: seq<T>, rows: seq<T>, p: Position, i: int, p': Position)
    requires AtIndex(notLess, lhs, rhs, rows, p, i) && i < |rows| && TakenAt(notLess, lhs, rhs, rows, i + 1)
    requires p'.lhsPos == LeftNext(p) && p'.rhsPos == RightNext(p)
    requires p'.lhsMore == (p'.lhsPos < |lhs|) && p'.rhsMore == (p'.rhsPos < |rhs|)
    requires p'.lhsMore || p'.rhsMore ==> p'.curr == Choice(notLess, lhs, rhs, p'.lhsPos, p'.rhsPos)
    requires !p'.lhsMore && !p'.rhsMore ==> p'.curr == p.curr
    ensures (i + 1 < |rows|) == (p'.lhsMore || p'.rhsMore)
    ensures AtIndex(notLess, lhs, rhs, rows, p', i + 1)
  {
    assert i + 1 < |rows| ==> p'.curr == Choice(notLess, lhs, rhs, p'.lhsPos, p'.rhsPos);
  }

  class SortScan<T(!new)> {
    const notLess: (T, T) -> bool
    const lhs: seq<T>
    const rhs: seq<T>
    var lhsPos: nat
    var rhsPos: nat
    var curr: Side
    var lhsMore: bool
    var rhsMore: bool
    var saved: Position
    ghost const rows: seq<T>     // the records in scan order
    ghost var index: int         // how far the scan is in rows
    ghost var savedIndex: int

    ghost function Here(): Position
      reads this
    {
      Position(lhsPos, rhsPos, curr, lhsMore, rhsMore)
    }

    ghost predicate Valid()
      reads this
    {
      AtIndex(notLess, lhs, rhs, rows, Here(), index) && forall n: nat :: TakenAt(notLess, lhs, rhs, rows, n)
    }

    ghost predicate SavedOk()
      reads this
    {
      AtIndex(notLess, lhs, rhs, rows, saved, savedIndex)
    }

    constructor (notLess: (T, T) -> bool, runs: seq<seq<T>>)
      requires 1 <= |runs| <= 2 && runs[0] != []
      ensures Valid() && index == -1 && rows == Merge(notLess, runs[0], if |runs| > 1 then runs[1] else [])
      ensures this.notLess == notLess
    {
      this.notLess := notLess;
      lhs := runs[0];
      lhsPos, lhsMore := 0, |runs[0]| > 0;
      rhs := if |runs| > 1 then runs[1] else [];
      rhsPos, rhsMore := 0, |runs| > 1 && |runs[1]| > 0;
      curr, saved := NoSide, Position(0, 0, NoSide, false, false);
      rows := Merge(notLess, runs[0], if |runs| > 1 then runs[1] else []);
      index, savedIndex := -1, -1;
      new;
      forall n: nat
        ensures TakenAt(notLess, lhs, rhs, rows, n)
      {
        TakenNext(notLess, lhs, rhs, n);
      }
    }

    method BeforeFirst()
      requires Valid()
      modifies this`lhsPos, this`rhsPos, this`curr, this`lhsMore, this`rhsMore, this`index
      ensures Valid() && index == -1
    {
      curr := NoSide;
      lhsPos, lhsMore := 0, |lhs| > 0;
      rhsPos, rhsMore := 0, |rhs| > 0;
      index := -1;
    }

    method Next() returns (found: bool)
      requires Valid() && index < |rows|
      modifies this`lhsPos, this`rhsPos, this`curr, this`lhsMore, this`rhsMore, this`index
      ensures Valid() && index == old(index) + 1 && found == (index < |rows|)
    {
      ghost var p, i := Here(), index;
      assert TakenAt(notLess, lhs, rhs, rows, i + 1);
      if curr.Left? {
        lhsPos := lhsPos + 1;
        lhsMore := lhsPos < |lhs|;
      } else if curr.Right? {
        rhsPos := rhsPos + 1;
        rhsMore := rhsPos < |rhs|;
      }
      index := index + 1;
      found := lhsMore || rhsMore;
      if lhsMore && rhsMore {
        curr := if notLess(lhs[lhsPos], rhs[rhsPos]) then Right else Left;
      } else if lhsMore {
        curr := Left;
      } else if rhsMore {
        curr := Right;
      }
      NextIs(notLess, lhs, rhs, rows, p, i, Here());
    }

    /** The current record. */
    method Get() returns (row: T)
      requires Valid() && 0 <= index < |rows|
      ensures row == rows[index]
    {
      row := if curr.Left? then lhs[lhsPos] else rhs[rhsPos];
    }

    method SavePosition()
      requires Valid()
      modifies this`saved, this`savedIndex
      ensures Valid() && SavedOk() && savedIndex == index
    {
      saved := Position(lhsPos, rhsPos, curr, lhsMore, rhsMore);
      savedIndex := index;
    }

    /** Back to the saved record, and to everything that follows it. */
    method RestorePosition()
      requires Valid() && SavedOk()
      modifies this`lhsPos, this`rhsPos, this`curr, this`lhsMore, this`rhsMore, this`index
      ensures Valid() && SavedOk() && index == savedIndex
    {
      lhsPos, rhsPos, curr, lhsMore, rhsMore := saved.lhsPos, saved.rhsPos, saved.curr, saved.lhsMore, saved.rhsMore;
      index := savedIndex;
    }
  }

  /** sort_plan::open on a non-empty input: the scan shows its records in order. */
  method OpenSorted<T(!new)>(notLess: (T, T) -> bool, src: seq<T>) returns (scan: SortScan<T>, ghost passes: nat)
    requires Compares(notLess) && src != []
    ensures fresh(scan) && scan.Valid() && scan.index == -1 && scan.notLess == notLess
    ensures Sorted(notLess, scan.rows) && multiset(scan.rows) == multiset(src)
    ensures LeastPasses(RunCount(notLess, src), passes)
  {
    var runs;
    runs, passes := MergeRuns(notLess, src);
    scan := new SortScan(notLess, runs);
    MergeOfRuns(notLess, runs);
  }

  lemma MergeOfRuns<T(!new)>(notLess: (T, T) -> bool, runs: seq<seq<T>>)
    requires Compares(notLess) && AllSorted(notLess, runs) && 1 <= |runs| <= 2
    ensures
      var m := Merge(notLess, runs[0], if |runs| > 1 then runs[1] else []);
      Sorted(notLess, m) && multiset(m) == multiset(Flatten(runs))
  {
    var second := if |runs| > 1 then runs[1] else [];
    assert runs[0] != [] && Sorted(notLess, runs[0]) && Sorted(notLess, second);
    MergeSorts(notLess, runs[0], second);
    MergePermutes(notLess, runs[0], second);
    assert Flatten(runs) == runs[0] + Flatten(runs[1..]);
    assert |runs| > 1 ==> Flatten(runs[1..]) == second + Flatten(runs[1..][1..]);
  }

  /** Read the whole scan. */
  method ReadSorted<T(!new)>(notLess: (T, T) -> bool, src: seq<T>) returns (rows: seq<T>)
    requires Compares(notLess) && src != []
    ensures Sorted(notLess, rows) && multiset(rows) == multiset(src)
  {
    var scan, _ := OpenSorted(notLess, src);
    rows := ReadAll(scan);
  }

  method ReadAll<T(!new)>(scan: SortScan<T>) returns (rows: seq<T>)
    requires scan.Valid() && scan.index == -1
    modifies scan
    ensures rows == scan.rows
  {
    rows := [];
    var found := scan.Next();
    while found
      invariant scan.Valid() && 0 <= scan.index <= |scan.rows| && found == (scan.index < |scan.rows|)
      invariant rows == scan.rows[..scan.index]
      decreases |scan.rows| - scan.index
    {
      var row := scan.Get();
      rows := rows + [row];
      found := scan.Next();
    }
  }
}
