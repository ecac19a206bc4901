/** The scan over a range of blocks, and the nested-loop product of two scans. */
module Products {
  import opened HeapFiles

  // ---------- any scan, by the rows it shows ----------

  /**
   What a scan gives a product that takes its first row without asking whether there is one. Without
   a row that is what reading the scan behind its end returns, and then the rows the scan shows if it
   is asked again after it has said that there is none.
   */
  function Taken<T>(rows: seq<T>, behind: T, again: seq<T>): (taken: seq<T>)
    ensures taken != []
  {
    if rows == [] then [behind] + again else rows
  }

  class ListScan<T> {
    const rows: seq<T>
    const behind: T
    const again: seq<T>
    var pos: int

    ghost predicate Valid()
      reads this
    {
      -1 <= pos <= |TakenRows()|
    }

    /** The rows a product takes from here. */
    function TakenRows(): (taken: seq<T>)
      ensures taken != []
    {
      Taken(rows, behind, again)
    }

    constructor (rows: seq<T>, behind: T, again: seq<T>)
      ensures Valid() && pos == -1 && this.rows == rows && this.behind == behind && this.again == again
    {
      this.rows, this.behind, this.again := rows, behind, again;
      pos := -1;
    }

    /** What reading a field goes to. */
    function Row(): T
      reads this
    {
      if 0 <= pos < |TakenRows()| then TakenRows()[pos] else behind
    }

    method BeforeFirst()
      modifies this
      ensures Valid() && pos == -1
    {
      pos := -1;
    }

    /** The answer to the first call is whether there is a row at all. */
    method Next() returns (found: bool)
      requires Valid()
      modifies this
      ensures Valid() && pos == if old(pos) < |TakenRows()| then old(pos) + 1 else old(pos)
      ensures found == (pos < |TakenRows()| && (rows != [] || pos > 0))
    {
      if pos < |TakenRows()| {
        pos := pos + 1;
      }
      found := pos < |TakenRows()| && (rows != [] || pos > 0);
    }
  }

  // ---------- a range of blocks ----------

  /** chunk_scan: the records in blocks start to end. */
  class ChunkScan<T> {
    const pages: seq<Slots<T>>
    var currBlk: nat               // counted from start
    var currSlot: int
    ghost const rows: seq<T>       // the records in scan order
    ghost var seen: seq<T>         // the records passed, the current one last

    ghost predicate Valid()
      reads this
    {
      rows == UsedRows(pages) && PositionOk(pages, currBlk, currSlot) && seen == Passed(pages, currBlk, currSlot)
    }

    /** On a record: it is the last one seen. */
    ghost predicate OnRecord()
      reads this
    {
      PositionOk(pages, currBlk, currSlot) && currSlot >= 0 && pages[currBlk][currSlot].used
    }

    constructor (blocks: seq<Slots<T>>, start: nat, end: nat)
      requires start <= end < |blocks|
      ensures Valid() && seen == [] && pages == blocks[start..end + 1] && rows == UsedRows(pages)
    {
      pages := blocks[start..end + 1];
      rows := UsedRows(blocks[start..end + 1]);
      currBlk, currSlot, seen := 0, -1, [];
    }

    method BeforeFirst()
      requires Valid()
      modifies this
      ensures Valid() && seen == []
    {
      currBlk, currSlot, seen := 0, -1, [];
    }

    method Next() returns (found: bool)
      requires Valid()
      modifies this
      ensures Valid()
      ensures found ==> OnRecord() && seen == old(seen) + [pages[currBlk][currSlot].row] && IsPrefix(seen, rows)
      ensures !found ==> seen == old(seen) == rows
    {
      found, currBlk, currSlot := NextUsed(pages, currBlk, currSlot);
      seen := Passed(pages, currBlk, currSlot);
      PassedIsPrefix(pages, currBlk, currSlot);
    }
  }

  // ---------- the product of two scans ----------

  /** l with every right row. */
  function RowOf<A, B>(l: A, rrows: seq<B>): (r: seq<(A, B)>)
    ensures |r| == |rrows| && forall k :: 0 <= k < |r| ==> r[k] == (l, rrows[k])
  {
    seq(|rrows|, k requires 0 <= k < |rrows| => (l, rrows[k]))
  }

  function Product<A, B>(lrows: seq<A>, rrows: seq<B>): seq<(A, B)> {
    if lrows == [] then [] else Product(lrows[..|lrows| - 1], rrows) + RowOf(lrows[|lrows| - 1], rrows)
  }

  lemma ProductUpTo<A, B>(lrows: seq<A>, rrows: seq<B>, i: nat)
    requires i < |lrows|
    ensures Product(lrows[..i + 1], rrows) == Product(lrows[..i], rrows) + RowOf(lrows[i], rrows)
  {
    assert lrows[..i + 1][..i] == lrows[..i];
  }

  lemma {:induction false} ProductWithNone<A, B>(lrows: seq<A>)
    ensures Product<A, B>(lrows, []) == []
    decreases |lrows|
  {
    if lrows != [] {
      ProductWithNone<A, B>(lrows[..|lrows| - 1]);
    }
  }

  lemma RowGrows<A, B>(front: seq<(A, B)>, l: A, seen: seq<B>, r: B)
    ensures (front + RowOf(l, seen)) + [(l, r)] == front + RowOf(l, seen + [r])
  {
  }

  lemma RowStarts<A, B>(front: seq<(A, B)>, l: A)
    ensures front + RowOf<A, B>(l, []) == front
  {
  }

  /** Splitting the right input splits the product. */
  lemma {:induction false} ProductSplits<A, B>(lrows: seq<A>, r1: seq<B>, r2: seq<B>)
    ensures multiset(Product(lrows, r1 + r2)) == multiset(Product(lrows, r1)) + multiset(Product(lrows, r2))
    decreases |lrows|
  {
    if lrows != [] {
      var init, l := lrows[..|lrows| - 1], lrows[|lrows| - 1];
      ProductSplits(init, r1, r2);
      assert RowOf(l, r1 + r2) == RowOf(l, r1) + RowOf(l, r2);
    }
  }

  lemma OneMoreTimes(n: nat, m: nat)
    ensures (n + 1) * m == n * m + m
  {
  }

  /** The product holds every pair as often as its two rows occur. */
  lemma {:induction false} ProductCount<A, B>(lrows: seq<A>, rrows: seq<B>, l: A, r: B)
    ensures multiset(Product(lrows, rrows))[(l, r)] == multiset(lrows)[l] * multiset(rrows)[r]
    decreases |lrows|
  {
    if lrows != [] {
      var init, last := lrows[..|lrows| - 1], lrows[|lrows| - 1];
      assert lrows == init + [last];
      ProductCount(init, rrows, l, r);
      RowCount(last, rrows, l, r);
      assert multiset(lrows)[l] == multiset(init)[l] + if last == l then 1 else 0;
      OneMoreTimes(multiset(init)[l], multiset(rrows)[r]);
    }
  }

  lemma {:induction false} RowCount<A, B>(x: A, rrows: seq<B>, l: A, r: B)
    ensures multiset(RowOf(x, rrows))[(l, r)] == if x == l then multiset(rrows)[r] else 0
    decreases |rrows|
  {
    if rrows != [] {
      var init, last := rrows[..|rrows| - 1], rrows[|rrows| - 1];
      assert rrows == init + [last];
      assert RowOf(x, rrows) == RowOf(x, init) + [(x, last)];
      RowCount(x, init, l, r);
    }
  }

  lemma {:induction false} ProductEmpty<A, B>(lrows: seq<A>, rrows: seq<B>)
    ensures Product(lrows, rrows) == [] <==> lrows == [] || rrows == []
    decreases |lrows|
  {
    if lrows != [] {
      ProductEmpty(lrows[..|lrows| - 1], rrows);
      assert |RowOf(lrows[|lrows| - 1], rrows)| == |rrows|;
    }
  }

  /** Taking a row that is not there makes a difference unless the right input is empty too. */
  lemma TakenIsProduct<A, B>(lrows: seq<A>, behind: A, again: seq<A>, rrows: seq<B>)
    ensures multiset(Product(Taken(lrows, behind, again), rrows)) == multiset(Product(lrows, rrows)) <==>
            lrows != [] || rrows == []
  {
    var taken := Taken(lrows, behind, again);
    if lrows == [] {
      ProductEmpty(taken, rrows);
      assert |multiset(Product(taken, rrows))| == |Product(taken, rrows)|;
    }
  }

  class ProductScan<A, B> {
    const lhs: ListScan<A>
    const rhs: ChunkScan<B>
    ghost var out: seq<(A, B)>       // the pairs emitted so far

    /** Left row i is current, and its pairs with the right rows passed are out. */
    ghost predicate Valid()
      reads this, lhs, rhs
    {
      && lhs as object != rhs as object && lhs.Valid() && rhs.Valid()
      && 0 <= lhs.pos < |lhs.TakenRows()| && IsPrefix(rhs.seen, rhs.rows)
      && out == Product(lhs.TakenRows()[..lhs.pos], rhs.rows) + RowOf(lhs.TakenRows()[lhs.pos], rhs.seen)
    }

    /** The pair whose fields the scan shows. */
    function Current(): (A, B)
      requires rhs.OnRecord()
      reads lhs, rhs
    {
      (lhs.Row(), rhs.pages[rhs.currBlk][rhs.currSlot].row)
    }

    constructor (lhs: ListScan<A>, rhs: ChunkScan<B>)
      requires lhs as object != rhs as object && lhs.Valid() && rhs.Valid()
      modifies lhs, rhs
      ensures Valid() && out == [] && this.lhs == lhs && this.rhs == rhs && rhs.seen == []
    {
      this.lhs, this.rhs, out := lhs, rhs, [];
      new;
      lhs.BeforeFirst();
      var _ := lhs.Next();
      rhs.BeforeFirst();
    }

    /**
     The next pair, in the order of the product. As written, before_first does not notice that there
     is no left row: the product then starts with whatever reading the left scan behind its end gives.
     TakenIsProduct says when that matters.
     */
    method Next() returns (found: bool)
      requires Valid()
      modifies this`out, lhs, rhs
      ensures found ==> Valid() && rhs.OnRecord() && out == old(out) + [Current()]
      ensures found ==> lhs.pos > old(lhs.pos) || (lhs.pos == old(lhs.pos) && |rhs.seen| > old(|rhs.seen|))
      ensures !found ==> out == old(out) == Product(lhs.TakenRows(), rhs.rows) && lhs.Valid() && rhs.Valid()
    {
      ghost var i := lhs.pos;
      var more := rhs.Next();
      if more {
        RowGrows(Product(lhs.TakenRows()[..i], rhs.rows), lhs.TakenRows()[i], old(rhs.seen), rhs.pages[rhs.currBlk][rhs.currSlot].row);
        out := out + [Current()];
        return true;
      }
      rhs.BeforeFirst();
      more := rhs.Next();
      if more {
        found := NextLeft(i);
      } else {
        ProductWithNone<A, B>(lhs.TakenRows());
        ProductWithNone<A, B>(lhs.TakenRows()[..i]);
        found := false;
      }
    }

    /** The right scan is on its first row again: go on with the next left row. */
    method NextLeft(ghost i: int) returns (found: bool)
      requires lhs as object != rhs as object && lhs.Valid() && rhs.Valid() && i == lhs.pos && rhs.OnRecord()
      requires rhs.seen == [rhs.pages[rhs.currBlk][rhs.currSlot].row] && IsPrefix(rhs.seen, rhs.rows)
      requires 0 <= i < |lhs.TakenRows()|
      requires out == Product(lhs.TakenRows()[..i], rhs.rows) + RowOf(lhs.TakenRows()[i], rhs.rows)
      modifies this`out, lhs
      ensures found ==> Valid() && rhs.OnRecord() && out == old(out) + [Current()] && lhs.pos == i + 1
      ensures !found ==> out == old(out) == Product(lhs.TakenRows(), rhs.rows) && lhs.Valid() && rhs.Valid()
    {
      ProductUpTo(lhs.TakenRows(), rhs.rows, i);
      found := lhs.Next();
      if found {
        RowStarts<A, B>(out, lhs.TakenRows()[i + 1]);
        RowGrows(out, lhs.TakenRows()[i + 1], [], rhs.seen[0]);
        assert [] + [rhs.seen[0]] == rhs.seen;
        out := out + [Current()];
      } else {
        assert lhs.TakenRows()[..i + 1] == lhs.TakenRows();
      }
    }
  }
}
