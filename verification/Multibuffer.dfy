/**
 The product that reads its right input chunk by chunk, and the chunk size it uses.

 As written, an empty left input counts as one row, as it does in each of the products over the
 chunks. The right file must have a block (multibuffer_product_scan.h:54-66 has no product scan else).
 */
module Multibuffer {
  import opened Sorting
  import opened HeapFiles
  import opened Products

  // ---------- the size of a chunk ----------

  /** size blocks in chunks of k make this many chunks. */
  function Chunks(size: nat, k: nat): nat
    requires k > 0
  {
    CeilDiv(size, k)
  }

  lemma FewerInLarger(size: nat, k: nat, k': nat)
    requires 0 < k <= k'
    ensures Chunks(size, k') <= Chunks(size, k)
  {
    var q := Chunks(size, k);
    CeilDivIs(size, k, q);
    Scaled(q, k, k');
    CeilDivIs(size, k', q);
  }

  lemma Scaled(q: nat, k: nat, k': nat)
    requires k <= k'
    ensures q * k <= q * k'
  {
  }

  lemma Commutes(a: nat, b: nat)
    ensures a * b == b * a
  {
  }

  /** Once i is the least divisor that brings a chunk within avail, i chunks are what any size within avail needs. */
  lemma LeastDivisor(size: nat, avail: nat, i: nat)
    requires size > 0 && avail > 0 && i > 0 && CeilDiv(size, i) <= avail
    requires i > 1 ==> CeilDiv(size, i - 1) > avail
    ensures CeilDiv(size, i) > 0
    ensures Chunks(size, CeilDiv(size, i)) == i == Chunks(size, avail)
  {
    var k := CeilDiv(size, i);
    CeilDivIs(size, i, k);
    CeilDivIs(size, i, avail);
    Commutes(avail, i);
    CeilDivIs(size, avail, i);
    if i > 1 {
      CeilDivIs(size, i - 1, avail);
      Commutes(avail, i - 1);
      CeilDivIs(size, avail, i - 1);
    } else {
      CeilDivIs(size, avail, 0);
    }
    Commutes(k, i);
    CeilDivIs(size, k, i);
    FewerInLarger(size, k, avail);
  }

  /** best_factor: a chunk size that fits the usable frames and makes as few chunks as any that does. */
  method BestFactor(available: int, size: nat) returns (k: nat)
    requires size > 0
    ensures k > 0
    ensures available - 2 <= 1 ==> k == 1
    ensures available - 2 > 1 ==>
              && k <= available - 2 && Chunks(size, k) == Chunks(size, available - 2)
              && forall k': nat :: 0 < k' <= available - 2 ==> Chunks(size, k) <= Chunks(size, k')
  {
    var avail := available - 2;
    if avail <= 1 {
      return 1;
    }
    k := size;
    var i := 1;
    assert CeilDiv(size, 1) == size;
    while k > avail
      invariant 1 <= i <= size && k == CeilDiv(size, i) && (i > 1 ==> CeilDiv(size, i - 1) > avail)
      decreases size - i
    {
      if i == size {
        CeilDivIs(size, size, 1);
        assert false;
      }
      i := i + 1;
      k := (size + i - 1) / i;
    }
    LeastDivisor(size, avail, i);
    forall k': nat | 0 < k' <= avail
      ensures Chunks(size, k) <= Chunks(size, k')
    {
      FewerInLarger(size, k', avail);
    }
  }

  // ---------- the product in chunks ----------

  /** A product over the blocks from first to end. */
  method ChunkProduct<A, B>(lhs: ListScan<A>, blocks: seq<Slots<B>>, first: nat,
                            end: nat) returns (prod: ProductScan<A, B>)
    requires lhs.Valid() && first <= end < |blocks|
    modifies lhs
    ensures fresh(prod) && fresh(prod.rhs) && prod.Valid() && prod.out == []
    ensures prod.lhs == lhs && prod.rhs.pages == blocks[first..end + 1]
  {
    var rhs := new ChunkScan(blocks, first, end);
    lhs.BeforeFirst();
    prod := new ProductScan(lhs, rhs);
  }

  /** The products with each of some chunks, one after the other. */
  function ChunkPairs<A, B>(lrows: seq<A>, chunks: seq<seq<B>>): seq<(A, B)> {
    if chunks == [] then [] else ChunkPairs(lrows, chunks[..|chunks| - 1]) + Product(lrows, chunks[|chunks| - 1])
  }

  function Joined<T>(chunks: seq<seq<T>>): seq<T> {
    if chunks == [] then [] else Joined(chunks[..|chunks| - 1]) + chunks[|chunks| - 1]
  }

  lemma ChunkAdds<A, B>(lrows: seq<A>, chunks: seq<seq<B>>, chunk: seq<B>)
    ensures ChunkPairs(lrows, chunks + [chunk]) == ChunkPairs(lrows, chunks) + Product(lrows, chunk)
    ensures Joined(chunks + [chunk]) == Joined(chunks) + chunk
  {
    assert (chunks + [chunk])[..|chunks|] == chunks;
  }

  lemma BlocksAdd<B>(blocks: seq<Slots<B>>, first: nat, end: nat)
    requires first <= end <= |blocks|
    ensures UsedRows(blocks[..first]) + UsedRows(blocks[first..end]) == UsedRows(blocks[..end])
  {
    assert blocks[..end] == blocks[..first] + blocks[first..end];
    RowsConcat(blocks[..first], blocks[first..end]);
  }

  /** However the right rows are cut into chunks, the pairs are those of the product. */
  lemma {:induction false} ChunksMakeProduct<A, B>(lrows: seq<A>, chunks: seq<seq<B>>)
    ensures multiset(ChunkPairs(lrows, chunks)) == multiset(Product(lrows, Joined(chunks)))
    decreases |chunks|
  {
    if chunks == [] {
      ProductWithNone<A, B>(lrows);
    } else {
      var init, last := chunks[..|chunks| - 1], chunks[|chunks| - 1];
      ChunksMakeProduct(lrows, init);
      ProductSplits(lrows, Joined(init), last);
    }
  }

  class MultibufferProductScan<A, B> {
    const lhs: ListScan<A>
    const blocks: seq<Slots<B>>
    const chunkSize: nat
    var nextBlk: nat
    var prod: ProductScan<A, B>
    ghost var start: nat              // where the current chunk starts
    ghost var before: seq<seq<B>>     // the rows of the chunks before it
    ghost var done: seq<(A, B)>       // and their pairs

    /** The pairs emitted so far. */
    ghost function Out(): seq<(A, B)>
      reads this, prod
    {
      done + prod.out
    }

    ghost predicate ChunkOk()
      reads this, prod
    {
      && chunkSize > 0 && prod.lhs == lhs
      && start < nextBlk <= |blocks| && prod.rhs.pages == blocks[start..nextBlk]
      && done == ChunkPairs(lhs.TakenRows(), before) && Joined(before) == UsedRows(blocks[..start])
    }

    ghost predicate Valid()
      reads this, lhs, prod, prod.rhs
    {
      ChunkOk() && prod.Valid()
    }

    constructor (lhs: ListScan<A>, blocks: seq<Slots<B>>, available: int)
      requires lhs.Valid() && blocks != []
      modifies lhs
      ensures Valid() && Out() == [] && this.lhs == lhs && this.blocks == blocks && fresh(prod) && fresh(prod.rhs)
    {
      var size := BestFactor(available, |blocks|);
      var end := if size > |blocks| then |blocks| - 1 else size - 1;
      var first := ChunkProduct(lhs, blocks, 0, end);
      prod := first;
      this.lhs, this.blocks, chunkSize, nextBlk, start, before, done := lhs, blocks, size, end + 1, 0, [], [];
    }

    /** All pairs of the current chunk are out. */
    ghost predicate ChunkOut()
      requires ChunkOk()
      reads this, prod
    {
      prod.out == Product(lhs.TakenRows(), UsedRows(blocks[start..nextBlk]))
    }

    lemma ChunkDone()
      requires ChunkOk() && ChunkOut()
      ensures Out() == ChunkPairs(lhs.TakenRows(), before + [UsedRows(blocks[start..nextBlk])])
      ensures Joined(before + [UsedRows(blocks[start..nextBlk])]) == UsedRows(blocks[..nextBlk])
    {
      ChunkAdds(lhs.TakenRows(), before, UsedRows(blocks[start..nextBlk]));
      BlocksAdd(blocks, start, nextBlk);
    }

    lemma AllOut()
      requires ChunkOk() && ChunkOut() && nextBlk == |blocks|
      ensures multiset(Out()) == multiset(Product(lhs.TakenRows(), UsedRows(blocks)))
    {
      ChunkDone();
      assert blocks[..nextBlk] == blocks;
      ChunksMakeProduct(lhs.TakenRows(), before + [UsedRows(blocks[start..nextBlk])]);
    }

    /** use_next_chunk: pair every left row with the next chunk. */
    method UseNextChunk() returns (more: bool)
      requires ChunkOk() && lhs.Valid() && ChunkOut()
      modifies this`nextBlk, this`prod, this`start, this`before, this`done, lhs
      ensures more == (old(nextBlk) < |blocks|)
      ensures more ==> Valid() && fresh(prod) && fresh(prod.rhs) && nextBlk > old(nextBlk) && Out() == old(Out())
      ensures !more ==>
                prod == old(prod) && multiset(old(Out())) == multiset(Product(lhs.TakenRows(), UsedRows(blocks)))
    {
      if nextBlk >= |blocks| {
        AllOut();
        return false;
      }
      var end := nextBlk + chunkSize - 1;
      if end >= |blocks| {
        end := |blocks| - 1;
      }
      ChunkDone();
      before, done := before + [UsedRows(blocks[start..nextBlk])], Out();
      OpenChunk(end);
      more := true;
    }

    method OpenChunk(end: nat)
      requires lhs.Valid() && chunkSize > 0 && nextBlk <= end < |blocks|
      requires done == ChunkPairs(lhs.TakenRows(), before) && Joined(before) == UsedRows(blocks[..nextBlk])
      modifies this`nextBlk, this`prod, this`start, lhs
      ensures Valid() && fresh(prod) && fresh(prod.rhs) && nextBlk == end + 1 && Out() == done
    {
      var next := ChunkProduct(lhs, blocks, nextBlk, end);
      prod, start, nextBlk := next, nextBlk, end + 1;
      assert prod.Valid();
      assert done + [] == done;
    }

    /** The scan is further on: in a later chunk, or at a later left row, or at a later right row. */
    twostate predicate Moved()
      reads this, lhs, prod.rhs
    {
      || nextBlk > old(nextBlk)
      || (nextBlk == old(nextBlk) && prod == old(prod) && lhs.pos > old(lhs.pos))
      || (nextBlk == old(nextBlk) && prod == old(prod) && lhs.pos == old(lhs.pos) && |prod.rhs.seen| > old(|prod.rhs.seen|))
    }

    /** The next pair of the current chunk. */
    method NextInChunk() returns (found: bool)
      requires Valid()
      modifies lhs, prod, prod.rhs
      ensures ChunkOk() && (found ==> Valid() && prod.rhs.OnRecord() && Out() == old(Out()) + [prod.Current()])
      ensures !found ==> lhs.Valid() && ChunkOut() && Out() == old(Out())
      ensures found ==> Moved()
    {
      found := prod.Next();
    }

    /** Emits one pair, or finds the pairs of the whole product emitted, whatever the chunk size. */
    method Next() returns (found: bool)
      requires Valid()
      modifies this`nextBlk, this`prod, this`start, this`before, this`done, lhs, prod, prod.rhs
      ensures found ==> Valid() && prod.rhs.OnRecord() && Out() == old(Out()) + [prod.Current()]
      ensures found ==> Moved()
      ensures !found ==> multiset(old(Out())) == multiset(Product(lhs.TakenRows(), UsedRows(blocks)))
      ensures prod == old(prod) || (fresh(prod) && fresh(prod.rhs))
    {
      found := NextInChunk();
      while !found
        invariant ChunkOk()
        invariant found ==> Valid() && prod.rhs.OnRecord() && Out() == old(Out()) + [prod.Current()]
        invariant !found ==> lhs.Valid() && ChunkOut() && Out() == old(Out())
        invariant prod == old(prod) || (fresh(prod) && fresh(prod.rhs))
        invariant (found ==> Moved()) && nextBlk >= old(nextBlk)
        decreases !found, |blocks| - nextBlk
      {
        var more := UseNextChunk();
        if !more {
          return false;
        }
        found := NextInChunk();
      }
    }
  }
  /** Running the chunked product to its end: every pair as often as in the product, whatever the chunk size. */
  method RunProduct<A, B>(scan: MultibufferProductScan<A, B>) returns (pairs: seq<(A, B)>)
    requires scan.Valid() && scan.Out() == []
    modifies scan, scan.lhs, scan.prod, scan.prod.rhs
    ensures multiset(pairs) == multiset(Product(scan.lhs.TakenRows(), UsedRows(scan.blocks)))
  {
    pairs := [];
    var more := true;
    while more
      invariant scan.prod == old(scan.prod) || fresh(scan.prod)
      invariant scan.prod.rhs == old(scan.prod.rhs) || fresh(scan.prod.rhs)
      invariant more ==> scan.Valid() && scan.Out() == pairs
      invariant !more ==> multiset(pairs) == multiset(Product(scan.lhs.TakenRows(), UsedRows(scan.blocks)))
      decreases more, |scan.blocks| - scan.nextBlk, |scan.lhs.TakenRows()| - scan.lhs.pos, |scan.prod.rhs.rows| - |scan.prod.rhs.seen|
    {
      more := scan.Next();
      if more {
        pairs := pairs + [scan.prod.Current()];
      }
    }
  }
}
