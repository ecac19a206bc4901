/**
 Heap files: blocks of slots that hold a record or are free. A freed slot keeps its old
 record, and gets it back as a first value when it is used again.
 */
module HeapFiles {
  import opened DbTypes

  datatype Slot<T> = Slot(used: bool, row: T)

  type Slots<T> = seq<Slot<T>>

  // ---------- the records in scan order ----------

  function RowIf<T>(slot: Slot<T>): seq<T> {
    if slot.used then [slot.row] else []
  }

  function UsedIn<T>(slots: Slots<T>): seq<T> {
    if slots == [] then [] else UsedIn(slots[..|slots| - 1]) + RowIf(slots[|slots| - 1])
  }

  /** The records of some blocks, block by block and slot by slot. */
  function UsedRows<T>(blocks: seq<Slots<T>>): seq<T> {
    if blocks == [] then [] else UsedRows(blocks[..|blocks| - 1]) + UsedIn(blocks[|blocks| - 1])
  }

  predicate PositionOk<T>(blocks: seq<Slots<T>>, b: nat, s: int) {
    b < |blocks| && -1 <= s < |blocks[b]|
  }

  /** The records up to slot s of block b. */
  function Passed<T>(blocks: seq<Slots<T>>, b: nat, s: int): seq<T>
    requires PositionOk(blocks, b, s)
  {
    UsedRows(blocks[..b]) + UsedIn(blocks[b][..s + 1])
  }

  predicate IsPrefix<T(==)>(a: seq<T>, b: seq<T>) {
    |a| <= |b| && a == b[..|a|]
  }

  lemma UsedUpTo<T>(slots: Slots<T>, s: nat)
    requires s < |slots|
    ensures UsedIn(slots[..s + 1]) == UsedIn(slots[..s]) + RowIf(slots[s])
  {
    assert slots[..s + 1][..s] == slots[..s];
  }

  /** Free slots do not show. */
  lemma {:induction false} UsedSkips<T>(slots: Slots<T>, lo: nat, hi: nat)
    requires lo <= hi <= |slots| && forall k :: lo <= k < hi ==> !slots[k].used
    ensures UsedIn(slots[..hi]) == UsedIn(slots[..lo])
    decreases hi - lo
  {
    if lo < hi {
      UsedSkips(slots, lo, hi - 1);
      UsedUpTo(slots, hi - 1);
    }
  }

  lemma RowsUpTo<T>(blocks: seq<Slots<T>>, b: nat)
    requires b < |blocks|
    ensures UsedRows(blocks[..b + 1]) == UsedRows(blocks[..b]) + UsedIn(blocks[b])
  {
    assert blocks[..b + 1][..b] == blocks[..b];
  }

  lemma {:induction false} RowsConcat<T>(a: seq<Slots<T>>, b: seq<Slots<T>>)
    ensures UsedRows(a + b) == UsedRows(a) + UsedRows(b)
    decreases |b|
  {
    if b == [] {
      assert a + b == a;
    } else {
      assert (a + b)[..|a + b| - 1] == a + b[..|b| - 1];
      RowsConcat(a, b[..|b| - 1]);
    }
  }

  lemma {:induction false} UsedConcat<T>(a: Slots<T>, b: Slots<T>)
    ensures UsedIn(a + b) == UsedIn(a) + UsedIn(b)
    decreases |b|
  {
    if b == [] {
      assert a + b == a;
    } else {
      assert (a + b)[..|a + b| - 1] == a + b[..|b| - 1];
      UsedConcat(a, b[..|b| - 1]);
    }
  }

  lemma PassedIsPrefix<T>(blocks: seq<Slots<T>>, b: nat, s: int)
    requires PositionOk(blocks, b, s)
    ensures IsPrefix(Passed(blocks, b, s), UsedRows(blocks))
  {
    var front, back := blocks[b][..s + 1], blocks[b][s + 1..];
    RowsAround(blocks, b);
    UsedSplit(blocks[b], s + 1);
    FrontIsPrefix(UsedRows(blocks[..b]), UsedIn(front), UsedIn(back), UsedRows(blocks[b + 1..]), UsedRows(blocks));
  }

  lemma UsedSplit<T>(slots: Slots<T>, n: nat)
    requires n <= |slots|
    ensures UsedIn(slots) == UsedIn(slots[..n]) + UsedIn(slots[n..])
  {
    UsedConcat(slots[..n], slots[n..]);
    Rejoined(slots, n);
  }

  lemma Rejoined<T>(s: seq<T>, n: nat)
    requires n <= |s|
    ensures s[..n] + s[n..] == s
  {
  }

  lemma FrontIsPrefix<T>(p: seq<T>, a: seq<T>, b: seq<T>, q: seq<T>, all: seq<T>)
    requires all == p + (a + b) + q
    ensures IsPrefix(p + a, all)
  {
    assert all == (p + a) + (b + q);
  }

  // ---------- slot searches ----------

  /** record_page::search_after: the next slot behind slot with this flag, or -1. */
  method SearchAfter<T>(slots: Slots<T>, slot: int, used: bool) returns (next: int)
    requires -1 <= slot < |slots|
    ensures next == -1 || (slot < next < |slots| && slots[next].used == used)
    ensures forall k :: slot < k < (if next >= 0 then next else |slots|) ==> slots[k].used != used
  {
    next := slot + 1;
    while next < |slots|
      invariant slot < next <= |slots|
      invariant forall k :: slot < k < next ==> slots[k].used != used
    {
      if slots[next].used == used {
        return;
      }
      next := next + 1;
    }
    next := -1;
  }

  lemma BlockPassed<T>(blocks: seq<Slots<T>>, b: nat, s: int)
    requires PositionOk(blocks, b, s) && forall k :: s < k < |blocks[b]| ==> !blocks[b][k].used
    ensures Passed(blocks, b, s) == UsedRows(blocks[..b + 1])
    ensures b + 1 < |blocks| ==> Passed(blocks, b + 1, -1) == Passed(blocks, b, s)
    ensures b + 1 == |blocks| ==> Passed(blocks, b, s) == UsedRows(blocks)
  {
    UsedSkips(blocks[b], s + 1, |blocks[b]|);
    assert blocks[b][..|blocks[b]|] == blocks[b];
    RowsUpTo(blocks, b);
    assert b + 1 == |blocks| ==> blocks[..b + 1] == blocks;
  }

  lemma SlotPassed<T>(blocks: seq<Slots<T>>, b: nat, s: int, next: int)
    requires PositionOk(blocks, b, s) && s < next < |blocks[b]| && blocks[b][next].used
    requires forall k :: s < k < next ==> !blocks[b][k].used
    ensures Passed(blocks, b, next) == Passed(blocks, b, s) + [blocks[b][next].row]
  {
    UsedSkips(blocks[b], s + 1, next);
    UsedUpTo(blocks[b], next);
  }

  /** A position behind another one. */
  predicate Behind(b: int, s: int, b': int, s': int) {
    b < b' || (b == b' && s < s')
  }

  /** r lies behind the first position and, if bounded, in front of the second. */
  predicate Between(b: int, s: int, r: Rid, b': int, s': int, bounded: bool) {
    Behind(b, s, r.blk, r.slot) && (bounded ==> Behind(r.blk, r.slot, b', s'))
  }

  ghost predicate NoneBetween<T>(blocks: seq<Slots<T>>, b: int, s: int, b': int, s': int, bounded: bool) {
    forall r: Rid :: Between(b, s, r, b', s', bounded) ==> !Live(blocks, r)
  }

  lemma NoneUpTo<T>(blocks: seq<Slots<T>>, blk: nat, slot: int, b: nat, s: int, next: int)
    requires NoneBetween(blocks, blk, slot, b, -1, true) && b < |blocks| && s < next && -1 <= s
    requires (b == blk && s == slot) || (b > blk && s == -1)
    requires forall k :: s < k < next && 0 <= k < |blocks[b]| ==> !blocks[b][k].used
    ensures NoneBetween(blocks, blk, slot, b, next, true)
  {
    forall r: Rid | Between(blk, slot, r, b, next, true)
      ensures !Live(blocks, r)
    {
      if r.blk < b {
        assert Between(blk, slot, r, b, -1, true);
      }
    }
  }

  lemma NoneInBlock<T>(blocks: seq<Slots<T>>, blk: nat, slot: int, b: nat, s: int)
    requires NoneBetween(blocks, blk, slot, b, -1, true) && b < |blocks| && -1 <= s
    requires (b == blk && s == slot) || (b > blk && s == -1)
    requires forall k :: s < k < |blocks[b]| ==> !blocks[b][k].used
    ensures NoneBetween(blocks, blk, slot, b + 1, -1, true)
    ensures b + 1 == |blocks| ==> NoneBetween(blocks, blk, slot, b, s, false)
  {
    forall r: Rid | Behind(blk, slot, r.blk, r.slot) && r.blk <= b
      ensures !Live(blocks, r)
    {
      if r.blk < b {
        assert Between(blk, slot, r, b, -1, true);
      }
    }
  }

  /** table_scan::next and chunk_scan::next: the next used slot, block by block. */
  method NextUsed<T>(blocks: seq<Slots<T>>, blk: nat, slot: int) returns (found: bool, b: nat, s: int)
    requires PositionOk(blocks, blk, slot)
    ensures PositionOk(blocks, b, s)
    ensures found ==> s >= 0 && blocks[b][s].used && Behind(blk, slot, b, s)
    ensures found ==> Passed(blocks, b, s) == Passed(blocks, blk, slot) + [blocks[b][s].row]
    ensures !found ==> Passed(blocks, b, s) == Passed(blocks, blk, slot) == UsedRows(blocks)
    ensures NoneBetween(blocks, blk, slot, b, s, found)
  {
    b, s := blk, slot;
    while true
      invariant blk <= b && PositionOk(blocks, b, s) && Passed(blocks, b, s) == Passed(blocks, blk, slot)
      invariant (b == blk && s == slot) || (b > blk && s == -1)
      invariant NoneBetween(blocks, blk, slot, b, -1, true)
      decreases |blocks| - b
    {
      var next := SearchAfter(blocks[b], s, true);
      if next >= 0 {
        SlotPassed(blocks, b, s, next);
        NoneUpTo(blocks, blk, slot, b, s, next);
        s := next;
        return true, b, s;
      }
      BlockPassed(blocks, b, s);
      NoneInBlock(blocks, blk, slot, b, s);
      if b == |blocks| - 1 {
        return false, b, s;
      }
      b, s := b + 1, -1;
    }
  }

  // ---------- one slot changes ----------

  function SetSlot<T>(blocks: seq<Slots<T>>, b: nat, s: nat, slot: Slot<T>): seq<Slots<T>>
    requires b < |blocks| && s < |blocks[b]|
  {
    blocks[b := blocks[b][s := slot]]
  }

  lemma UsedInAround<T>(slots: Slots<T>, s: nat)
    requires s < |slots|
    ensures UsedIn(slots) == UsedIn(slots[..s]) + RowIf(slots[s]) + UsedIn(slots[s + 1..])
  {
    Rejoined(slots, s + 1);
    UsedConcat(slots[..s + 1], slots[s + 1..]);
    UsedUpTo(slots, s);
  }

  lemma RowsAround<T>(blocks: seq<Slots<T>>, b: nat)
    requires b < |blocks|
    ensures UsedRows(blocks) == UsedRows(blocks[..b]) + UsedIn(blocks[b]) + UsedRows(blocks[b + 1..])
  {
    Rejoined(blocks, b + 1);
    RowsConcat(blocks[..b + 1], blocks[b + 1..]);
    RowsUpTo(blocks, b);
  }

  lemma Nested<T>(p: seq<T>, a: seq<T>, x: seq<T>, c: seq<T>, q: seq<T>)
    ensures p + (a + x + c) + q == (p + a) + x + (c + q)
  {
  }

  /** The records in front of a slot, its own, and those behind it. */
  lemma UsedAround<T>(blocks: seq<Slots<T>>, b: nat, s: nat)
    requires b < |blocks| && s < |blocks[b]|
    ensures UsedRows(blocks) ==
            (UsedRows(blocks[..b]) + UsedIn(blocks[b][..s])) + RowIf(blocks[b][s]) + (UsedIn(blocks[b][s + 1..]) + UsedRows(blocks[b + 1..]))
  {
    RowsAround(blocks, b);
    UsedInAround(blocks[b], s);
    Nested(UsedRows(blocks[..b]), UsedIn(blocks[b][..s]), RowIf(blocks[b][s]), UsedIn(blocks[b][s + 1..]), UsedRows(blocks[b + 1..]));
  }

  lemma Swapped<T>(front: seq<T>, x: seq<T>, x': seq<T>, back: seq<T>)
    ensures multiset(front + x' + back) + multiset(x) == multiset(front + x + back) + multiset(x')
  {
  }

  /** The records differ by what the slot held and holds. */
  lemma UsedRowsSet<T>(blocks: seq<Slots<T>>, b: nat, s: nat, slot: Slot<T>)
    requires b < |blocks| && s < |blocks[b]|
    ensures multiset(UsedRows(SetSlot(blocks, b, s, slot))) + multiset(RowIf(blocks[b][s])) ==
            multiset(UsedRows(blocks)) + multiset(RowIf(slot))
  {
    var blocks' := SetSlot(blocks, b, s, slot);
    UsedAround(blocks, b, s);
    UsedAround(blocks', b, s);
    assert blocks'[..b] == blocks[..b] && blocks'[b + 1..] == blocks[b + 1..];
    assert blocks'[b][..s] == blocks[b][..s] && blocks'[b][s + 1..] == blocks[b][s + 1..];
    Swapped(UsedRows(blocks[..b]) + UsedIn(blocks[b][..s]), RowIf(blocks[b][s]), RowIf(slot),
            UsedIn(blocks[b][s + 1..]) + UsedRows(blocks[b + 1..]));
  }

  /** A formatted block shows no records. */
  lemma FreshBlock<T>(blocks: seq<Slots<T>>, fresh': Slots<T>)
    requires forall k :: 0 <= k < |fresh'| ==> !fresh'[k].used
    ensures UsedRows(blocks + [fresh']) == UsedRows(blocks)
  {
    assert (blocks + [fresh'])[..|blocks|] == blocks;
    UsedSkips(fresh', 0, |fresh'|);
    assert fresh'[..|fresh'|] == fresh' && fresh'[..0] == [];
  }

  // ---------- a table as records by id ----------

  predicate InFile<T>(blocks: seq<Slots<T>>, rid: Rid) {
    0 <= rid.blk < |blocks| && 0 <= rid.slot < |blocks[rid.blk]|
  }

  predicate Live<T>(blocks: seq<Slots<T>>, rid: Rid) {
    InFile(blocks, rid) && blocks[rid.blk][rid.slot].used
  }

  function RowAt<T>(blocks: seq<Slots<T>>, rid: Rid): T
    requires InFile(blocks, rid)
  {
    blocks[rid.blk][rid.slot].row
  }

  /** The two files show the same records except perhaps at rid. */
  ghost predicate SameExcept<T>(blocks: seq<Slots<T>>, blocks': seq<Slots<T>>, rid: Rid) {
    forall r: Rid :: r != rid ==> Live(blocks', r) == Live(blocks, r) && (Live(blocks, r) ==> RowAt(blocks', r) == RowAt(blocks, r))
  }

  /** One formatted block more. */
  ghost predicate Appended<T>(blocks: seq<Slots<T>>, blocks': seq<Slots<T>>) {
    |blocks'| == |blocks| + 1 && blocks'[..|blocks|] == blocks && forall k :: 0 <= k < |blocks'[|blocks|]| ==> !blocks'[|blocks|][k].used
  }

  /** The file with block b in it: formatted and at the end, if it was not there. */
  function WithBlock<T>(blocks: seq<Slots<T>>, b: nat, perBlock: nat, empty: T): seq<Slots<T>> {
    if b < |blocks| then blocks else blocks + [seq(perBlock, _ => Slot(false, empty))]
  }

  lemma AppendedShows<T>(blocks: seq<Slots<T>>, blocks': seq<Slots<T>>)
    requires Appended(blocks, blocks')
    ensures UsedRows(blocks') == UsedRows(blocks)
    ensures forall r: Rid :: Live(blocks', r) == Live(blocks, r) && (Live(blocks, r) ==> RowAt(blocks', r) == RowAt(blocks, r))
    ensures forall r: Rid :: SameExcept(blocks, blocks', r)
  {
    assert blocks' == blocks + [blocks'[|blocks|]];
    FreshBlock(blocks, blocks'[|blocks|]);
    forall r: Rid
      ensures Live(blocks', r) == Live(blocks, r) && (Live(blocks, r) ==> RowAt(blocks', r) == RowAt(blocks, r))
    {
      assert 0 <= r.blk < |blocks| ==> blocks'[r.blk] == blocks[r.blk];
    }
  }

  lemma SetSame<T>(blocks: seq<Slots<T>>, b: nat, s: nat, slot: Slot<T>)
    requires b < |blocks| && s < |blocks[b]|
    ensures SameExcept(blocks, SetSlot(blocks, b, s, slot), Rid(b, s))
    ensures InFile(SetSlot(blocks, b, s, slot), Rid(b, s)) && SetSlot(blocks, b, s, slot)[b][s] == slot
    ensures forall n: nat :: FileOk(blocks, n) ==> FileOk(SetSlot(blocks, b, s, slot), n)
  {
  }

  lemma SameTwice<T>(blocks: seq<Slots<T>>, mid: seq<Slots<T>>, blocks': seq<Slots<T>>, rid: Rid)
    requires SameExcept(blocks, mid, rid) && SameExcept(mid, blocks', rid)
    ensures SameExcept(blocks, blocks', rid)
  {
  }

  /** A heap file open for reading and writing. */
  class TableScan<T> {
    const perBlock: nat
    const empty: T                // what a formatted slot holds
    var blocks: seq<Slots<T>>
    var currBlk: nat
    var currSlot: int

    ghost predicate Valid()
      reads this
    {
      perBlock > 0 && FileOk(blocks, perBlock) && PositionOk(blocks, currBlk, currSlot)
    }

    ghost predicate OnRecord()
      reads this
    {
      Valid() && Live(blocks, Here())
    }

    function Here(): Rid
      reads this
    {
      Rid(currBlk, currSlot)
    }

    /** Open the file, creating its first block if it has none. */
    constructor (file: seq<Slots<T>>, perBlock: nat, empty: T)
      requires perBlock > 0 && (file != [] ==> FileOk(file, perBlock))
      ensures Valid() && currBlk == 0 && currSlot == -1 && this.perBlock == perBlock && this.empty == empty
      ensures UsedRows(blocks) == UsedRows(file) && (forall r: Rid :: Live(blocks, r) == Live(file, r))
      ensures file != [] ==> blocks == file
    {
      this.perBlock, this.empty := perBlock, empty;
      blocks := if file == [] then [seq(perBlock, _ => Slot(false, empty))] else file;
      currBlk, currSlot := 0, -1;
      new;
      if file == [] {
        FreshBlock(file, blocks[0]);
        assert file + [blocks[0]] == blocks;
      }
    }

    method BeforeFirst()
      requires Valid()
      modifies this`currBlk, this`currSlot
      ensures Valid() && currBlk == 0 && currSlot == -1
    {
      currBlk, currSlot := 0, -1;
    }

    method Next() returns (found: bool)
      requires Valid()
      modifies this`currBlk, this`currSlot
      ensures Valid() && (found ==> OnRecord() && Behind(old(currBlk), old(currSlot), currBlk, currSlot))
      ensures found ==>
                Passed(blocks, currBlk, currSlot) == old(Passed(blocks, currBlk, currSlot)) + [RowAt(blocks, Here())]
      ensures !found ==> old(Passed(blocks, currBlk, currSlot)) == UsedRows(blocks)
      ensures NoneBetween(blocks, old(currBlk), old(currSlot), currBlk, currSlot, found)
    {
      found, currBlk, currSlot := NextUsed(blocks, currBlk, currSlot);
    }

    /** insert_after, block by block: to the first free slot from here on, in a new block if there is none. */
    method FindFree()
      requires Valid()
      modifies this
      ensures Valid() && currSlot >= 0 && !blocks[currBlk][currSlot].used
      ensures currBlk <= |old(blocks)| && blocks == WithBlock(old(blocks), currBlk, perBlock, empty)
      ensures currBlk == |old(blocks)| ==> currSlot == 0
      ensures Behind(old(currBlk), old(currSlot), currBlk, currSlot)
      ensures forall r: Rid :: Between(old(currBlk), old(currSlot), r, currBlk, currSlot, true) && InFile(old(blocks), r) ==> Live(old(blocks), r)
    {
      var slot := SearchAfter(blocks[currBlk], currSlot, false);
      while slot < 0
        invariant Valid() && old(currBlk) <= currBlk && -1 <= slot < perBlock
        invariant (currBlk == old(currBlk) && currSlot == old(currSlot)) || (currBlk > old(currBlk) && currSlot == -1)
        invariant if currBlk < |old(blocks)| then blocks == old(blocks) else
                    slot == 0 && currBlk == |old(blocks)| && blocks == WithBlock(old(blocks), currBlk, perBlock, empty)
        invariant slot >= 0 ==> currSlot < slot && !blocks[currBlk][slot].used
        invariant forall r: Rid :: Behind(old(currBlk), old(currSlot), r.blk, r.slot) && r.blk < currBlk && InFile(old(blocks), r) ==>
                    Live(old(blocks), r)
        invariant forall k :: currSlot < k < (if slot >= 0 then slot else perBlock) ==> blocks[currBlk][k].used
        decreases if slot < 0 then |old(blocks)| - currBlk else -1
      {
        if currBlk == |blocks| - 1 {
          blocks := blocks + [seq(perBlock, _ => Slot(false, empty))];
          assert !blocks[currBlk + 1][0].used;
        }
        currBlk, currSlot := currBlk + 1, -1;
        slot := SearchAfter(blocks[currBlk], currSlot, false);
      }
      currSlot := slot;
    }

    /** Flag the current slot as used; the record it held before stays for now. */
    method UseSlot()
      requires Valid() && currSlot >= 0 && !blocks[currBlk][currSlot].used
      modifies this`blocks
      ensures OnRecord() && SameExcept(old(blocks), blocks, Here())
      ensures blocks == SetSlot(old(blocks), currBlk, currSlot, Slot(true, old(blocks)[currBlk][currSlot].row))
      ensures multiset(UsedRows(blocks)) == multiset(UsedRows(old(blocks))) + multiset{RowAt(blocks, Here())}
    {
      UsedRowsSet(blocks, currBlk, currSlot, Slot(true, blocks[currBlk][currSlot].row));
      SetSame(blocks, currBlk, currSlot, Slot(true, blocks[currBlk][currSlot].row));
      blocks := SetSlot(blocks, currBlk, currSlot, Slot(true, blocks[currBlk][currSlot].row));
    }

    /** Take the first free slot from here on, with the record that was left in it, or a formatted one. */
    method Insert()
      requires Valid()
      modifies this
      ensures OnRecord() && !Live(old(blocks), Here()) && SameExcept(old(blocks), blocks, Here())
      ensures
        var file := WithBlock(old(blocks), currBlk, perBlock, empty);
        && InFile(file, Here()) && (currBlk >= |old(blocks)| ==> Here() == Rid(|old(blocks)|, 0))
        && blocks == SetSlot(file, currBlk, currSlot, Slot(true, RowAt(file, Here())))
      ensures multiset(UsedRows(blocks)) == multiset(UsedRows(old(blocks))) + multiset{RowAt(blocks, Here())}
      ensures forall r: Rid :: Between(old(currBlk), old(currSlot), r, currBlk, currSlot, true) && InFile(old(blocks), r) ==> Live(old(blocks), r)
    {
      FindFree();
      ghost var mid := blocks;
      if currBlk == |old(blocks)| {
        AppendedShows(old(blocks), mid);
      }
      UseSlot();
      SameTwice(old(blocks), mid, blocks, Here());
    }

    method Get() returns (row: T)
      requires OnRecord()
      ensures row == RowAt(blocks, Here())
    {
      row := blocks[currBlk][currSlot].row;
    }

    method Set(row: T)
      requires OnRecord()
      modifies this`blocks
      ensures OnRecord() && RowAt(blocks, Here()) == row && SameExcept(old(blocks), blocks, Here())
      ensures blocks == SetSlot(old(blocks), currBlk, currSlot, Slot(true, row))
      ensures multiset(UsedRows(blocks)) + multiset{old(RowAt(blocks, Here()))} ==
              multiset(UsedRows(old(blocks))) + multiset{row}
    {
      UsedRowsSet(blocks, currBlk, currSlot, Slot(true, row));
      SetSame(blocks, currBlk, currSlot, Slot(true, row));
      blocks := SetSlot(blocks, currBlk, currSlot, Slot(true, row));
    }

    method DeleteRecord()
      requires OnRecord()
      modifies this`blocks
      ensures Valid() && !Live(blocks, Here()) && SameExcept(old(blocks), blocks, Here())
      ensures blocks == SetSlot(old(blocks), currBlk, currSlot, Slot(false, old(RowAt(blocks, Here()))))
      ensures multiset(UsedRows(blocks)) + multiset{old(RowAt(blocks, Here()))} == multiset(UsedRows(old(blocks)))
    {
      var slot := Slot(false, blocks[currBlk][currSlot].row);
      UsedRowsSet(blocks, currBlk, currSlot, slot);
      SetSame(blocks, currBlk, currSlot, slot);
      blocks := SetSlot(blocks, currBlk, currSlot, slot);
    }

    method MoveToRid(rid: Rid)
      requires Valid() && InFile(blocks, rid)
      modifies this`currBlk, this`currSlot
      ensures Valid() && Here() == rid
    {
      currBlk, currSlot := rid.blk, rid.slot;
    }
  }

  predicate FileOk<T>(blocks: seq<Slots<T>>, perBlock: nat) {
    blocks != [] && forall b :: 0 <= b < |blocks| ==> |blocks[b]| == perBlock
  }

  /** A scan from the start shows every record of a used slot once, block by block and slot by slot. */
  method ReadAll<T>(scan: TableScan<T>) returns (rows: seq<T>)
    requires scan.Valid()
    modifies scan`currBlk, scan`currSlot
    ensures scan.Valid() && rows == UsedRows(scan.blocks)
  {
    scan.BeforeFirst();
    rows := [];
    var more := true;
    while more
      invariant scan.Valid() && (more ==> rows == Passed(scan.blocks, scan.currBlk, scan.currSlot))
      invariant !more ==> rows == UsedRows(scan.blocks)
      decreases more, |scan.blocks| - scan.currBlk, scan.perBlock - scan.currSlot
    {
      more := scan.Next();
      if more {
        var row := scan.Get();
        rows := rows + [row];
      }
    }
  }
}
