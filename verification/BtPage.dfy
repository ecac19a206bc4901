/**
 One page of a B-tree: a flag, a record count and records kept in key order by shifting.
 The class works in place on the page's slots; the functions say what its methods compute
 and are what the directory and leaf layers build on.

 find_slot_before stops at the first key that is not smaller (bt_page.h:142 compares with !=).
 */
module BtPages {

  /** A directory record uses key and blk; a leaf record adds the slot id of a table record. */
  datatype Entry = Entry(key: int, blk: int, id: int)

  datatype Node = Node(flag: int, recs: seq<Entry>)

  // ---------- block arithmetic ----------

  const HEADER := 8   // flag and record count

  function SlotPos(slot: int, slotSize: int): int {
    HEADER + slot * slotSize
  }

  predicate IsFull(n: int, slotSize: int, blockSize: int) {
    SlotPos(n + 1, slotSize) >= blockSize
  }

  /** The record count at which a page starts to count as full. */
  function FullAt(slotSize: int, blockSize: int): int
    requires slotSize > 0
  {
    (blockSize - HEADER + slotSize - 1) / slotSize - 1
  }

  /** n records stay within the block. */
  predicate FitsBlock(n: int, slotSize: int, blockSize: int) {
    SlotPos(n, slotSize) <= blockSize
  }

  /** A block that holds at least three records before its page is full. */
  predicate Usable(slotSize: int, blockSize: int) {
    slotSize > 0 && FullAt(slotSize, blockSize) >= 3
  }

  lemma MulLe(a: int, b: int, s: int)
    requires a <= b && s > 0
    ensures a * s <= b * s
  {
  }

  lemma FitsLess(m: int, n: int, slotSize: int, blockSize: int)
    requires slotSize > 0 && m <= n && FitsBlock(n, slotSize, blockSize)
    ensures FitsBlock(m, slotSize, blockSize)
  {
    MulLe(m, n, slotSize);
  }

  lemma FullAtIsLeast(n: int, slotSize: int, blockSize: int)
    requires slotSize > 0
    ensures IsFull(n, slotSize, blockSize) <==> n >= FullAt(slotSize, blockSize)
    ensures n <= FullAt(slotSize, blockSize) ==> FitsBlock(n, slotSize, blockSize)
  {
    var room := blockSize - HEADER;
    var q := (room + slotSize - 1) / slotSize;
    assert q * slotSize <= room + slotSize - 1 < q * slotSize + slotSize;
    if n + 1 >= q {
      MulLe(q, n + 1, slotSize);
    } else {
      MulLe(n + 1, q - 1, slotSize);
      assert (q - 1) * slotSize == q * slotSize - slotSize;
    }
    if n + 1 <= q {
      MulLe(n, q - 1, slotSize);
      assert (q - 1) * slotSize == q * slotSize - slotSize;
    }
  }

  // ---------- what the page operations compute ----------

  function InsertAt<T>(s: seq<T>, i: nat, x: T): seq<T>
    requires i <= |s|
  {
    s[..i] + [x] + s[i..]
  }

  function RemoveAt<T>(s: seq<T>, i: nat): seq<T>
    requires i < |s|
  {
    s[..i] + s[i + 1..]
  }

  lemma RemoveAtIs<T>(s: seq<T>, i: nat, k: nat)
    requires i < |s| && k < |s| - 1
    ensures RemoveAt(s, i)[k] == if k < i then s[k] else s[k + 1]
  {
  }

  /** The first position whose key is not smaller than key. */
  function Pos(recs: seq<Entry>, key: int): (i: nat)
    ensures i <= |recs|
    ensures forall k :: 0 <= k < i ==> recs[k].key < key
    ensures i < |recs| ==> recs[i].key >= key
  {
    if recs == [] || recs[0].key >= key then 0 else 1 + Pos(recs[1..], key)
  }

  predicate Ordered(recs: seq<Entry>) {
    forall i, j :: 0 <= i < j < |recs| ==> recs[i].key <= recs[j].key
  }

  lemma PosUnique(recs: seq<Entry>, key: int, i: nat)
    requires i <= |recs|
    requires forall k :: 0 <= k < i ==> recs[k].key < key
    requires i < |recs| ==> recs[i].key >= key
    ensures Pos(recs, key) == i
  {
  }

  /** Inserting at its position keeps the records in order. */
  lemma InsertOrdered(recs: seq<Entry>, e: Entry)
    requires Ordered(recs)
    ensures Ordered(InsertAt(recs, Pos(recs, e.key), e))
  {
    var i := Pos(recs, e.key);
    assert forall k :: i <= k < |recs| ==> recs[k].key >= e.key;
  }

  // ---------- the page itself ----------

  class BtreePage {
    const slotSize: nat
    const blockSize: nat
    const full: int             // the record count from which on the page is full
    const slots: array<Entry>
    var flag: int
    var numRecs: nat

    ghost predicate Valid()
      reads this, slots
    {
      slotSize > 0 && numRecs <= slots.Length && full <= slots.Length
    }

    /** The slots are whole slots of the block. */
    ghost predicate Sized() {
      && slotSize > 0 && blockSize >= HEADER && full == FullAt(slotSize, blockSize)
      && FitsBlock(slots.Length, slotSize, blockSize)
    }

    ghost function Recs(): seq<Entry>
      requires numRecs <= slots.Length
      reads this, slots
    {
      slots[..numRecs]
    }

    /** What the block holds. */
    ghost function Image(): Node
      requires numRecs <= slots.Length
      reads this, slots
    {
      Node(flag, Recs())
    }

    /** A freshly formatted page. */
    constructor (slotSize: nat, blockSize: nat, flag: int)
      requires slotSize > 0 && blockSize >= HEADER
      ensures Valid() && Sized() && fresh(slots) && Recs() == [] && this.flag == flag
      ensures this.slotSize == slotSize && this.blockSize == blockSize
    {
      this.slotSize := slotSize;
      this.blockSize := blockSize;
      this.flag := flag;
      this.full := FullAt(slotSize, blockSize);
      numRecs := 0;
      var n := (blockSize - HEADER) / slotSize;
      slots := new Entry[n](_ => Entry(0, 0, 0));
      new;
      WholeSlots(slotSize, blockSize);
    }

    /** The page over a block as it is. */
    constructor Load(slotSize: nat, blockSize: nat, node: Node)
      requires slotSize > 0 && blockSize >= HEADER && FitsBlock(|node.recs|, slotSize, blockSize)
      ensures Valid() && Sized() && fresh(slots) && Image() == node
      ensures this.slotSize == slotSize && this.blockSize == blockSize
    {
      this.slotSize, this.blockSize, flag, full := slotSize, blockSize, node.flag, FullAt(slotSize, blockSize);
      numRecs := |node.recs|;
      var n := (blockSize - HEADER) / slotSize;
      slots := new Entry[n](i requires 0 <= i => if i < |node.recs| then node.recs[i] else Entry(0, 0, 0));
      new;
      WholeSlots(slotSize, blockSize);
      SlotsFor(|node.recs|, slotSize, blockSize);
    }

    method Store() returns (node: Node)
      requires Valid() && Sized()
      ensures node == Image() && FitsBlock(|node.recs|, slotSize, blockSize)
    {
      node := Node(flag, slots[..numRecs]);
      FitsLess(numRecs, slots.Length, slotSize, blockSize);
    }

    method FindSlotBefore(searchKey: int) returns (slot: int)
      requires Valid()
      ensures slot == Pos(Recs(), searchKey) - 1
    {
      slot := 0;
      while slot < numRecs && slots[slot].key < searchKey
        invariant 0 <= slot <= numRecs
        invariant forall k :: 0 <= k < slot ==> slots[k].key < searchKey
      {
        slot := slot + 1;
      }
      PosUnique(Recs(), searchKey, slot);
      slot := slot - 1;
    }

    method PageIsFull() returns (r: bool)
      requires Valid() && Sized()
      ensures r <==> |Recs()| >= full
    {
      r := HEADER + (numRecs + 1) * slotSize >= blockSize;
      FullAtIsLeast(numRecs, slotSize, blockSize);
    }

    /** Make room at slot by shifting the records behind it, then fill it. */
    method Insert(slot: nat, e: Entry)
      requires Valid() && slot <= numRecs < slots.Length
      modifies this`numRecs, slots
      ensures Valid() && Recs() == InsertAt(old(Recs()), slot, e)
    {
      var i := numRecs;
      while i > slot
        invariant slot <= i <= numRecs == old(numRecs)
        invariant forall k :: 0 <= k <= i && k < numRecs ==> slots[k] == old(slots[k])
        invariant forall k :: i < k <= numRecs ==> slots[k] == old(slots[k - 1])
      {
        slots[i] := slots[i - 1];
        i := i - 1;
      }
      numRecs := numRecs + 1;
      slots[slot] := e;
    }

    method DeleteRecord(slot: nat)
      requires Valid() && slot < numRecs
      modifies this`numRecs, slots
      ensures Valid() && Recs() == RemoveAt(old(Recs()), slot)
      ensures numRecs == 0 ==> slots[0] == old(Recs())[0]
    {
      var i := slot + 1;
      while i < numRecs
        invariant slot + 1 <= i <= numRecs == old(numRecs)
        invariant forall k :: 0 <= k < slot ==> slots[k] == old(slots[k])
        invariant forall k :: slot <= k < i - 1 ==> slots[k] == old(slots[k + 1])
        invariant forall k :: i - 1 <= k < numRecs ==> slots[k] == old(slots[k])
      {
        slots[i - 1] := slots[i];
        i := i + 1;
      }
      numRecs := numRecs - 1;
      ghost var was := old(Recs());
      forall k | 0 <= k < numRecs
        ensures slots[k] == RemoveAt(was, slot)[k]
      {
        RemoveAtIs(was, slot, k);
      }
    }

    /** The records from slot on move to the front of an empty page, one by one. */
    method TransferRecs(slot: nat, dest: BtreePage)
      requires Valid() && dest.Valid() && dest != this && dest.slots != slots
      requires slot <= numRecs && dest.numRecs == 0 && numRecs - slot <= dest.slots.Length
      modifies this`numRecs, slots, dest`numRecs, dest.slots
      ensures Valid() && dest.Valid()
      ensures Recs() == old(Recs())[..slot] && dest.Recs() == old(Recs())[slot..]
    {
      var destSlot := 0;
      while slot < numRecs
        invariant Valid() && dest.Valid() && slot <= numRecs
        invariant destSlot == dest.numRecs && destSlot + numRecs == old(numRecs)
        invariant Recs() == old(Recs())[..slot] + old(Recs())[slot + destSlot..]
        invariant dest.Recs() == old(Recs())[slot..slot + destSlot]
        decreases numRecs
      {
        dest.Insert(destSlot, slots[slot]);
        DeleteRecord(slot);
        destSlot := destSlot + 1;
      }
    }

    /** The records from splitPos on move to a new page that gets the given flag. */
    method Split(splitPos: nat, newFlag: int) returns (newPage: BtreePage)
      requires Valid() && Sized() && splitPos <= numRecs && numRecs - splitPos <= full
      modifies this`numRecs, slots
      ensures Valid() && newPage.Valid() && newPage.Sized() && fresh(newPage) && fresh(newPage.slots)
      ensures Recs() == old(Recs())[..splitPos] && newPage.Recs() == old(Recs())[splitPos..]
      ensures newPage.flag == newFlag && flag == old(flag)
      ensures newPage.slotSize == slotSize && newPage.blockSize == blockSize
    {
      newPage := new BtreePage(slotSize, blockSize, newFlag);
      TransferRecs(splitPos, newPage);
    }
  }

  /** Whole slots suffice for every page that is not past full. */
  lemma WholeSlots(slotSize: int, blockSize: int)
    requires slotSize > 0 && blockSize >= HEADER
    ensures FullAt(slotSize, blockSize) <= (blockSize - HEADER) / slotSize
    ensures SlotPos((blockSize - HEADER) / slotSize, slotSize) <= blockSize
  {
    var room := blockSize - HEADER;
    var n := room / slotSize;
    var q := (room + slotSize - 1) / slotSize;
    assert n * slotSize <= room < n * slotSize + slotSize;
    assert q * slotSize <= room + slotSize - 1;
    assert (n + 2) * slotSize == n * slotSize + slotSize + slotSize;
    if q >= n + 2 {
      MulLe(n + 2, q, slotSize);
    }
  }

  lemma SlotsFor(n: nat, slotSize: int, blockSize: int)
    requires slotSize > 0 && blockSize >= HEADER && FitsBlock(n, slotSize, blockSize)
    ensures n <= (blockSize - HEADER) / slotSize
  {
    var q := (blockSize - HEADER) / slotSize;
    assert blockSize - HEADER < q * slotSize + slotSize;
    if n > q {
      MulLe(q + 1, n, slotSize);
    }
  }

  lemma UsableBlock(slotSize: int, blockSize: int)
    requires Usable(slotSize, blockSize)
    ensures blockSize > HEADER
  {
    FullAtIsLeast(0, slotSize, blockSize);
  }

  // ---------- one operation on a block, through its page ----------

  /** Where a node may lie: a block of this size. */
  predicate InBlock(node: Node, slotSize: int, blockSize: int) {
    Usable(slotSize, blockSize) && FitsBlock(|node.recs|, slotSize, blockSize)
  }

  method OpenPage(node: Node, slotSize: int, blockSize: int) returns (page: BtreePage)
    requires InBlock(node, slotSize, blockSize)
    ensures fresh(page) && fresh(page.slots) && page.Valid() && page.Sized() && page.Image() == node
    ensures page.slotSize == slotSize && page.blockSize == blockSize
  {
    UsableBlock(slotSize, blockSize);
    page := new BtreePage.Load(slotSize, blockSize, node);
  }

  method SlotBefore(node: Node, slotSize: int, blockSize: int, key: int) returns (slot: int)
    requires InBlock(node, slotSize, blockSize)
    ensures slot == Pos(node.recs, key) - 1
  {
    var page := OpenPage(node, slotSize, blockSize);
    slot := page.FindSlotBefore(key);
  }

  /** Insert, and is_full afterwards. */
  method InsertInPage(node: Node, slotSize: int, blockSize: int, slot: nat, e: Entry) returns (r: Node, isFull: bool)
    requires InBlock(node, slotSize, blockSize) && slot <= |node.recs| < FullAt(slotSize, blockSize)
    ensures r == Node(node.flag, InsertAt(node.recs, slot, e)) && InBlock(r, slotSize, blockSize)
    ensures isFull == (|r.recs| >= FullAt(slotSize, blockSize))
  {
    var page := OpenPage(node, slotSize, blockSize);
    page.Insert(slot, e);
    isFull := page.PageIsFull();
    r := page.Store();
  }

  /** split: the page kept and the page split off. */
  method SplitPage(node: Node, slotSize: int, blockSize: int, splitPos: nat, newFlag: int) returns (l: Node, r: Node)
    requires InBlock(node, slotSize, blockSize) && splitPos <= |node.recs| <= FullAt(slotSize, blockSize)
    ensures l == Node(node.flag, node.recs[..splitPos]) && InBlock(l, slotSize, blockSize)
    ensures r == Node(newFlag, node.recs[splitPos..]) && InBlock(r, slotSize, blockSize)
  {
    var page := OpenPage(node, slotSize, blockSize);
    var newPage := page.Split(splitPos, newFlag);
    l := page.Store();
    r := newPage.Store();
  }

  method DeleteFromPage(node: Node, slotSize: int, blockSize: int, slot: nat) returns (r: Node)
    requires InBlock(node, slotSize, blockSize) && slot < |node.recs|
    ensures r == Node(node.flag, RemoveAt(node.recs, slot)) && InBlock(r, slotSize, blockSize)
  {
    var page := OpenPage(node, slotSize, blockSize);
    page.DeleteRecord(slot);
    r := page.Store();
  }
}
