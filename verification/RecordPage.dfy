/**
 Records in a page's bytes: where a slot's flag and fields lie, and that a page of bytes is a
 sequence of slots that can be written one flag or one field at a time.

 As intended: the size of a slot is where the layout's offsets end (layout.h:29-38 never sets
 it).
 */
module RecordPages {
  import opened DbTypes
  import opened PageBytes
  import opened HeapFiles

  datatype FieldType = IntField | StrField(length: nat)

  datatype FieldDef = FieldDef(name: string, typ: FieldType)

  /** A stored value; Garbled where the stored length exceeds the declared one. */
  datatype Cell = IntCell(n: int) | StrCell(bytes: seq<Byte>) | Garbled

  // ---------- layout ----------

  /** length_in_bytes */
  function Size(t: FieldType): (n: nat)
    ensures n >= INT_SIZE
  {
    match t
    case IntField => INT_SIZE
    case StrField(len) => INT_SIZE + len
  }

  /** Where field i starts in a slot; the flag comes first. */
  function Offset(fields: seq<FieldDef>, i: nat): (off: nat)
    requires i <= |fields|
    ensures off >= INT_SIZE
  {
    if i == 0 then INT_SIZE else Offset(fields, i - 1) + Size(fields[i - 1].typ)
  }

  function SlotSize(fields: seq<FieldDef>): nat {
    Offset(fields, |fields|)
  }

  /** Strings of a declared length that is a multiple of the integer size. */
  predicate Aligned(fields: seq<FieldDef>) {
    forall i :: 0 <= i < |fields| && fields[i].typ.StrField? ==> fields[i].typ.length % INT_SIZE == 0
  }

  lemma {:induction false} OffsetsUpTo(fields: seq<FieldDef>, n: nat)
    requires n <= |fields|
    ensures (forall i :: 0 <= i <= n ==> Offset(fields, i) % INT_SIZE == 0) <==>
            forall i :: 0 <= i < n && fields[i].typ.StrField? ==> fields[i].typ.length % INT_SIZE == 0
    decreases n
  {
    if n > 0 {
      OffsetsUpTo(fields, n - 1);
      assert Offset(fields, n) == Offset(fields, n - 1) + Size(fields[n - 1].typ);
    }
  }

  /** Every field of every slot can be accessed, alignment-wise, exactly when the declared lengths are aligned. */
  lemma OffsetsAligned(fields: seq<FieldDef>)
    ensures (forall i :: 0 <= i <= |fields| ==> Offset(fields, i) % INT_SIZE == 0) <==> Aligned(fields)
  {
    OffsetsUpTo(fields, |fields|);
  }

  predicate Differ(fields: seq<FieldDef>, i: int, j: int) {
    0 <= i < j < |fields| ==> fields[i].name != fields[j].name
  }

  ghost predicate OffsetIs(fields: seq<FieldDef>, offs: map<string, nat>, i: int) {
    0 <= i < |fields| ==> fields[i].name in offs && offs[fields[i].name] == Offset(fields, i)
  }

  ghost predicate OffsetsSet(fields: seq<FieldDef>, k: nat, offs: map<string, nat>) {
    forall i :: i < k ==> OffsetIs(fields, offs, i)
  }

  method AddOffset(fields: seq<FieldDef>, k: nat, offs: map<string, nat>, pos: nat) returns (r: map<string, nat>)
    requires k < |fields| && OffsetsSet(fields, k, offs) && pos == Offset(fields, k)
    requires forall i, j :: Differ(fields, i, j)
    ensures OffsetsSet(fields, k + 1, r)
  {
    r := offs[fields[k].name := pos];
    forall i | i < k + 1
      ensures OffsetIs(fields, r, i)
    {
      assert Differ(fields, i, k);
      assert i < k ==> OffsetIs(fields, offs, i);
    }
  }

  class Layout {
    var offsets: map<string, nat>
    var slotSize: nat

    /** The loop over the schema's fields. */
    constructor (fields: seq<FieldDef>)
      requires forall i, j :: Differ(fields, i, j)
      ensures slotSize == SlotSize(fields)
      ensures OffsetsSet(fields, |fields|, offsets)
    {
      var offs: map<string, nat> := map[];
      var pos: nat := INT_SIZE;
      var k := 0;
      while k < |fields|
        invariant 0 <= k <= |fields| && pos == Offset(fields, k)
        invariant OffsetsSet(fields, k, offs)
      {
        offs := AddOffset(fields, k, offs, pos);
        pos := pos + Size(fields[k].typ);
        k := k + 1;
      }
      offsets, slotSize := offs, pos;
    }
  }

  // ---------- places ----------

  lemma {:induction false} OffsetsGrow(fields: seq<FieldDef>, i: nat, j: nat)
    requires i < j <= |fields|
    ensures Offset(fields, i) + Size(fields[i].typ) <= Offset(fields, j)
    decreases j
  {
    if i < j - 1 {
      OffsetsGrow(fields, i, j - 1);
    }
  }

  /** The start of slot number slot. */
  function SlotPos(fields: seq<FieldDef>, slot: nat): nat {
    if slot == 0 then 0 else SlotPos(fields, slot - 1) + SlotSize(fields)
  }

  /** calculate_offset */
  lemma {:induction false} SlotPosIs(fields: seq<FieldDef>, slot: nat)
    ensures SlotPos(fields, slot) == slot * SlotSize(fields)
    decreases slot
  {
    if slot > 0 {
      SlotPosIs(fields, slot - 1);
      assert slot * SlotSize(fields) == (slot - 1) * SlotSize(fields) + SlotSize(fields);
    }
  }

  lemma {:induction false} SlotsApart(fields: seq<FieldDef>, a: nat, b: nat)
    requires a < b
    ensures SlotPos(fields, a) + SlotSize(fields) <= SlotPos(fields, b)
    decreases b
  {
    if a < b - 1 {
      SlotsApart(fields, a, b - 1);
    }
  }

  function SlotCount(fields: seq<FieldDef>, blockSize: nat): nat {
    blockSize / SlotSize(fields)
  }

  /** is_valid_slot */
  lemma SlotFits(fields: seq<FieldDef>, blockSize: nat, slot: nat)
    ensures slot < SlotCount(fields, blockSize) <==> SlotPos(fields, slot + 1) <= blockSize
    ensures slot < SlotCount(fields, blockSize) ==> SlotPos(fields, slot) + SlotSize(fields) <= blockSize
  {
    var q := SlotCount(fields, blockSize);
    SlotPosIs(fields, q);
    assert SlotPos(fields, q) <= blockSize < SlotPos(fields, q) + SlotSize(fields);
    if slot + 1 < q {
      SlotsApart(fields, slot + 1, q);
    } else if slot > q {
      SlotsApart(fields, q, slot);
    }
  }

  const SIZE_LIMIT := 0x1_0000_0000_0000_0000

  /** What a page compares with its size before it reads an integer at offset: the sum is unsigned and wraps round. */
  function ReadEnd(offset: int): int {
    if offset + INT_SIZE < 0 then SIZE_LIMIT + (offset + INT_SIZE) else offset + INT_SIZE
  }

  /**
   A table scan behind its end is at slot -1. Reading a field there is out of range, and throws, except
   for a last field of integer size: the sum wraps round to 0 for it, and bytes in front of the page are read.
   */
  lemma {:induction false} BehindTheEnd(fields: seq<FieldDef>, i: nat, blockSize: nat)
    requires i < |fields| && SlotSize(fields) <= blockSize < INT_LIMIT
    ensures ReadEnd(Offset(fields, i) - SlotSize(fields)) <= blockSize <==>
            i == |fields| - 1 && Size(fields[i].typ) == INT_SIZE
  {
    LastEnds(fields, i);
  }

  /** Only the last field ends where the slot does. */
  lemma {:induction false} LastEnds(fields: seq<FieldDef>, i: nat)
    requires i < |fields|
    ensures Offset(fields, i) + Size(fields[i].typ) <= SlotSize(fields)
    ensures i < |fields| - 1 ==> Offset(fields, i) + INT_SIZE < SlotSize(fields)
    ensures i == |fields| - 1 ==> Offset(fields, i) + Size(fields[i].typ) == SlotSize(fields)
  {
    OffsetsGrow(fields, i, |fields|);
    if i < |fields| - 1 {
      OffsetsGrow(fields, i, i + 1);
      OffsetsGrow(fields, i + 1, |fields|);
    }
  }

  // ---------- what the bytes of a slot say ----------

  /** A field's bytes: an integer, or a length and as many bytes. */
  function CellOf(region: seq<Byte>, t: FieldType): Cell
    requires |region| == Size(t)
  {
    var n := IntAt(region, 0);
    match t
    case IntField => IntCell(n)
    case StrField(len) => if 0 <= n <= len then StrCell(region[INT_SIZE..INT_SIZE + n]) else Garbled
  }

  /** The field in front of position n, read from a slot's bytes. */
  function LastCell(bytes: seq<Byte>, fields: seq<FieldDef>, n: nat): Cell
    requires 0 < n <= |fields| && Offset(fields, n) <= |bytes|
  {
    CellOf(bytes[Offset(fields, n - 1)..Offset(fields, n)], fields[n - 1].typ)
  }

  /** The first n fields of a slot's bytes. */
  function CellsUpTo(bytes: seq<Byte>, fields: seq<FieldDef>, n: nat): (cells: seq<Cell>)
    requires n <= |fields| && Offset(fields, n) <= |bytes|
    ensures |cells| == n
  {
    if n == 0 then []
    else
      CellsUpTo(bytes, fields, n - 1) + [LastCell(bytes, fields, n)]
  }

  const EMPTY := 0
  const USED := 1

  function SlotIn(bytes: seq<Byte>, fields: seq<FieldDef>): Slot<seq<Cell>>
    requires |bytes| == SlotSize(fields)
  {
    Slot(IntAt(bytes, 0) == USED, CellsUpTo(bytes, fields, |fields|))
  }

  lemma LastCellStays(bytes: seq<Byte>, off: nat, bs: seq<Byte>, fields: seq<FieldDef>, n: nat)
    requires 0 < n <= |fields| && Offset(fields, n) <= |bytes| && off + |bs| <= |bytes|
    requires off + |bs| <= Offset(fields, n - 1) || Offset(fields, n) <= off
    ensures LastCell(Put(bytes, off, bs), fields, n) == LastCell(bytes, fields, n)
  {
    PutElsewhere(bytes, off, bs, Offset(fields, n - 1), Offset(fields, n));
  }

  /** Fields in front of the written bytes stay. */
  lemma {:induction false} CellsInFront(bytes: seq<Byte>, off: nat, bs: seq<Byte>, fields: seq<FieldDef>, n: nat)
    requires n <= |fields| && Offset(fields, n) <= |bytes| && off + |bs| <= |bytes|
    requires Offset(fields, n) <= off || off + |bs| <= INT_SIZE
    ensures CellsUpTo(Put(bytes, off, bs), fields, n) == CellsUpTo(bytes, fields, n)
    decreases n
  {
    if n > 0 {
      CellsInFront(bytes, off, bs, fields, n - 1);
      LastCellStays(bytes, off, bs, fields, n);
    }
  }

  /** Writing a flag changes the flag only. */
  lemma FlagWritten(bytes: seq<Byte>, fields: seq<FieldDef>, flag: int)
    requires |bytes| == SlotSize(fields) && -INT_LIMIT <= flag < INT_LIMIT
    ensures SlotIn(Put(bytes, 0, Enc(flag)), fields) == Slot(flag == USED, SlotIn(bytes, fields).row)
  {
    PutAt(bytes, 0, Enc(flag));
    IntRoundTrip(flag);
    CellsInFront(bytes, 0, Enc(flag), fields, |fields|);
  }

  /** The cell is of the field's type and within its declared length. */
  predicate Fits(c: Cell, t: FieldType) {
    match t
    case IntField => c.IntCell? && -INT_LIMIT <= c.n < INT_LIMIT
    case StrField(len) => c.StrCell? && |c.bytes| <= len && |c.bytes| < INT_LIMIT
  }

  /** The bytes that store a cell. */
  function CellBytes(c: Cell, t: FieldType): (bs: seq<Byte>)
    requires Fits(c, t)
    ensures INT_SIZE <= |bs| <= Size(t)
  {
    if c.IntCell? then Enc(c.n) else Enc(|c.bytes|) + c.bytes
  }

  lemma CellWritten(bytes: seq<Byte>, off: nat, t: FieldType, c: Cell)
    requires off + Size(t) <= |bytes| && Fits(c, t)
    ensures CellOf(Put(bytes, off, CellBytes(c, t))[off..off + Size(t)], t) == c
  {
    var bs := CellBytes(c, t);
    var region := Put(bytes, off, bs)[off..off + Size(t)];
    assert region[..|bs|] == bs;
    assert region[0..INT_SIZE] == bs[..INT_SIZE];
    if c.IntCell? {
      IntRoundTrip(c.n);
    } else {
      IntRoundTrip(|c.bytes|);
      assert region[INT_SIZE..INT_SIZE + |c.bytes|] == bs[INT_SIZE..];
    }
  }

  lemma LastCellWritten(bytes: seq<Byte>, fields: seq<FieldDef>, n: nat, c: Cell, off: nat, bs: seq<Byte>)
    requires 0 < n <= |fields| && Offset(fields, n) <= |bytes| && Fits(c, fields[n - 1].typ)
    requires off == Offset(fields, n - 1) && bs == CellBytes(c, fields[n - 1].typ)
    ensures CellsUpTo(Put(bytes, off, bs), fields, n) == CellsUpTo(bytes, fields, n)[n - 1 := c]
  {
    CellsInFront(bytes, off, bs, fields, n - 1);
    CellWritten(bytes, off, fields[n - 1].typ, c);
    assert LastCell(Put(bytes, off, bs), fields, n) == c;
  }

  lemma {:induction false} CellsWritten(bytes: seq<Byte>, fields: seq<FieldDef>, i: nat, c: Cell, off: nat,
                                        bs: seq<Byte>, n: nat)
    requires i < n <= |fields| && Offset(fields, n) <= |bytes| && Fits(c, fields[i].typ)
    requires off == Offset(fields, i) && bs == CellBytes(c, fields[i].typ)
    requires off + Size(fields[i].typ) <= Offset(fields, n)
    ensures CellsUpTo(Put(bytes, off, bs), fields, n) == CellsUpTo(bytes, fields, n)[i := c]
    decreases n
  {
    if i == n - 1 {
      LastCellWritten(bytes, fields, n, c, off, bs);
    } else {
      OffsetsGrow(fields, i, n - 1);
      CellsWritten(bytes, fields, i, c, off, bs, n - 1);
      LastCellStays(bytes, off, bs, fields, n);
    }
  }

  /** Writing one field changes that field only: not the flag, and no other field. */
  lemma FieldWritten(bytes: seq<Byte>, fields: seq<FieldDef>, i: nat, c: Cell)
    requires |bytes| == SlotSize(fields) && i < |fields| && Fits(c, fields[i].typ)
    ensures Offset(fields, i) + |CellBytes(c, fields[i].typ)| <= |bytes|
    ensures SlotIn(Put(bytes, Offset(fields, i), CellBytes(c, fields[i].typ)), fields) ==
            Slot(SlotIn(bytes, fields).used, SlotIn(bytes, fields).row[i := c])
  {
    OffsetsGrow(fields, i, |fields|);
    PutElsewhere(bytes, Offset(fields, i), CellBytes(c, fields[i].typ), 0, INT_SIZE);
    CellsWritten(bytes, fields, i, c, Offset(fields, i), CellBytes(c, fields[i].typ), |fields|);
  }

  lemma {:induction false} CellAt(bytes: seq<Byte>, fields: seq<FieldDef>, i: nat, n: nat)
    requires i < n <= |fields| && Offset(fields, n) <= |bytes|
    ensures Offset(fields, i + 1) <= |bytes|
    ensures CellsUpTo(bytes, fields, n)[i] == LastCell(bytes, fields, i + 1)
    decreases n
  {
    if i < n - 1 {
      CellAt(bytes, fields, i, n - 1);
    }
  }

  // ---------- the page ----------

  function SlotBytes(buf: seq<Byte>, fields: seq<FieldDef>, slot: nat): (bytes: seq<Byte>)
    requires slot < SlotCount(fields, |buf|)
    ensures |bytes| == SlotSize(fields)
  {
    SlotFits(fields, |buf|, slot);
    buf[SlotPos(fields, slot)..SlotPos(fields, slot) + SlotSize(fields)]
  }

  /** The page as slots. */
  function SlotsOf(buf: seq<Byte>, fields: seq<FieldDef>): (slots: Slots<seq<Cell>>)
    ensures |slots| == SlotCount(fields, |buf|)
    ensures forall k :: 0 <= k < |slots| ==> slots[k] == SlotIn(SlotBytes(buf, fields, k), fields)
  {
    seq(SlotCount(fields, |buf|), k requires 0 <= k < SlotCount(fields, |buf|) => SlotIn(SlotBytes(buf, fields, k), fields))
  }

  lemma SlotWrittenInside(buf: seq<Byte>, fields: seq<FieldDef>, slot: nat, start: nat, off: nat, bs: seq<Byte>)
    requires slot < SlotCount(fields, |buf|) && start == SlotPos(fields, slot)
    requires off + |bs| <= SlotSize(fields) && start + off + |bs| <= |buf|
    ensures SlotBytes(Put(buf, start + off, bs), fields, slot) == Put(SlotBytes(buf, fields, slot), off, bs)
  {
    SlotFits(fields, |buf|, slot);
    PutInside(buf, start + off, bs, start, start + SlotSize(fields));
  }

  lemma OtherSlotStays(buf: seq<Byte>, fields: seq<FieldDef>, slot: nat, k: nat, at: nat, bs: seq<Byte>)
    requires slot < SlotCount(fields, |buf|) && k < SlotCount(fields, |buf|) && k != slot
    requires SlotPos(fields, slot) <= at && at + |bs| <= SlotPos(fields, slot) + SlotSize(fields) && at + |bs| <= |buf|
    ensures SlotBytes(Put(buf, at, bs), fields, k) == SlotBytes(buf, fields, k)
  {
    SlotFits(fields, |buf|, k);
    SlotsApart(fields, if k < slot then k else slot, if k < slot then slot else k);
    PutElsewhere(buf, at, bs, SlotPos(fields, k), SlotPos(fields, k) + SlotSize(fields));
  }

  /** Writing inside one slot changes that slot only. */
  lemma SlotWritten(buf: seq<Byte>, fields: seq<FieldDef>, slot: nat, off: nat, bs: seq<Byte>, at: nat)
    requires slot < SlotCount(fields, |buf|) && off + |bs| <= SlotSize(fields) && at == SlotPos(fields, slot) + off
    ensures at + |bs| <= |buf|
    ensures SlotsOf(Put(buf, at, bs), fields) ==
            SlotsOf(buf, fields)[slot := SlotIn(Put(SlotBytes(buf, fields, slot), off, bs), fields)]
  {
    SlotFits(fields, |buf|, slot);
    SlotWrittenInside(buf, fields, slot, SlotPos(fields, slot), off, bs);
    forall k: nat | k < SlotCount(fields, |buf|) && k != slot
      ensures SlotBytes(Put(buf, at, bs), fields, k) == SlotBytes(buf, fields, k)
    {
      OtherSlotStays(buf, fields, slot, k, at, bs);
    }
  }

  /** Writing a field of a slot changes that field of that slot only. */
  lemma FieldOfSlotWritten(buf: seq<Byte>, fields: seq<FieldDef>, slot: nat, i: nat, c: Cell, at: nat)
    requires slot < SlotCount(fields, |buf|) && i < |fields| && Fits(c, fields[i].typ)
    requires at == SlotPos(fields, slot) + Offset(fields, i)
    ensures at + |CellBytes(c, fields[i].typ)| <= |buf|
    ensures
      var was := SlotsOf(buf, fields);
      SlotsOf(Put(buf, at, CellBytes(c, fields[i].typ)), fields) == was[slot := Slot(was[slot].used, was[slot].row[i := c])]
  {
    FieldWritten(SlotBytes(buf, fields, slot), fields, i, c);
    SlotWritten(buf, fields, slot, Offset(fields, i), CellBytes(c, fields[i].typ), at);
  }

  lemma {:induction false} SlotAligned(fields: seq<FieldDef>, slot: nat)
    requires SlotSize(fields) % INT_SIZE == 0
    ensures SlotPos(fields, slot) % INT_SIZE == 0
    decreases slot
  {
    if slot > 0 {
      SlotAligned(fields, slot - 1);
      SumAligned(SlotPos(fields, slot - 1), SlotSize(fields));
    }
  }

  lemma {:induction false} OffsetAligned(fields: seq<FieldDef>, i: nat)
    requires Aligned(fields) && i <= |fields|
    ensures Offset(fields, i) % INT_SIZE == 0
    decreases i
  {
    if i > 0 {
      OffsetAligned(fields, i - 1);
      SumAligned(Offset(fields, i - 1), Size(fields[i - 1].typ));
    }
  }

  lemma SumAligned(a: nat, b: nat)
    requires a % INT_SIZE == 0 && b % INT_SIZE == 0
    ensures (a + b) % INT_SIZE == 0
  {
  }

  /** Every field of every slot lies at a multiple of the integer size. */
  lemma PlaceAligned(fields: seq<FieldDef>, slot: nat, i: nat)
    requires Aligned(fields) && i <= |fields|
    ensures (SlotPos(fields, slot) + Offset(fields, i)) % INT_SIZE == 0
  {
    OffsetAligned(fields, i);
    OffsetAligned(fields, |fields|);
    SlotAligned(fields, slot);
    SumAligned(SlotPos(fields, slot), Offset(fields, i));
  }

  /** The flag of a slot as stored. */
  function FlagIn(buf: seq<Byte>, fields: seq<FieldDef>, slot: nat): int
    requires slot < SlotCount(fields, |buf|)
  {
    IntAt(SlotBytes(buf, fields, slot), 0)
  }

  lemma FlagPlace(buf: seq<Byte>, fields: seq<FieldDef>, slot: nat)
    requires slot < SlotCount(fields, |buf|)
    ensures SlotPos(fields, slot) + INT_SIZE <= |buf| && IntAt(buf, SlotPos(fields, slot)) == FlagIn(buf, fields, slot)
  {
    SlotFits(fields, |buf|, slot);
    var start := SlotPos(fields, slot);
    SliceOfSlice(buf, start, start + SlotSize(fields), 0, INT_SIZE);
  }

  lemma FieldEnds(fields: seq<FieldDef>, blockSize: nat, slot: nat, i: nat)
    requires slot < SlotCount(fields, blockSize) && i < |fields|
    ensures Offset(fields, i + 1) <= SlotSize(fields)
    ensures SlotPos(fields, slot) + Offset(fields, i) + Size(fields[i].typ) <= blockSize
  {
    SlotFits(fields, blockSize, slot);
    OffsetsGrow(fields, i, |fields|);
  }

  /** Where a field of a slot is read. */
  lemma FieldPlace(buf: seq<Byte>, fields: seq<FieldDef>, slot: nat, i: nat, at: nat)
    requires slot < SlotCount(fields, |buf|) && i < |fields| && at == SlotPos(fields, slot) + Offset(fields, i)
    ensures at + Size(fields[i].typ) <= |buf|
    ensures SlotsOf(buf, fields)[slot].row[i] == CellOf(buf[at..at + Size(fields[i].typ)], fields[i].typ)
  {
    FieldEnds(fields, |buf|, slot, i);
    RowCell(buf, fields, slot, i);
    FieldBytes(buf, fields, slot, i, at);
  }

  lemma RowCell(buf: seq<Byte>, fields: seq<FieldDef>, slot: nat, i: nat)
    requires slot < SlotCount(fields, |buf|) && i < |fields|
    ensures Offset(fields, i + 1) <= SlotSize(fields)
    ensures SlotsOf(buf, fields)[slot].row[i] == LastCell(SlotBytes(buf, fields, slot), fields, i + 1)
  {
    CellAt(SlotBytes(buf, fields, slot), fields, i, |fields|);
  }

  lemma FieldBytes(buf: seq<Byte>, fields: seq<FieldDef>, slot: nat, i: nat, at: nat)
    requires slot < SlotCount(fields, |buf|) && i < |fields| && at == SlotPos(fields, slot) + Offset(fields, i)
    requires Offset(fields, i + 1) <= SlotSize(fields) && at + Size(fields[i].typ) <= |buf|
    ensures SlotBytes(buf, fields, slot)[Offset(fields, i)..Offset(fields, i + 1)] == buf[at..at + Size(fields[i].typ)]
  {
    var start := SlotPos(fields, slot);
    SlotFits(fields, |buf|, slot);
    SliceOfSlice(buf, start, start + SlotSize(fields), Offset(fields, i), Offset(fields, i + 1));
  }

  lemma SliceOfSlice(s: seq<Byte>, a: nat, b: nat, c: nat, d: nat)
    requires a <= b <= |s| && c <= d <= b - a
    ensures s[a..b][c..d] == s[a + c..a + d]
  {
    var whole := s[a..b];
    assert forall k :: c <= k < d ==> whole[k] == s[a + k];
  }

  /**
   What get_int and get_bytes find at a field. A stored length beyond the declared one reads on into
   what follows, up to the end of the page.
   */
  function ReadAt(buf: seq<Byte>, at: nat, t: FieldType): Option<Cell>
    requires at + INT_SIZE <= |buf|
  {
    var n := IntAt(buf, at);
    match t
    case IntField => Some(IntCell(n))
    case StrField(_) => if 0 <= n <= |buf| - at - INT_SIZE then Some(StrCell(buf[at + INT_SIZE..at + INT_SIZE + n])) else None
  }

  /** It is the field's cell unless that is garbled; then it is something longer than declared, or nothing. */
  lemma CellRead(buf: seq<Byte>, at: nat, t: FieldType)
    requires at + Size(t) <= |buf|
    ensures
      var c, r := CellOf(buf[at..at + Size(t)], t), ReadAt(buf, at, t);
      && (!c.Garbled? <==> r == Some(c))
      && (c.Garbled? ==> r.None? || (r.value.StrCell? && t.StrField? && |r.value.bytes| > t.length))
  {
    SliceOfSlice(buf, at, at + Size(t), 0, INT_SIZE);
    var n := IntAt(buf, at);
    if t.StrField? && 0 <= n <= t.length {
      SliceOfSlice(buf, at, at + Size(t), INT_SIZE, INT_SIZE + n);
    }
  }

  lemma FieldRead(buf: seq<Byte>, fields: seq<FieldDef>, slot: nat, i: nat, at: nat)
    requires slot < SlotCount(fields, |buf|) && i < |fields| && at == SlotPos(fields, slot) + Offset(fields, i)
    ensures at + INT_SIZE <= |buf|
    ensures
      var c := SlotsOf(buf, fields)[slot].row[i];
      !c.Garbled? <==> ReadAt(buf, at, fields[i].typ) == Some(c)
  {
    FieldPlace(buf, fields, slot, i, at);
    CellRead(buf, at, fields[i].typ);
  }

  function Blank(t: FieldType): (c: Cell)
    ensures Fits(c, t)
  {
    if t.IntField? then IntCell(0) else StrCell([])
  }

  function BlankRow(fields: seq<FieldDef>): (row: seq<Cell>)
    ensures |row| == |fields|
    ensures forall i :: 0 <= i < |fields| ==> row[i] == if fields[i].typ.IntField? then IntCell(0) else StrCell([])
  {
    seq(|fields|, i requires 0 <= i < |fields| => Blank(fields[i].typ))
  }

  predicate BlankUpTo(slot: Slot<seq<Cell>>, fields: seq<FieldDef>, n: nat) {
    && !slot.used
    && |slot.row| == |fields|
    && forall i :: 0 <= i < n <= |fields| ==> slot.row[i] == Blank(fields[i].typ)
  }

  class RecordPage {
    const fields: seq<FieldDef>
    const page: BytePage

    ghost predicate Valid() {
      Aligned(fields) && page.buffer.Length < INT_LIMIT
    }

    ghost function View(): Slots<seq<Cell>>
      reads page.buffer
    {
      SlotsOf(page.buffer[..], fields)
    }

    /** calculate_offset */
    method SlotPlace(slot: nat) returns (at: nat)
      requires Valid()
      ensures at == SlotPos(fields, slot) && at % INT_SIZE == 0
    {
      OffsetAligned(fields, |fields|);
      SlotAligned(fields, slot);
      SlotPosIs(fields, slot);
      at := slot * SlotSize(fields);
    }

    constructor (fields: seq<FieldDef>, page: BytePage)
      requires Aligned(fields) && page.buffer.Length < INT_LIMIT
      ensures Valid() && this.fields == fields && this.page == page
    {
      this.fields, this.page := fields, page;
    }

    method SetFlag(slot: nat, flag: int)
      requires Valid() && slot < |View()| && -INT_LIMIT <= flag < INT_LIMIT
      modifies page.buffer
      ensures View() == old(View())[slot := Slot(flag == USED, old(View())[slot].row)]
    {
      ghost var buf := page.buffer[..];
      var at := SlotPlace(slot);
      SlotFits(fields, |buf|, slot);
      SlotWritten(buf, fields, slot, 0, Enc(flag), SlotPos(fields, slot));
      FlagWritten(SlotBytes(buf, fields, slot), fields, flag);
      var _ := page.SetInt(at, flag);
    }

    method PutCell(at: nat, c: Cell, t: FieldType)
      requires Fits(c, t) && at % INT_SIZE == 0 && at + |CellBytes(c, t)| <= page.buffer.Length
      modifies page.buffer
      ensures page.buffer[..] == Put(old(page.buffer[..]), at, CellBytes(c, t))
    {
      if c.IntCell? {
        var _ := page.SetInt(at, c.n);
      } else {
        var _ := page.SetBytes(at, c.bytes);
      }
    }

    /** calculate_offset and the field's offset. */
    method PlaceOf(slot: nat, i: nat) returns (at: nat)
      requires Valid() && i < |fields|
      ensures at == SlotPos(fields, slot) + Offset(fields, i) && at % INT_SIZE == 0
    {
      PlaceAligned(fields, slot, i);
      SlotPosIs(fields, slot);
      at := slot * SlotSize(fields) + Offset(fields, i);
    }

    /** set_int and set_str: no other field, slot or flag changes. */
    method SetField(slot: nat, i: nat, c: Cell)
      requires Valid() && slot < |View()| && i < |fields| && Fits(c, fields[i].typ)
      modifies page.buffer
      ensures View() == old(View())[slot := Slot(old(View())[slot].used, old(View())[slot].row[i := c])]
    {
      var at := PlaceOf(slot, i);
      FieldOfSlotWritten(page.buffer[..], fields, slot, i, c, at);
      PutCell(at, c, fields[i].typ);
    }

    method GetFlag(slot: nat) returns (flag: int)
      requires Valid() && slot < |View()|
      ensures flag == FlagIn(page.buffer[..], fields, slot)
    {
      var at := SlotPlace(slot);
      SlotFits(fields, page.buffer.Length, slot);
      var r := page.GetInt(at);
      FlagPlace(page.buffer[..], fields, slot);
      flag := r.value;
    }

    method ReadCell(at: nat, t: FieldType) returns (r: Option<Cell>)
      requires at % INT_SIZE == 0 && at + INT_SIZE <= page.buffer.Length
      ensures r == ReadAt(page.buffer[..], at, t)
    {
      if t.IntField? {
        var n := page.GetInt(at);
        r := Some(IntCell(n.value));
      } else {
        var text := page.GetBytes(at);
        r := if text.Some? then Some(StrCell(text.value)) else None;
      }
    }

    /** get_int and get_str: the field's cell exactly if its stored length is not beyond the declared one. */
    method GetField(slot: nat, i: nat) returns (r: Option<Cell>)
      requires Valid() && slot < |View()| && i < |fields|
      ensures !View()[slot].row[i].Garbled? <==> r == Some(View()[slot].row[i])
      ensures
        var at := SlotPos(fields, slot) + Offset(fields, i);
        at + INT_SIZE <= page.buffer.Length && r == ReadAt(page.buffer[..], at, fields[i].typ)
    {
      var at := PlaceOf(slot, i);
      FieldRead(page.buffer[..], fields, slot, i, at);
      r := ReadCell(at, fields[i].typ);
    }

    /** search_after */
    method SearchAfter(slot: int, flag: int) returns (next: int)
      requires Valid() && -1 <= slot < |View()|
      ensures next == -1 || (slot < next < |View()| && FlagIn(page.buffer[..], fields, next) == flag)
      ensures forall k: nat :: slot < k < (if next >= 0 then next else |View()|) ==>
                FlagIn(page.buffer[..], fields, k) != flag
    {
      next := slot + 1;
      SlotFits(fields, page.buffer.Length, next);
      while SlotPos(fields, next + 1) <= page.buffer.Length
        invariant slot < next <= |View()|
        invariant SlotPos(fields, next + 1) <= page.buffer.Length <==> next < |View()|
        invariant forall k: nat :: slot < k < next ==> FlagIn(page.buffer[..], fields, k) != flag
      {
        var found := GetFlag(next);
        if found == flag {
          return;
        }
        next := next + 1;
        SlotFits(fields, page.buffer.Length, next);
      }
      next := -1;
    }

    /** insert_after: the first free slot behind this one is taken, if there is one. */
    method InsertAfter(slot: int) returns (next: int)
      requires Valid() && -1 <= slot < |View()|
      modifies page.buffer
      ensures next == -1 ==> View() == old(View())
      ensures next != -1 ==> slot < next < |old(View())| && old(FlagIn(page.buffer[..], fields, next)) == EMPTY
      ensures next != -1 ==> View() == old(View())[next := Slot(true, old(View())[next].row)]
      ensures forall k: nat :: slot < k < (if next >= 0 then next else |old(View())|) ==>
                old(FlagIn(page.buffer[..], fields, k)) != EMPTY
    {
      next := SearchAfter(slot, EMPTY);
      if next >= 0 {
        SetFlag(next, USED);
      }
    }

    /** format: every slot free, every integer 0 and every string empty. */
    method Format()
      requires Valid()
      modifies page.buffer
      ensures View() == seq(|old(View())|, _ => Slot(false, BlankRow(fields)))
    {
      ghost var n := |View()|;
      var slot := 0;
      SlotFits(fields, page.buffer.Length, slot);
      while SlotPos(fields, slot + 1) <= page.buffer.Length
        invariant 0 <= slot <= n == |View()|
        invariant SlotPos(fields, slot + 1) <= page.buffer.Length <==> slot < n
        invariant forall k :: 0 <= k < slot ==> View()[k] == Slot(false, BlankRow(fields))
        decreases n - slot
      {
        FormatSlot(slot);
        slot := slot + 1;
        SlotFits(fields, page.buffer.Length, slot);
      }
    }

    method FormatSlot(slot: nat)
      requires Valid() && slot < |View()|
      modifies page.buffer
      ensures View() == old(View())[slot := Slot(false, BlankRow(fields))]
    {
      SetFlag(slot, EMPTY);
      var i := 0;
      while i < |fields|
        invariant 0 <= i <= |fields| && |View()| == |old(View())|
        invariant BlankUpTo(View()[slot], fields, i)
        invariant View() == old(View())[slot := View()[slot]]
      {
        SetField(slot, i, Blank(fields[i].typ));
        i := i + 1;
      }
      assert View()[slot].row == BlankRow(fields);
    }

    method DeleteRecord(slot: nat)
      requires Valid() && slot < |View()|
      modifies page.buffer
      ensures View() == old(View())[slot := Slot(false, old(View())[slot].row)]
    {
      SetFlag(slot, EMPTY);
    }
  }
}
