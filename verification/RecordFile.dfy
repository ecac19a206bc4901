/**
 A heap file of byte blocks. Seen through the layout it is a file of slots, and writing a flag or a
 field into a block's bytes is what the table scan's steps do to that file: one slot changes.
 */
module RecordFiles {
  import opened PageBytes
  import opened HeapFiles
  import opened RecordPages

  /** The blocks as slots. */
  function FileView(bufs: seq<seq<Byte>>, fields: seq<FieldDef>): (blocks: seq<Slots<seq<Cell>>>)
    ensures |blocks| == |bufs| && forall b :: 0 <= b < |bufs| ==> blocks[b] == SlotsOf(bufs[b], fields)
  {
    seq(|bufs|, b requires 0 <= b < |bufs| => SlotsOf(bufs[b], fields))
  }

  /** Blocks of one size make a file the table scan can work on. */
  lemma ViewOk(bufs: seq<seq<Byte>>, fields: seq<FieldDef>, blockSize: nat)
    requires bufs != [] && forall b :: 0 <= b < |bufs| ==> |bufs[b]| == blockSize
    ensures FileOk(FileView(bufs, fields), SlotCount(fields, blockSize))
  {
  }

  lemma BlockChanged(bufs: seq<seq<Byte>>, fields: seq<FieldDef>, b: nat, buf: seq<Byte>, s: nat, slot: Slot<seq<Cell>>)
    requires b < |bufs| && s < SlotCount(fields, |bufs[b]|)
    requires SlotsOf(buf, fields) == SlotsOf(bufs[b], fields)[s := slot]
    ensures FileView(bufs[b := buf], fields) == SetSlot(FileView(bufs, fields), b, s, slot)
  {
  }

  /** Writing one field of one record changes nothing else in the file. */
  lemma FieldInFile(bufs: seq<seq<Byte>>, fields: seq<FieldDef>, b: nat, s: nat, i: nat, c: Cell, at: nat)
    requires b < |bufs| && s < SlotCount(fields, |bufs[b]|) && i < |fields| && Fits(c, fields[i].typ)
    requires at == SlotPos(fields, s) + Offset(fields, i)
    ensures at + |CellBytes(c, fields[i].typ)| <= |bufs[b]|
    ensures
      var was := FileView(bufs, fields)[b][s];
      FileView(bufs[b := Put(bufs[b], at, CellBytes(c, fields[i].typ))], fields) ==
      SetSlot(FileView(bufs, fields), b, s, Slot(was.used, was.row[i := c]))
  {
    FieldOfSlotWritten(bufs[b], fields, s, i, c, at);
    var was := FileView(bufs, fields)[b][s];
    BlockChanged(bufs, fields, b, Put(bufs[b], at, CellBytes(c, fields[i].typ)), s, Slot(was.used, was.row[i := c]));
  }

  /** Taking or freeing a slot changes its flag and nothing else in the file. */
  lemma FlagInFile(bufs: seq<seq<Byte>>, fields: seq<FieldDef>, b: nat, s: nat, used: bool)
    requires b < |bufs| && s < SlotCount(fields, |bufs[b]|)
    ensures SlotPos(fields, s) + INT_SIZE <= |bufs[b]|
    ensures
      var was := FileView(bufs, fields)[b][s];
      FileView(bufs[b := Put(bufs[b], SlotPos(fields, s), Enc(if used then USED else EMPTY))], fields) ==
      SetSlot(FileView(bufs, fields), b, s, Slot(used, was.row))
  {
    var flag, buf := if used then USED else EMPTY, bufs[b];
    SlotWritten(buf, fields, s, 0, Enc(flag), SlotPos(fields, s));
    FlagWritten(SlotBytes(buf, fields, s), fields, flag);
    var was := FileView(bufs, fields)[b][s];
    BlockChanged(bufs, fields, b, Put(buf, SlotPos(fields, s), Enc(flag)), s, Slot(used, was.row));
  }
}
