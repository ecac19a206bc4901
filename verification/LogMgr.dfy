/**
 The log manager: records are packed from the end of a block towards its start, the first
 four bytes of a block say where the newest record begins, and the iterator walks from the
 newest record back through all blocks.

 As intended, an empty log file gets its first block (log_mgr.h:53 has the branches the
 wrong way round) and flushing compares with the last saved number (log_mgr.h:65 compares
 with the latest one).
 */
module Logs {
  import opened DbTypes
  import opened PageBytes

  type Bytes = seq<Byte>

  /** From pos to its end, page s holds exactly recs, newest first. */
  ghost predicate Packed(s: Bytes, pos: int, recs: seq<Bytes>)
    decreases |recs|
  {
    if recs == [] then pos == |s|
    else
      && 0 <= pos && pos % INT_SIZE == 0 && pos + INT_SIZE + |recs[0]| <= |s|
      && IntAt(s, pos) == |recs[0]|
      && s[pos + INT_SIZE..pos + INT_SIZE + |recs[0]|] == recs[0]
      && Packed(s, pos + INT_SIZE + |recs[0]|, recs[1..])
  }

  /** Block s is well formed and holds recs. */
  ghost predicate BlockHolds(s: Bytes, recs: seq<Bytes>) {
    && |s| % INT_SIZE == 0 && 2 * INT_SIZE <= |s| < INT_LIMIT
    && INT_SIZE <= IntAt(s, 0) <= |s| && IntAt(s, 0) % INT_SIZE == 0
    && Packed(s, IntAt(s, 0), recs)
  }

  lemma SameSlice(s: Bytes, s': Bytes, pos: nat, a: nat, b: nat)
    requires |s| == |s'| && pos <= a <= b <= |s| && s[pos..] == s'[pos..]
    ensures s[a..b] == s'[a..b]
  {
    forall k | a <= k < b
      ensures s[k] == s'[k]
    {
      assert s[k] == s[pos..][k - pos];
    }
  }

  /** Only the bytes from pos on matter. */
  lemma {:induction false} PackedFrame(s: Bytes, s': Bytes, pos: nat, recs: seq<Bytes>)
    requires |s| == |s'| && pos <= |s| && s[pos..] == s'[pos..]
    requires Packed(s, pos, recs)
    ensures Packed(s', pos, recs)
    decreases |recs|
  {
    if recs != [] {
      var next := pos + INT_SIZE + |recs[0]|;
      SameSlice(s, s', pos, pos, pos + INT_SIZE);
      SameSlice(s, s', pos, pos + INT_SIZE, next);
      SameSlice(s, s', pos, next, |s|);
      PackedFrame(s, s', next, recs[1..]);
    }
  }

  /** The stretches of a page after a record and then the boundary have been written. */
  lemma FrontBytes(s: Bytes, pos: nat, rec: Bytes)
    requires INT_SIZE <= pos && pos + INT_SIZE + |rec| <= |s| < INT_LIMIT
    ensures
      var s' := Put(Put(s, pos, Enc(|rec|) + rec), 0, Enc(pos));
      && IntAt(s', 0) == pos
      && IntAt(s', pos) == |rec|
      && s'[pos + INT_SIZE..pos + INT_SIZE + |rec|] == rec
      && s'[pos + INT_SIZE + |rec|..] == s[pos + INT_SIZE + |rec|..]
  {
    var next := pos + INT_SIZE + |rec|;
    var s1 := Put(s, pos, Enc(|rec|) + rec);
    BytesRoundTrip(s, pos, rec);
    PutAt(s1, 0, Enc(pos));
    IntRoundTrip(pos);
    PutElsewhere(s1, 0, Enc(pos), pos, pos + INT_SIZE);
    PutElsewhere(s1, 0, Enc(pos), pos + INT_SIZE, next);
    PutElsewhere(s1, 0, Enc(pos), next, |s|);
  }

  /** A page whose stretches read like that holds one more record. */
  lemma PackedFront(s: Bytes, s': Bytes, pos: nat, recs: seq<Bytes>, rec: Bytes)
    requires |s'| == |s| && pos % INT_SIZE == 0 && pos + INT_SIZE + |rec| <= |s|
    requires Packed(s, pos + INT_SIZE + |rec|, recs)
    requires IntAt(s', pos) == |rec| && s'[pos + INT_SIZE..pos + INT_SIZE + |rec|] == rec
    requires s'[pos + INT_SIZE + |rec|..] == s[pos + INT_SIZE + |rec|..]
    ensures Packed(s', pos, [rec] + recs)
  {
    PackedFrame(s, s', pos + INT_SIZE + |rec|, recs);
    assert ([rec] + recs)[1..] == recs;
  }

  /** Writing a record in front of the others and moving the boundary down to it. */
  lemma PackFront(s: Bytes, recs: seq<Bytes>, rec: Bytes, pos: nat)
    requires BlockHolds(s, recs) && pos % INT_SIZE == 0
    requires INT_SIZE <= pos == IntAt(s, 0) - INT_SIZE - |rec|
    ensures BlockHolds(Put(Put(s, pos, Enc(|rec|) + rec), 0, Enc(pos)), [rec] + recs)
  {
    FrontBytes(s, pos, rec);
    PackedFront(s, Put(Put(s, pos, Enc(|rec|) + rec), 0, Enc(pos)), pos, recs, rec);
  }

  /** The records of a whole file, newest first, given those of each block. */
  ghost function Newest(packs: seq<seq<Bytes>>): seq<Bytes> {
    if packs == [] then [] else packs[|packs| - 1] + Newest(packs[..|packs| - 1])
  }

  ghost predicate SizedBlock(s: Bytes, recs: seq<Bytes>, size: nat) {
    |s| == size && BlockHolds(s, recs)
  }

  ghost predicate FileHolds(blocks: seq<Bytes>, packs: seq<seq<Bytes>>, size: nat) {
    && |packs| == |blocks|
    && (forall i :: 0 <= i < |blocks| ==> SizedBlock(blocks[i], packs[i], size))
    && (forall i :: 0 <= i < |blocks| - 1 ==> packs[i] != [])
  }

  /** The log file: a block written or appended is on disk. */
  class LogFile {
    const blockSize: nat
    var blocks: seq<Bytes>

    constructor (blockSize: nat)
      ensures this.blockSize == blockSize && blocks == []
    {
      this.blockSize := blockSize;
      blocks := [];
    }

    method Read(num: nat, p: BytePage)
      requires num < |blocks| && |blocks[num]| == p.buffer.Length
      modifies p.buffer
      ensures p.buffer[..] == blocks[num]
    {
      var s := blocks[num];
      forall i | 0 <= i < p.buffer.Length {
        p.buffer[i] := s[i];
      }
    }

    method Write(num: nat, p: BytePage)
      requires num < |blocks|
      modifies this
      ensures blocks == old(blocks)[num := p.buffer[..]]
    {
      blocks := blocks[num := p.buffer[..]];
    }

    method Append() returns (num: nat)
      modifies this
      ensures num == |old(blocks)| && blocks == old(blocks) + [seq(blockSize, _ => 0)]
    {
      num := |blocks|;
      blocks := blocks + [seq(blockSize, _ => 0)];
    }
  }

  class LogIterator {
    const fm: LogFile
    var block: nat
    const p: BytePage
    var curPos: int
    var boundary: int
    ghost var here: seq<Bytes>           // records of the current page not yet returned
    ghost var packs: seq<seq<Bytes>>     // records of the blocks before it

    ghost predicate Valid()
      reads this, fm, p.buffer
    {
      && p.buffer.Length == fm.blockSize && 2 * INT_SIZE <= fm.blockSize < INT_LIMIT
      && 0 <= curPos <= fm.blockSize
      && Packed(p.buffer[..], curPos, here)
      && block < |fm.blocks| && |packs| == block
      && FileHolds(fm.blocks[..block], packs, fm.blockSize)
      && (forall i :: 0 <= i < block ==> packs[i] != [])
    }

    /** What is still to come. */
    ghost function Remaining(): seq<Bytes>
      reads this
    {
      here + Newest(packs)
    }

    constructor (fm: LogFile, blk: nat, ghost packs: seq<seq<Bytes>>)
      requires FileHolds(fm.blocks, packs, fm.blockSize) && blk + 1 == |fm.blocks|
      ensures Valid() && fresh(p) && fresh(p.buffer) && this.fm == fm
      ensures Remaining() == Newest(packs)
    {
      assert BlockHolds(fm.blocks[blk], packs[blk]);
      this.fm := fm;
      block := blk;
      curPos, boundary := 0, 0;
      p := new BytePage(fm.blockSize);
      here := packs[blk];
      this.packs := packs[..blk];
      new;
      MoveToBlock(blk, packs[blk]);
    }

    method MoveToBlock(blk: nat, ghost recs: seq<Bytes>)
      requires blk < |fm.blocks| && p.buffer.Length == fm.blockSize == |fm.blocks[blk]|
      requires BlockHolds(fm.blocks[blk], recs)
      modifies this`boundary, this`curPos, p.buffer
      ensures p.buffer[..] == fm.blocks[blk]
      ensures 0 <= curPos <= fm.blockSize && Packed(p.buffer[..], curPos, recs)
    {
      fm.Read(blk, p);
      var b := p.GetInt(0);
      boundary := b.value;
      curPos := boundary;
    }

    method HasNext() returns (b: bool)
      requires Valid()
      ensures b <==> Remaining() != []
    {
      b := curPos < fm.blockSize || block > 0;
      if block > 0 {
        assert Newest(packs) == packs[block - 1] + Newest(packs[..block - 1]);
      }
    }

    method PreviousBlock()
      requires Valid() && here == [] && block > 0
      modifies this, p.buffer
      ensures Valid() && here != [] && Remaining() == old(Remaining())
    {
      block := block - 1;
      here := packs[block];
      packs := packs[..block];
      assert fm.blocks[..block + 1][block] == fm.blocks[block];
      assert fm.blocks[..block + 1][..block] == fm.blocks[..block];
      MoveToBlock(block, here);
    }

    method Next() returns (rec: Bytes)
      requires Valid() && Remaining() != []
      modifies this, p.buffer
      ensures Valid()
      ensures [rec] + Remaining() == old(Remaining())
    {
      if curPos == fm.blockSize {
        assert here == [];
        PreviousBlock();
      }
      rec := TakeRecord();
    }

    method TakeRecord() returns (rec: Bytes)
      requires Valid() && here != []
      modifies this`curPos, this`here
      ensures Valid() && [rec] + here == old(here)
    {
      var r := p.GetBytes(curPos);
      rec := r.value;
      curPos := curPos + INT_SIZE + |rec|;
      here := here[1..];
    }
  }

  class LogMgr {
    const fm: LogFile
    const logPage: BytePage
    var curBlk: nat
    var latestLsn: nat
    var lastSavedLsn: nat
    ghost var packs: seq<seq<Bytes>>   // the records of each block, newest first

    ghost predicate Valid()
      reads this, fm, logPage.buffer
    {
      && fm.blockSize % INT_SIZE == 0 && 2 * INT_SIZE <= fm.blockSize < INT_LIMIT
      && logPage.buffer.Length == fm.blockSize
      && curBlk + 1 == |fm.blocks| == |packs|
      && lastSavedLsn <= latestLsn && latestLsn - lastSavedLsn <= |packs[curBlk]|
      && BlockHolds(logPage.buffer[..], packs[curBlk])
      && FileHolds(fm.blocks, SavedPacks(), fm.blockSize)
    }

    /** The records that are on disk: those since the last save are missing. */
    ghost function SavedPacks(): seq<seq<Bytes>>
      requires curBlk + 1 == |packs| && lastSavedLsn <= latestLsn && latestLsn - lastSavedLsn <= |packs[curBlk]|
      reads this
    {
      packs[curBlk := packs[curBlk][latestLsn - lastSavedLsn..]]
    }

    /** Every record appended so far, newest first. */
    ghost function Records(): seq<Bytes>
      reads this
    {
      Newest(packs)
    }

    /** Every record a crash would leave, newest first. */
    ghost function Durable(): seq<Bytes>
      requires Valid()
      reads this, fm, logPage.buffer
    {
      Newest(SavedPacks())
    }

    /** Opening a log file: a new one, or one that an earlier run left behind. */
    constructor (fm: LogFile, ghost packs: seq<seq<Bytes>>)
      requires fm.blockSize % INT_SIZE == 0 && 2 * INT_SIZE <= fm.blockSize < INT_LIMIT
      requires FileHolds(fm.blocks, packs, fm.blockSize)
      modifies fm
      ensures Valid() && fresh(logPage) && fresh(logPage.buffer) && this.fm == fm
      ensures Records() == Newest(packs) && Durable() == Records()
      ensures latestLsn == 0 && lastSavedLsn == 0
    {
      this.fm := fm;
      logPage := new BytePage(fm.blockSize);
      latestLsn, lastSavedLsn := 0, 0;
      curBlk := 0;
      this.packs := packs;
      new;
      var logSize := |fm.blocks|;
      if logSize == 0 {
        AppendNewBlock();
        assert Newest([[]]) == [] + Newest([]) == [];
      } else {
        curBlk := logSize - 1;
        fm.Read(curBlk, logPage);
      }
      assert SavedPacks() == this.packs;
    }

    method AppendNewBlock()
      requires fm.blockSize % INT_SIZE == 0 && 2 * INT_SIZE <= fm.blockSize < INT_LIMIT
      requires logPage.buffer.Length == fm.blockSize && |packs| == |fm.blocks|
      modifies this`curBlk, this`packs, fm, logPage.buffer
      ensures curBlk == |old(fm.blocks)| && packs == old(packs) + [[]]
      ensures fm.blocks == old(fm.blocks) + [logPage.buffer[..]]
      ensures BlockHolds(logPage.buffer[..], []) && IntAt(logPage.buffer[..], 0) == fm.blockSize
    {
      curBlk := fm.Append();
      var alignedBoundary := fm.blockSize / INT_SIZE * INT_SIZE;
      var _ := logPage.SetInt(0, alignedBoundary);
      PutAt(old(logPage.buffer[..]), 0, Enc(alignedBoundary));
      IntRoundTrip(alignedBoundary);
      fm.Write(curBlk, logPage);
      packs := packs + [[]];
    }

    method FlushInternal()
      requires Valid()
      modifies this`lastSavedLsn, fm
      ensures Valid() && lastSavedLsn == latestLsn
      ensures Durable() == Records()
      ensures |fm.blocks| == |old(fm.blocks)|
    {
      fm.Write(curBlk, logPage);
      lastSavedLsn := latestLsn;
      assert packs[curBlk][0..] == packs[curBlk];
      assert SavedPacks() == packs;
    }

    /** Afterwards every record up to number lsn is on disk. */
    method Flush(lsn: int)
      requires Valid() && lsn <= latestLsn
      modifies this`lastSavedLsn, fm
      ensures Valid() && lsn <= lastSavedLsn && old(lastSavedLsn) <= lastSavedLsn
      ensures lsn >= old(lastSavedLsn) ==> Durable() == Records()
      ensures lsn < old(lastSavedLsn) ==> fm.blocks == old(fm.blocks)
    {
      if lsn >= lastSavedLsn {
        FlushInternal();
      }
    }

    method Iterator() returns (it: LogIterator)
      requires Valid()
      modifies this`lastSavedLsn, fm
      ensures Valid() && it.Valid() && fresh(it) && fresh(it.p) && fresh(it.p.buffer) && it.fm == fm
      ensures it.Remaining() == Records()
    {
      FlushInternal();
      assert SavedPacks() == packs;
      it := new LogIterator(fm, curBlk, packs);
    }

    /**
     None stands for the exception on a record that would not be aligned. A record must fit
     an empty block; a longer one would overwrite the block's own header.
     */
    method Append(rec: Bytes) returns (lsn: Option<nat>)
      requires Valid() && 2 * INT_SIZE + |rec| <= fm.blockSize
      modifies this`curBlk, this`packs, this`latestLsn, this`lastSavedLsn, fm, logPage.buffer
      ensures Valid()
      ensures |rec| % INT_SIZE == 0 ==>
                lsn == Some(old(latestLsn) + 1) && latestLsn == old(latestLsn) + 1 && Records() == [rec] + old(Records())
      ensures |rec| % INT_SIZE != 0 ==>
                lsn == None && latestLsn == old(latestLsn) && Records() == old(Records())
      ensures old(lastSavedLsn) <= lastSavedLsn
    {
      var bytesNeeded := |rec| + INT_SIZE;
      var boundary := MakeRoom(bytesNeeded);
      var recPos: nat := boundary - bytesNeeded;
      AlignedIff(boundary, |rec|);
      if recPos % INT_SIZE != 0 {
        return None;
      }
      PutRecord(rec, recPos);
      lsn := Some(latestLsn);
    }

    method MakeRoom(bytesNeeded: nat) returns (boundary: nat)
      requires Valid() && INT_SIZE + bytesNeeded <= fm.blockSize
      modifies this`curBlk, this`packs, this`lastSavedLsn, fm, logPage.buffer
      ensures Valid() && Records() == old(Records())
      ensures boundary == IntAt(logPage.buffer[..], 0) && boundary % INT_SIZE == 0
      ensures boundary - bytesNeeded >= INT_SIZE
      ensures old(lastSavedLsn) <= lastSavedLsn
    {
      boundary := Boundary();
      if boundary - bytesNeeded < INT_SIZE {
        Rollover();
        boundary := Boundary();
      }
    }

    /** Where the records of the current block start. */
    method Boundary() returns (boundary: nat)
      requires Valid()
      ensures boundary == IntAt(logPage.buffer[..], 0) && boundary % INT_SIZE == 0
    {
      var b := logPage.GetInt(0);
      boundary := b.value;
    }

    method WriteFront(rec: Bytes, recPos: nat, ghost recs: seq<Bytes>)
      requires BlockHolds(logPage.buffer[..], recs)
      requires INT_SIZE <= recPos == IntAt(logPage.buffer[..], 0) - INT_SIZE - |rec|
      requires recPos % INT_SIZE == 0 && recPos + INT_SIZE + |rec| <= logPage.buffer.Length < INT_LIMIT
      modifies logPage.buffer
      ensures BlockHolds(logPage.buffer[..], [rec] + recs)
    {
      PackFront(logPage.buffer[..], recs, rec, recPos);
      var _ := logPage.SetBytes(recPos, rec);
      var _ := logPage.SetInt(0, recPos);
    }

    method PutRecord(rec: Bytes, recPos: nat)
      requires Valid() && recPos % INT_SIZE == 0
      requires INT_SIZE <= recPos == IntAt(logPage.buffer[..], 0) - INT_SIZE - |rec|
      modifies this`packs, this`latestLsn, logPage.buffer
      ensures Valid() && latestLsn == old(latestLsn) + 1
      ensures Records() == [rec] + old(Records())
    {
      ghost var saved, before := SavedPacks(), packs;
      WriteFront(rec, recPos, packs[curBlk]);
      latestLsn := latestLsn + 1;
      packs := packs[curBlk := [rec] + packs[curBlk]];
      assert packs[curBlk][latestLsn - lastSavedLsn..] == before[curBlk][latestLsn - 1 - lastSavedLsn..];
      assert SavedPacks() == saved;
      NewestPut(before, curBlk, rec);
    }

    /** The current block is full: save it and start an empty one. */
    method Rollover()
      requires Valid() && packs[curBlk] != []
      modifies this`curBlk, this`packs, this`lastSavedLsn, fm, logPage.buffer
      ensures Valid() && Records() == old(Records()) && packs[curBlk] == []
      ensures IntAt(logPage.buffer[..], 0) == fm.blockSize
      ensures lastSavedLsn == latestLsn
    {
      FlushInternal();
      assert SavedPacks() == packs;
      StartBlock();
      NewestEmptyBlock(old(packs));
    }

    method StartBlock()
      requires Valid() && packs[curBlk] != [] && lastSavedLsn == latestLsn && SavedPacks() == packs
      modifies this`curBlk, this`packs, fm, logPage.buffer
      ensures Valid() && packs == old(packs) + [[]] && curBlk == |old(packs)|
      ensures IntAt(logPage.buffer[..], 0) == fm.blockSize
    {
      AppendNewBlock();
      FileGrows(old(fm.blocks), old(packs), fm.blockSize, logPage.buffer[..]);
      assert SavedPacks() == packs;
    }
  }

  lemma AlignedIff(boundary: int, n: int)
    requires boundary % INT_SIZE == 0
    ensures (boundary - (n + INT_SIZE)) % INT_SIZE == 0 <==> n % INT_SIZE == 0
  {
  }

  lemma NewestEmptyBlock(packs: seq<seq<Bytes>>)
    ensures Newest(packs + [[]]) == Newest(packs)
  {
    assert (packs + [[]])[..|packs|] == packs;
  }

  lemma NewestPut(packs: seq<seq<Bytes>>, cur: nat, rec: Bytes)
    requires |packs| == cur + 1
    ensures Newest(packs[cur := [rec] + packs[cur]]) == [rec] + Newest(packs)
  {
    assert packs[cur := [rec] + packs[cur]][..cur] == packs[..cur];
  }

  lemma FileGrows(blocks: seq<Bytes>, packs: seq<seq<Bytes>>, size: nat, s: Bytes)
    requires FileHolds(blocks, packs, size) && (packs != [] ==> packs[|packs| - 1] != [])
    requires SizedBlock(s, [], size)
    ensures FileHolds(blocks + [s], packs + [[]], size)
  {
    var blocks', packs' := blocks + [s], packs + [[]];
    forall i | 0 <= i < |blocks'|
      ensures SizedBlock(blocks'[i], packs'[i], size)
    {
      if i < |blocks| {
        assert SizedBlock(blocks[i], packs[i], size);
      }
    }
  }
}
