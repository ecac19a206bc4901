/**
 The buffer manager: a fixed pool of frames over the disk. A page handed out by pin is the
 frame itself, and a buffer keeps its log sequence number when a write is not logged
 (buffer.h:85 tests the old number instead of the new one).
 */
module Buffers {
  import opened DbTypes

  /** What has been done to the storage: the log made durable up to lsn, or the page of a frame with this lsn written. */
  datatype Deed = LogOut(lsn: int) | PageOut(blk: Block, lsn: int)

  /** Before a page is written, the log is made durable up to the record that describes its last change. */
  ghost predicate LogFirst(deeds: seq<Deed>) {
    forall k :: 0 <= k < |deeds| && deeds[k].PageOut? ==> LoggedBefore(deeds, k, deeds[k].lsn)
  }

  ghost predicate LoggedBefore(deeds: seq<Deed>, k: int, lsn: int) {
    exists j :: 0 <= j < k && j < |deeds| && deeds[j].LogOut? && deeds[j].lsn >= lsn
  }

  /** From the n-th deed on, b is written only behind a log flush up to lsn. */
  ghost predicate Behind(deeds: seq<Deed>, n: int, b: Block, lsn: int) {
    forall k :: 0 <= n <= k < |deeds| && deeds[k].PageOut? && deeds[k].blk == b ==> LoggedBefore(deeds, k, lsn)
  }

  lemma LogThenPage(deeds: seq<Deed>, b: Block, lsn: int)
    requires LogFirst(deeds)
    ensures LogFirst(deeds + [LogOut(lsn), PageOut(b, lsn)])
  {
    var deeds' := deeds + [LogOut(lsn), PageOut(b, lsn)];
    assert deeds'[|deeds|] == LogOut(lsn);
    forall k | 0 <= k < |deeds'| && deeds'[k].PageOut?
      ensures LoggedBefore(deeds', k, deeds'[k].lsn)
    {
      if k < |deeds| {
        assert LoggedBefore(deeds, k, deeds[k].lsn);
        var j :| 0 <= j < k && deeds[j].LogOut? && deeds[j].lsn >= deeds[k].lsn;
        assert deeds'[j] == deeds[j];
      }
    }
  }

  /** A log flush that came before some deed comes before every later one. */
  lemma LoggedStill(deeds: seq<Deed>, deeds': seq<Deed>, k: int, k': int, lsn: int)
    requires deeds <= deeds' && k <= |deeds| && k <= k' && LoggedBefore(deeds, k, lsn)
    ensures LoggedBefore(deeds', k', lsn)
  {
    var j :| 0 <= j < k && j < |deeds| && deeds[j].LogOut? && deeds[j].lsn >= lsn;
    assert deeds'[j] == deeds[j];
  }

  lemma BehindMore(d0: seq<Deed>, d1: seq<Deed>, d2: seq<Deed>, b: Block, lsn: int)
    requires d0 <= d1 <= d2 && Behind(d1, |d0|, b, lsn) && Behind(d2, |d1|, b, lsn)
    ensures Behind(d2, |d0|, b, lsn)
  {
    forall k | |d0| <= k < |d2| && d2[k].PageOut? && d2[k].blk == b
      ensures LoggedBefore(d2, k, lsn)
    {
      if k < |d1| {
        assert d1[k] == d2[k];
        LoggedStill(d1, d2, k, k, lsn);
      }
    }
  }

  lemma BehindFlush(deeds: seq<Deed>, c: Block, n: int, b: Block, lsn: int)
    requires c == b ==> n >= lsn || LoggedBefore(deeds, |deeds|, lsn)
    ensures Behind(deeds + [LogOut(n), PageOut(c, n)], |deeds|, b, lsn)
    ensures n >= lsn || LoggedBefore(deeds, |deeds|, lsn) ==>
              LoggedBefore(deeds + [LogOut(n), PageOut(c, n)], |deeds| + 2, lsn)
  {
    var deeds' := deeds + [LogOut(n), PageOut(c, n)];
    assert deeds'[|deeds|] == LogOut(n) && deeds'[|deeds| + 1] == PageOut(c, n);
    if n >= lsn {
      assert LoggedBefore(deeds', |deeds| + 1, lsn) && LoggedBefore(deeds', |deeds| + 2, lsn);
    } else if LoggedBefore(deeds, |deeds|, lsn) {
      LoggedStill(deeds, deeds', |deeds|, |deeds| + 1, lsn);
      LoggedStill(deeds, deeds', |deeds|, |deeds| + 2, lsn);
    }
  }

  /** The disk and how far the log is durable. */
  class Storage {
    var disk: Disk
    var savedLsn: int
    ghost var deeds: seq<Deed>

    constructor ()
      ensures disk == map[] && savedLsn == 0 && deeds == []
    {
      disk := map[];
      savedLsn := 0;
      deeds := [];
    }

    method FlushLog(lsn: int)
      modifies this`savedLsn, this`deeds
      ensures savedLsn == if lsn > old(savedLsn) then lsn else old(savedLsn)
      ensures deeds == old(deeds) + [LogOut(lsn)]
    {
      if lsn > savedLsn {
        savedLsn := lsn;
      }
      deeds := deeds + [LogOut(lsn)];
    }

    /** lsn is that of the frame written. */
    method Write(b: Block, p: Page, ghost lsn: int)
      modifies this`disk, this`deeds
      ensures disk == old(disk)[b := p] && deeds == old(deeds) + [PageOut(b, lsn)]
    {
      disk := disk[b := p];
      deeds := deeds + [PageOut(b, lsn)];
    }
  }

  class Buffer {
    const fm: Storage
    var contents: Page
    var blk: Option<Block>
    var pins: nat
    var txNum: int
    var lsn: int

    constructor (fm: Storage)
      ensures this.fm == fm && blk == None && pins == 0 && txNum == -1 && lsn == -1
    {
      this.fm := fm;
      contents, blk, pins, txNum, lsn := map[], None, 0, -1, -1;
    }

    method SetModified(tx: int, l: int)
      modifies this`txNum, this`lsn
      ensures txNum == tx && lsn == if l >= 0 then l else old(lsn)
    {
      txNum := tx;
      if l >= 0 {
        lsn := l;
      }
    }

    /** The log goes first: a marked page reaches the disk only after the records about it. */
    method Flush()
      modifies this`txNum, fm
      ensures old(txNum) >= 0 && blk.Some? ==>
                && fm.disk == old(fm.disk)[blk.value := contents] && fm.savedLsn >= lsn && txNum == old(txNum) - 1
                && fm.deeds == old(fm.deeds) + [LogOut(lsn), PageOut(blk.value, lsn)]
      ensures old(txNum) < 0 || blk.None? ==>
                && fm.disk == old(fm.disk) && fm.savedLsn == old(fm.savedLsn) && txNum == old(txNum)
                && fm.deeds == old(fm.deeds)
      ensures fm.savedLsn >= old(fm.savedLsn) && (LogFirst(old(fm.deeds)) ==> LogFirst(fm.deeds))
    {
      if txNum >= 0 && blk.Some? {
        fm.FlushLog(lsn);
        fm.Write(blk.value, contents, lsn);
        txNum := txNum - 1;
        assert fm.deeds == old(fm.deeds) + [LogOut(lsn), PageOut(blk.value, lsn)];
        if LogFirst(old(fm.deeds)) {
          LogThenPage(old(fm.deeds), blk.value, lsn);
        }
      }
    }

    method AssignToBlock(b: Block)
      modifies this, fm
      ensures blk == Some(b) && pins == 0 && lsn == old(lsn)
      ensures fm.disk == if old(txNum) >= 0 && old(blk).Some? then old(fm.disk)[old(blk).value := old(contents)] else old(fm.disk)
      ensures fm.disk != old(fm.disk) ==> fm.savedLsn >= old(lsn)
      ensures contents == PageOf(fm.disk, b)
      ensures fm.deeds == if old(txNum) >= 0 && old(blk).Some?
                          then old(fm.deeds) + [LogOut(old(lsn)), PageOut(old(blk).value, old(lsn))] else old(fm.deeds)
      ensures old(txNum) >= 0 && old(blk).Some? ==> fm.savedLsn >= old(lsn)
      ensures fm.savedLsn >= old(fm.savedLsn) && (LogFirst(old(fm.deeds)) ==> LogFirst(fm.deeds))
    {
      Flush();
      blk := Some(b);
      contents := PageOf(fm.disk, b);
      pins := 0;
    }
  }

  // ---------- the pool as values ----------

  function Zeros(s: seq<nat>): nat {
    if s == [] then 0 else Zeros(s[..|s| - 1]) + if s[|s| - 1] == 0 then 1 else 0
  }

  lemma {:induction false} ZerosUpdate(s: seq<nat>, i: nat, v: nat)
    requires i < |s|
    ensures Zeros(s[i := v]) == Zeros(s) - (if s[i] == 0 then 1 else 0) + (if v == 0 then 1 else 0)
  {
    var n := |s|;
    if i == n - 1 {
      assert s[i := v][..n - 1] == s[..n - 1];
    } else {
      assert s[i := v][..n - 1] == s[..n - 1][i := v];
      ZerosUpdate(s[..n - 1], i, v);
    }
  }

  lemma {:induction false} ZerosAll(s: seq<nat>)
    requires forall i :: 0 <= i < |s| ==> s[i] == 0
    ensures Zeros(s) == |s|
    decreases |s|
  {
    if s != [] {
      ZerosAll(s[..|s| - 1]);
    }
  }

  datatype Call = Pin(blk: Block) | Unpin(k: nat) | Change(k: nat, off: int, val: Value, tx: int, lsn: int) | FlushAll(tx: int)

  class BufferMgr {
    const fm: Storage
    const pool: seq<Buffer>
    var numAvailable: int

    /** The frames are distinct objects over one storage, and no block sits in two of them. */
    ghost predicate Shape()
      reads pool
    {
      && (forall i, j :: 0 <= i < j < |pool| ==> pool[i] != pool[j])
      && (forall i :: 0 <= i < |pool| ==> pool[i].fm == fm)
      && (forall i, j :: 0 <= i < j < |pool| && pool[i].blk.Some? ==> pool[i].blk != pool[j].blk)
    }

    /** A frame that is not marked as modified agrees with the disk. */
    ghost predicate Marked()
      reads pool, fm
    {
      forall i :: 0 <= i < |pool| && pool[i].blk.Some? && pool[i].txNum < 0 ==>
        pool[i].contents == PageOf(fm.disk, pool[i].blk.value)
    }

    ghost function Pins(): seq<nat>
      reads pool
    {
      seq(|pool|, i requires 0 <= i < |pool| reads pool => pool[i].pins)
    }

    ghost predicate Valid()
      reads this, pool, fm
    {
      Shape() && Marked() && numAvailable == Zeros(Pins()) && LogFirst(fm.deeds)
    }

    /** What block b holds: its frame if it has one, else the disk. */
    ghost predicate Holds(b: Block, p: Page)
      reads pool, fm
    {
      && (forall i :: 0 <= i < |pool| && pool[i].blk == Some(b) ==> pool[i].contents == p)
      && ((forall i :: 0 <= i < |pool| ==> pool[i].blk != Some(b)) ==> PageOf(fm.disk, b) == p)
    }

    constructor (fm: Storage, numBufs: nat)
      requires LogFirst(fm.deeds)
      ensures Valid() && this.fm == fm && |pool| == numBufs && numAvailable == numBufs
      ensures forall i :: 0 <= i < numBufs ==> fresh(pool[i]) && pool[i].blk == None
    {
      var bufs: seq<Buffer> := [];
      for i := 0 to numBufs
        invariant |bufs| == i
        invariant forall k :: 0 <= k < i ==>
                  fresh(bufs[k]) && bufs[k].fm == fm && bufs[k].blk == None && bufs[k].pins == 0
        invariant forall k, m :: 0 <= k < m < i ==> bufs[k] != bufs[m]
      {
        var b := new Buffer(fm);
        bufs := bufs + [b];
      }
      this.fm := fm;
      pool := bufs;
      numAvailable := numBufs;
      new;
      ZerosAll(Pins());
    }

    method FindExistingBuffer(b: Block) returns (r: Option<nat>)
      ensures r.Some? ==> r.value < |pool| && pool[r.value].blk == Some(b)
      ensures r.None? ==> forall i :: 0 <= i < |pool| ==> pool[i].blk != Some(b)
    {
      for i := 0 to |pool|
        invariant forall k :: 0 <= k < i ==> pool[k].blk != Some(b)
      {
        if pool[i].blk == Some(b) {
          return Some(i);
        }
      }
      r := None;
    }

    method ChooseUnpinnedBuffer() returns (r: Option<nat>)
      ensures r.Some? ==> r.value < |pool| && pool[r.value].pins == 0
      ensures r.None? ==> forall i :: 0 <= i < |pool| ==> pool[i].pins > 0
    {
      for i := 0 to |pool|
        invariant forall k :: 0 <= k < i ==> pool[k].pins > 0
      {
        if pool[i].pins == 0 {
          return Some(i);
        }
      }
      r := None;
    }

    /** A pinned frame stays where it is: same block, same contents, same pins unless it is frame k. */
    twostate predicate PinnedStay(k: int)
      reads pool
    {
      forall i :: 0 <= i < |pool| && i != k && old(pool[i].pins) > 0 ==>
        pool[i].blk == old(pool[i].blk) && pool[i].contents == old(pool[i].contents) && pool[i].pins == old(pool[i].pins)
    }

    /** No block's content changes. */
    twostate predicate SameContents()
      reads pool, fm
    {
      forall b, p :: old(Holds(b, p)) ==> Holds(b, p)
    }

    /**
     What transaction tx has changed in b, last with log record lsn, is in a frame that says so, or already
     on the disk, behind that record.
     */
    ghost predicate Owed(b: Block, tx: int, lsn: int)
      reads pool, fm
    {
      InFrame(b, tx, lsn) || OnDisk(b, lsn)
    }

    ghost predicate InFrame(b: Block, tx: int, lsn: int)
      reads pool
    {
      exists i :: 0 <= i < |pool| && pool[i].blk == Some(b) && pool[i].txNum == tx && pool[i].lsn >= lsn
    }

    ghost predicate OnDisk(b: Block, lsn: int)
      reads pool, fm
    {
      Holds(b, PageOf(fm.disk, b)) && fm.savedLsn >= lsn && LoggedBefore(fm.deeds, |fm.deeds|, lsn)
    }

    /** Nothing owed is lost, unless it is in block but, and no page goes out before its log record. */
    twostate predicate OwedStay(but: Option<Block>)
      reads pool, fm
    {
      && old(fm.deeds) <= fm.deeds
      && forall b, tx, lsn :: Some(b) != but && tx >= 0 && old(Owed(b, tx, lsn)) ==>
           Owed(b, tx, lsn) && Behind(fm.deeds, |old(fm.deeds)|, b, lsn)
    }

    /** Frames and the disk are as they were: so is what is owed. */
    twostate lemma SameOwed()
      requires OnlyPins()
      ensures OwedStay(None)
    {
    }

    /** All frames but k are as they were, and frame k, if marked, has been written behind its log record. */
    twostate predicate Written(k: nat)
      requires k < |pool|
      reads pool, fm
    {
      && (forall i :: 0 <= i < |pool| && i != k ==>
            && pool[i].blk == old(pool[i].blk) && pool[i].contents == old(pool[i].contents)
            && pool[i].txNum == old(pool[i].txNum) && pool[i].lsn == old(pool[i].lsn))
      && fm.savedLsn >= old(fm.savedLsn)
      && if old(pool[k].txNum) >= 0 && old(pool[k].blk).Some? then
           && fm.disk == old(fm.disk)[old(pool[k].blk).value := old(pool[k].contents)] && fm.savedLsn >= old(pool[k].lsn)
           && fm.deeds == old(fm.deeds) + [LogOut(old(pool[k].lsn)), PageOut(old(pool[k].blk).value, old(pool[k].lsn))]
         else
           fm.disk == old(fm.disk) && fm.deeds == old(fm.deeds)
    }

    twostate lemma AllOwed(k: nat)
      requires k < |pool| && old(Shape()) && Written(k) && SameContents()
      ensures OwedStay(None)
    {
      forall b, tx, lsn | tx >= 0 && old(Owed(b, tx, lsn))
        ensures Owed(b, tx, lsn) && Behind(fm.deeds, |old(fm.deeds)|, b, lsn)
      {
        var c, n := old(pool[k].blk), old(pool[k].lsn);
        if old(pool[k].txNum) >= 0 && c.Some? {
          BehindFlush(old(fm.deeds), c.value, n, b, lsn);
          if old(OnDisk(b, lsn)) {
            LoggedStill(old(fm.deeds), fm.deeds, |old(fm.deeds)|, |fm.deeds|, lsn);
            assert Holds(b, old(PageOf(fm.disk, b)));
          } else if c == Some(b) {
            assert old(pool[k].lsn) >= lsn;
            assert Holds(b, old(pool[k].contents)) by {
              assert old(Holds(b, pool[k].contents));
            }
          } else {
            var i :| 0 <= i < |pool| && old(pool[i].blk) == Some(b) && old(pool[i].txNum) == tx && old(pool[i].lsn) >= lsn;
            assert pool[i].blk == Some(b);
          }
        } else if old(OnDisk(b, lsn)) {
          assert Holds(b, old(PageOf(fm.disk, b)));
        } else {
          var i :| 0 <= i < |pool| && old(pool[i].blk) == Some(b) && old(pool[i].txNum) == tx && old(pool[i].lsn) >= lsn;
          assert i != k && pool[i].blk == Some(b);
        }
      }
    }

    /** Frame k holds b, pinned once more, or once if b had no frame; other pinned frames stay. */
    twostate predicate NowPinned(k: nat, b: Block)
      requires k < |pool|
      reads this, pool
    {
      && pool[k].blk == Some(b) && PinnedStay(k)
      && (if old(pool[k].blk) == Some(b) then pool[k].pins == old(pool[k].pins) + 1
          else pool[k].pins == 1 && old(pool[k].pins) == 0)
      && numAvailable == old(numAvailable) - if old(pool[k].pins) == 0 then 1 else 0
    }

    /**
     None stands for waiting in vain until the request is aborted: the block has no frame and
     every frame is pinned.
     */
    method TryPin(b: Block) returns (r: Option<nat>)
      requires Valid()
      modifies this`numAvailable, pool, fm
      ensures Valid() && SameContents() && OwedStay(None)
      ensures r.None? <==> (forall i :: 0 <= i < |pool| ==> old(pool[i].blk) != Some(b) && old(pool[i].pins) > 0)
      ensures if r.None? then PinnedStay(-1) else r.value < |pool| && NowPinned(r.value, b)
    {
      var k := FrameFor(b);
      if k.None? {
        FramesHold();
        SameOwed();
        return None;
      }
      PinFrame(k.value, b);
      r := k;
    }

    /** The frame that b is in, or one to put it in. */
    method FrameFor(b: Block) returns (r: Option<nat>)
      ensures r.None? <==> (forall i :: 0 <= i < |pool| ==> pool[i].blk != Some(b) && pool[i].pins > 0)
      ensures r.Some? ==> r.value < |pool|
      ensures r.Some? && pool[r.value].blk != Some(b) ==>
                pool[r.value].pins == 0 && forall i :: 0 <= i < |pool| ==> pool[i].blk != Some(b)
    {
      r := FindExistingBuffer(b);
      if r.None? {
        r := ChooseUnpinnedBuffer();
      }
    }

    method PinFrame(k: nat, b: Block)
      requires Valid() && k < |pool|
      requires pool[k].blk != Some(b) ==> pool[k].pins == 0 && forall i :: 0 <= i < |pool| ==> pool[i].blk != Some(b)
      modifies this`numAvailable, pool[k], fm
      ensures Valid() && SameContents() && OwedStay(None) && NowPinned(k, b)
    {
      if pool[k].blk == Some(b) {
        AddPin(k);
      } else {
        PinNew(k, b);
      }
    }

    method PinNew(k: nat, b: Block)
      requires Valid() && k < |pool| && pool[k].pins == 0
      requires forall i :: 0 <= i < |pool| ==> pool[i].blk != Some(b)
      modifies this`numAvailable, pool[k], fm
      ensures Valid() && SameContents() && OwedStay(None) && NowPinned(k, b)
    {
      Replace(k, b);
      AddPin(k);
      AllOwed(k);
    }

    twostate predicate FramesStay()
      reads pool, fm
    {
      fm.disk == old(fm.disk) && forall i :: 0 <= i < |pool| ==> pool[i].blk == old(pool[i].blk) && pool[i].contents == old(pool[i].contents)
    }

    /** Nothing but pins and the available count has changed. */
    twostate predicate OnlyPins()
      reads pool, fm
    {
      && FramesStay() && fm.deeds == old(fm.deeds) && fm.savedLsn == old(fm.savedLsn)
      && (forall i :: 0 <= i < |pool| ==> pool[i].txNum == old(pool[i].txNum) && pool[i].lsn == old(pool[i].lsn))
    }

    twostate lemma FramesHold()
      requires FramesStay()
      ensures SameContents()
    {
    }

    /** A frame gets another pin count, and nothing else changes. */
    method SetPins(k: nat, n: nat)
      requires Shape() && Marked() && k < |pool|
      modifies pool[k]
      ensures Shape() && Marked() && SameContents() && PinnedStay(k)
      ensures pool[k].pins == n && Zeros(Pins()) == old(Zeros(Pins())) - (if old(pool[k].pins) == 0 then 1 else 0) + (if n == 0 then 1 else 0)
      ensures OnlyPins() && OwedStay(None)
    {
      ghost var pins := Pins();
      pool[k].pins := n;
      ZerosUpdate(pins, k, n);
      assert Pins() == pins[k := n];
      FramesHold();
      SameOwed();
    }

    method AddPin(k: nat)
      requires Valid() && k < |pool|
      modifies this`numAvailable, pool[k]
      ensures Valid() && SameContents() && PinnedStay(k) && OnlyPins() && OwedStay(None)
      ensures pool[k].pins == old(pool[k].pins) + 1
      ensures numAvailable == old(numAvailable) - if old(pool[k].pins) == 0 then 1 else 0
    {
      if pool[k].pins == 0 {
        numAvailable := numAvailable - 1;
      }
      SetPins(k, pool[k].pins + 1);
    }

    /** An unpinned frame gives up its block, written back if marked, and takes block b. */
    method Replace(k: nat, b: Block)
      requires Valid() && k < |pool| && pool[k].pins == 0
      requires forall i :: 0 <= i < |pool| ==> pool[i].blk != Some(b)
      modifies pool[k], fm
      ensures Valid() && SameContents()
      ensures pool[k].blk == Some(b) && pool[k].pins == 0 && Written(k)
    {
      ghost var pins := Pins();
      pool[k].AssignToBlock(b);
      assert Pins() == pins;
      forall c, p | old(Holds(c, p))
        ensures Holds(c, p)
      {
        if old(pool[k].blk) == Some(c) {
          assert PageOf(fm.disk, c) == p;
        }
      }
    }

    /** The available count grows if frame k is free now. */
    method CountFree(k: nat)
      requires Shape() && Marked() && LogFirst(fm.deeds) && k < |pool|
      modifies this`numAvailable
      ensures numAvailable == old(numAvailable) + if pool[k].pins == 0 then 1 else 0
      ensures Valid() <==> old(numAvailable) + (if pool[k].pins == 0 then 1 else 0) == Zeros(Pins())
    {
      if pool[k].pins == 0 {
        numAvailable := numAvailable + 1;
      }
    }

    /**
     As written, the available count also grows when a buffer is given back that nobody has
     pinned; the count is right afterwards exactly when the buffer was pinned.
     */
    method Unpin(k: nat)
      requires Valid() && k < |pool|
      modifies this`numAvailable, pool[k]
      ensures Valid() <==> old(pool[k].pins) > 0
      ensures pool[k].pins == if old(pool[k].pins) > 0 then old(pool[k].pins) - 1 else 0
      ensures numAvailable == old(numAvailable) + if old(pool[k].pins) <= 1 then 1 else 0
      ensures SameContents() && PinnedStay(k) && OnlyPins() && OwedStay(None)
    {
      SetPins(k, if pool[k].pins > 0 then pool[k].pins - 1 else 0);
      CountFree(k);
    }

    /** The pages in other frames and on the disk are as they were. */
    twostate lemma OthersOwed(k: nat)
      requires k < |pool| && Shape() && pool[k].blk == old(pool[k].blk) && pool[k].blk.Some?
      requires fm.disk == old(fm.disk) && fm.deeds == old(fm.deeds) && fm.savedLsn == old(fm.savedLsn)
      requires forall i :: 0 <= i < |pool| && i != k ==>
                 && pool[i].blk == old(pool[i].blk) && pool[i].contents == old(pool[i].contents)
                 && pool[i].txNum == old(pool[i].txNum) && pool[i].lsn == old(pool[i].lsn)
      ensures forall b, p :: Some(b) != pool[k].blk && old(Holds(b, p)) ==> Holds(b, p)
      ensures OwedStay(pool[k].blk)
    {
    }

    /** A write to a pinned frame: the one operation that changes what a block holds. */
    method Modify(k: nat, off: int, v: Value, tx: int, lsn: int)
      requires Valid() && k < |pool| && pool[k].pins > 0 && pool[k].blk.Some? && tx >= 0
      modifies pool[k]
      ensures Valid() && PinnedStay(k)
      ensures pool[k].blk == old(pool[k].blk) && pool[k].pins == old(pool[k].pins)
      ensures Holds(pool[k].blk.value, old(pool[k].contents)[off := v])
      ensures pool[k].txNum == tx && pool[k].lsn == if lsn >= 0 then lsn else old(pool[k].lsn)
      ensures forall b, p :: Some(b) != pool[k].blk && old(Holds(b, p)) ==> Holds(b, p)
      ensures OwedStay(pool[k].blk) && Owed(pool[k].blk.value, tx, pool[k].lsn)
    {
      ghost var pins := Pins();
      pool[k].contents := pool[k].contents[off := v];
      pool[k].SetModified(tx, lsn);
      assert Pins() == pins;
      OthersOwed(k);
    }

    /** All that the transaction owes is on the disk afterwards, and nothing else has changed but marks. */
    method FlushAll(tx: int)
      requires Valid() && tx >= 0
      modifies pool, fm
      ensures Valid() && SameContents() && PinnedStay(-1) && OwedStay(None)
      ensures forall b, lsn :: old(Owed(b, tx, lsn)) ==> OnDisk(b, lsn)
      ensures forall i :: 0 <= i < |pool| ==>
                && pool[i].blk == old(pool[i].blk) && pool[i].lsn == old(pool[i].lsn) && pool[i].pins == old(pool[i].pins)
                && pool[i].txNum == if old(pool[i].txNum) == tx && pool[i].blk.Some? then tx - 1 else old(pool[i].txNum)
    {
      for k := 0 to |pool|
        invariant Valid() && SameContents() && OwedStay(None)
        invariant forall i :: 0 <= i < |pool| ==>
                    && pool[i].blk == old(pool[i].blk) && pool[i].contents == old(pool[i].contents)
                    && pool[i].pins == old(pool[i].pins) && pool[i].lsn == old(pool[i].lsn)
        invariant forall i :: k <= i < |pool| ==> pool[i].txNum == old(pool[i].txNum)
        invariant forall i :: 0 <= i < k ==>
                    pool[i].txNum == if old(pool[i].txNum) == tx && pool[i].blk.Some? then tx - 1 else old(pool[i].txNum)
      {
        if pool[k].txNum == tx {
          label before:
          ghost var mid := fm.deeds;
          FlushOne(k);
          forall b, t, lsn | t >= 0 && old(Owed(b, t, lsn))
            ensures Owed(b, t, lsn) && Behind(fm.deeds, |old(fm.deeds)|, b, lsn)
          {
            assert old@before(Owed(b, t, lsn));
            BehindMore(old(fm.deeds), mid, fm.deeds, b, lsn);
          }
        }
      }
      forall b, lsn | old(Owed(b, tx, lsn))
        ensures OnDisk(b, lsn)
      {
        assert Owed(b, tx, lsn) && !InFrame(b, tx, lsn);
      }
    }

    method FlushOne(k: nat)
      requires Valid() && k < |pool|
      modifies pool[k], fm
      ensures Valid() && SameContents() && OwedStay(None)
      ensures pool[k].txNum == old(pool[k].txNum) - if old(pool[k].txNum) >= 0 && pool[k].blk.Some? then 1 else 0
      ensures pool[k].blk == old(pool[k].blk) && pool[k].contents == old(pool[k].contents)
      ensures pool[k].pins == old(pool[k].pins) && pool[k].lsn == old(pool[k].lsn)
    {
      ghost var pins := Pins();
      pool[k].Flush();
      assert Pins() == pins;
      assert forall b, p :: old(Holds(b, p)) ==> Holds(b, p);
      AllOwed(k);
    }

    // ---------- from the change to the disk ----------

    /** Block b, and what is owed in it to tx up to lsn, stay through the calls so far. */
    twostate predicate Lasts(b: Block, tx: int, lsn: int)
      reads pool, fm
    {
      && old(fm.deeds) <= fm.deeds && (forall p :: old(Holds(b, p)) ==> Holds(b, p))
      && (old(Owed(b, tx, lsn)) ==> Owed(b, tx, lsn) && Behind(fm.deeds, |old(fm.deeds)|, b, lsn))
    }

    /** The call can be made, and would not change block b. */
    predicate Possible(call: Call, b: Block)
      reads pool
    {
      match call
      case Pin(_) => true
      case Unpin(k) => k < |pool| && pool[k].pins > 0
      case Change(k, _, _, tx, _) =>
        k < |pool| && pool[k].pins > 0 && pool[k].blk.Some? && pool[k].blk != Some(b) && tx >= 0
      case FlushAll(tx) => tx >= 0
    }

    method Make(call: Call, ghost b: Block, ghost tx: int, ghost lsn: int)
      requires Valid() && tx >= 0 && Possible(call, b)
      modifies this`numAvailable, pool, fm
      ensures Valid() && Lasts(b, tx, lsn)
      ensures match call
              case Pin(c) => PinnedStay(-1) || exists k: nat :: k < |pool| && NowPinned(k, c)
              case Unpin(k) => pool[k].pins == old(pool[k].pins) - 1 && PinnedStay(k)
              case Change(k, off, v, t, _) => pool[k].contents == old(pool[k].contents)[off := v] && pool[k].txNum == t
              case FlushAll(t) => forall c, n :: old(Owed(c, t, n)) ==> OnDisk(c, n)
    {
      match call
      case Pin(c) => var _ := TryPin(c);
      case Unpin(k) => Unpin(k);
      case Change(k, off, v, t, n) => Modify(k, off, v, t, n);
      case FlushAll(t) => FlushAll(t);
    }

    /**
     A change is on the disk when its transaction has flushed all, whatever calls came in between, unless
     they changed the block again; and at no time did the block go out in front of the change's log record.
     */
    method ChangeAndFlush(k: nat, off: int, v: Value, tx: int, lsn: nat, calls: seq<Call>)
      requires Valid() && k < |pool| && pool[k].pins > 0 && pool[k].blk.Some? && tx >= 0
      modifies this`numAvailable, pool, fm
      ensures Valid() && old(fm.deeds) <= fm.deeds
      ensures
        var b := old(pool[k].blk.value);
        && PageOf(fm.disk, b) == old(pool[k].contents)[off := v] && fm.savedLsn >= lsn
        && Behind(fm.deeds, |old(fm.deeds)|, b, lsn)
    {
      var b := pool[k].blk.value;
      ghost var page := pool[k].contents[off := v];
      Modify(k, off, v, tx, lsn);
      for i := 0 to |calls|
        invariant Valid() && old(fm.deeds) <= fm.deeds && Holds(b, page)
        invariant Owed(b, tx, lsn) && Behind(fm.deeds, |old(fm.deeds)|, b, lsn)
      {
        ghost var mid := fm.deeds;
        if Possible(calls[i], b) {
          Make(calls[i], b, tx, lsn);
          BehindMore(old(fm.deeds), mid, fm.deeds, b, lsn);
        }
      }
      ghost var mid := fm.deeds;
      FlushAll(tx);
      BehindMore(old(fm.deeds), mid, fm.deeds, b, lsn);
      assert OnDisk(b, lsn) && Holds(b, page);
    }
  }
}
