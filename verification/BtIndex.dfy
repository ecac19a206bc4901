/**
 The B-tree index as an object: a directory, a file of leaf pages and a cursor. Insertions,
 deletions and the cursor are proved against the multimap reading of the leaves.

 As intended: no separator comes back (block number -1) when a leaf is not split
 (btree_index.cpp:50 tests the directory's answer the wrong way round), and the slot found
 before the search key is the last one with a smaller key (bt_page.h:142).
 */
module BtIndexes {
  import opened DbTypes
  import opened BtPages
  import opened BtTrees
  import opened BtTreeInsert
  import opened BtDirs
  import opened BtLeaves
  import opened BtLeafInsert
  import opened BtLeafDelete
  import opened BtCovers
  import opened BtMultimap

  function EntryFor(key: int, rid: Rid): Entry {
    Entry(key, rid.blk, rid.slot)
  }

  // ---------- what a cursor still has in front of it ----------

  /** A cursor on slot of page p, with the overflow pages rest behind that page. */
  ghost predicate CursorOk(leaves: seq<Node>, full: int, p: nat, slot: int, rest: seq<nat>, key: int) {
    && p < |leaves| && -1 <= slot < |leaves[p].recs| && Ordered(leaves[p].recs)
    && (forall k :: slot < k < |leaves[p].recs| ==> leaves[p].recs[k].key >= key)
    && ChainOk(leaves, leaves[p].flag, rest)
    && (forall k :: 0 <= k < |rest| ==> OverflowOk(leaves, rest[k], leaves[p].recs, full))
    && (slot >= 0 && rest != [] && leaves[p].recs[0].key == key ==> OnlyKey(leaves[p].recs[..slot + 1], key))
  }

  ghost function Ahead(leaves: seq<Node>, p: nat, slot: int, rest: seq<nat>, key: int): seq<Rid>
    requires p < |leaves| && -1 <= slot < |leaves[p].recs|
  {
    RidsOf(leaves[p].recs[slot + 1..], key) + RidsOf(ChainRecs(leaves, rest), key)
  }

  lemma AheadHere(leaves: seq<Node>, full: int, p: nat, slot: int, rest: seq<nat>, key: int)
    requires CursorOk(leaves, full, p, slot, rest, key) && slot + 1 < |leaves[p].recs|
    requires leaves[p].recs[slot + 1].key == key
    ensures CursorOk(leaves, full, p, slot + 1, rest, key)
    ensures Ahead(leaves, p, slot, rest, key) ==
            [RidOf(leaves[p].recs[slot + 1])] + Ahead(leaves, p, slot + 1, rest, key)
  {
    var recs := leaves[p].recs;
    assert recs[slot + 1..][1..] == recs[slot + 2..];
  }

  lemma PageDone(leaves: seq<Node>, full: int, p: nat, slot: int, rest: seq<nat>, key: int)
    requires CursorOk(leaves, full, p, slot, rest, key)
    requires slot + 1 < |leaves[p].recs| ==> leaves[p].recs[slot + 1].key != key
    ensures RidsOf(leaves[p].recs[slot + 1..], key) == []
    ensures forall k :: slot < k < |leaves[p].recs| ==> leaves[p].recs[k].key != key
  {
    RidsNone(leaves[p].recs[slot + 1..], key);
  }

  lemma RidsFirst(recs: seq<Entry>, tail: seq<Entry>, key: int)
    requires recs != [] && recs[0].key == key
    ensures RidsOf(recs + tail, key) == [RidOf(recs[0])] + (RidsOf(recs[1..], key) + RidsOf(tail, key))
  {
    RidsConcat(recs, tail, key);
  }

  lemma AheadOverflow(leaves: seq<Node>, full: int, p: nat, slot: int, rest: seq<nat>, key: int)
    requires CursorOk(leaves, full, p, slot, rest, key) && rest != [] && leaves[p].recs[0].key == key
    requires slot + 1 < |leaves[p].recs| ==> leaves[p].recs[slot + 1].key != key
    ensures rest[0] < |leaves| && leaves[rest[0]].recs != [] && leaves[rest[0]].recs[0].key == key
    ensures CursorOk(leaves, full, rest[0], 0, rest[1..], key)
    ensures Ahead(leaves, p, slot, rest, key) ==
            [RidOf(leaves[rest[0]].recs[0])] + Ahead(leaves, rest[0], 0, rest[1..], key)
  {
    PageDone(leaves, full, p, slot, rest, key);
    var o := rest[0];
    assert OverflowOk(leaves, o, leaves[p].recs, full);
    var recs, tail := leaves[o].recs, ChainRecs(leaves, rest[1..]);
    forall k | 0 <= k < |rest| - 1
      ensures OverflowOk(leaves, rest[1..][k], recs, full)
    {
      assert OverflowOk(leaves, rest[k + 1], leaves[p].recs, full);
    }
    RidsFirst(recs, tail, key);
    assert ChainRecs(leaves, rest) == recs + tail;
  }

  lemma AheadNone(leaves: seq<Node>, full: int, p: nat, slot: int, rest: seq<nat>, key: int)
    requires CursorOk(leaves, full, p, slot, rest, key)
    requires slot + 1 < |leaves[p].recs| ==> leaves[p].recs[slot + 1].key != key
    requires rest == [] || leaves[p].recs[0].key != key
    ensures Ahead(leaves, p, slot, rest, key) == []
    ensures forall k :: 0 <= k < |rest| ==> OnlyKey(leaves[rest[k]].recs, leaves[p].recs[0].key)
  {
    PageDone(leaves, full, p, slot, rest, key);
    forall k | 0 <= k < |rest|
      ensures rest[k] < |leaves| && leaves[p].recs != [] && OnlyKey(leaves[rest[k]].recs, leaves[p].recs[0].key)
    {
      assert OverflowOk(leaves, rest[k], leaves[p].recs, full);
    }
    if rest != [] {
      ChainKeys(leaves, leaves[p].flag, rest, leaves[p].recs[0].key);
      RidsNone(ChainRecs(leaves, rest), key);
    }
  }

  /** The records in front of the first one that is not smaller than key do not matter to key. */
  lemma RidsFrom(recs: seq<Entry>, rest: seq<Entry>, key: int)
    ensures RidsOf(recs[Pos(recs, key)..], key) + RidsOf(rest, key) == RidsOf(recs + rest, key)
  {
    var i := Pos(recs, key);
    var a, b := recs[..i], recs[i..];
    assert recs == a + b;
    RidsNone(a, key);
    RidsConcat(a, b, key);
    assert [] + RidsOf(b, key) == RidsOf(b, key);
    RidsConcat(recs, rest, key);
  }

  /** A cursor in front of the first record not smaller than key sees all of the leaf's records of key. */
  lemma CursorStart(leaves: seq<Node>, b: nat, chain: seq<nat>, lo: int, hi: Option<int>, full: int, key: int)
    requires LeafOk(leaves, b, chain, lo, hi, full)
    ensures CursorOk(leaves, full, b, Pos(leaves[b].recs, key) - 1, chain, key)
    ensures Ahead(leaves, b, Pos(leaves[b].recs, key) - 1, chain, key) == RidsOf(LeafRecs(leaves, b, chain), key)
  {
    RidsFrom(leaves[b].recs, ChainRecs(leaves, chain), key);
    forall k | 0 <= k < |chain|
      ensures OverflowOk(leaves, chain[k], leaves[b].recs, full)
    {
    }
  }

  // ---------- what a cursor has passed ----------

  /** The pages of a leaf that the cursor has left, and its page up to slot, do not show the record. */
  ghost predicate Passed(leaves: seq<Node>, pages: seq<nat>, n: nat, slot: int, key: int, rid: Rid) {
    && n < |pages| && pages[n] < |leaves| && slot <= |leaves[pages[n]].recs|
    && (forall k :: 0 <= k < n ==> !Shows(leaves, pages[k], key, rid))
    && (forall k :: 0 <= k < slot ==> leaves[pages[n]].recs[k].key != key || RidOf(leaves[pages[n]].recs[k]) != rid)
  }

  /** Where the cursor is: on page n of the leaf's pages, with the others in front. */
  ghost predicate OnPage(leaves: seq<Node>, full: int, pages: seq<nat>, n: nat, slot: int, key: int) {
    n < |pages| && CursorOk(leaves, full, pages[n], slot, pages[n + 1..], key)
  }

  lemma PassedNone(leaves: seq<Node>, pages: seq<nat>, key: int, rid: Rid)
    requires pages != [] && pages[0] < |leaves|
    ensures Passed(leaves, pages, 0, Pos(leaves[pages[0]].recs, key), key, rid)
  {
  }

  lemma PassedSlot(leaves: seq<Node>, pages: seq<nat>, n: nat, slot: int, key: int, rid: Rid)
    requires 0 <= slot && Passed(leaves, pages, n, slot, key, rid) && slot < |leaves[pages[n]].recs|
    requires RidOf(leaves[pages[n]].recs[slot]) != rid
    ensures Passed(leaves, pages, n, slot + 1, key, rid)
  {
  }

  lemma PassedPage(leaves: seq<Node>, full: int, pages: seq<nat>, n: nat, slot: int, key: int, rid: Rid)
    requires OnPage(leaves, full, pages, n, slot, key) && Passed(leaves, pages, n, slot + 1, key, rid)
    requires slot + 1 < |leaves[pages[n]].recs| ==> leaves[pages[n]].recs[slot + 1].key != key
    ensures forall k :: 0 <= k <= n ==> !Shows(leaves, pages[k], key, rid)
  {
    PageDone(leaves, full, pages[n], slot, pages[n + 1..], key);
    FoundSlotIs(leaves[pages[n]].recs, key, rid, |leaves[pages[n]].recs|);
  }

  lemma PassedAll(leaves: seq<Node>, full: int, pages: seq<nat>, n: nat, slot: int, key: int, rid: Rid)
    requires OnPage(leaves, full, pages, n, slot, key) && Passed(leaves, pages, n, slot + 1, key, rid)
    requires slot + 1 < |leaves[pages[n]].recs| ==> leaves[pages[n]].recs[slot + 1].key != key
    requires pages[n + 1..] == [] || leaves[pages[n]].recs[0].key != key
    ensures FoundPage(leaves, pages, key, rid) == |pages|
  {
    PassedPage(leaves, full, pages, n, slot, key, rid);
    var rest := pages[n + 1..];
    AheadNone(leaves, full, pages[n], slot, rest, key);
    forall k | 0 <= k < |pages|
      ensures !Shows(leaves, pages[k], key, rid)
    {
      if k > n {
        assert pages[k] == rest[k - n - 1];
      }
    }
    FoundPageIs(leaves, pages, key, rid, |pages|);
  }

  lemma FoundHere(leaves: seq<Node>, pages: seq<nat>, n: nat, slot: nat, key: int, rid: Rid)
    requires Passed(leaves, pages, n, slot, key, rid) && slot < |leaves[pages[n]].recs|
    requires leaves[pages[n]].recs[slot].key == key && RidOf(leaves[pages[n]].recs[slot]) == rid
    ensures FoundPage(leaves, pages, key, rid) == n && FoundSlot(leaves[pages[n]].recs, key, rid) == slot
  {
    FoundSlotIs(leaves[pages[n]].recs, key, rid, slot);
    FoundPageIs(leaves, pages, key, rid, n);
  }

  /** A step of the cursor from slot of page p: to the next record of the key, there or on the first overflow page. */
  ghost predicate StepsTo(leaves: seq<Node>, p: int, slot: int, rest: seq<nat>, key: int,
                          found: bool, p': int, slot': int, rest': seq<nat>)
  {
    && 0 <= p < |leaves| && -1 <= slot
    && var recs := leaves[p].recs;
      var s := slot + 1;
      if s < |recs| && recs[s].key == key then found && p' == p && slot' == s && rest' == rest
      else if rest != [] && recs != [] && recs[0].key == key then found && p' == rest[0] && slot' == 0 && rest' == rest[1..]
      else !found
  }

  /** A step of the cursor: to the next slot, or to the next page, or to the end of what the leaf holds. */
  lemma AfterNext(leaves: seq<Node>, full: int, pages: seq<nat>, n: nat, slot: int, key: int, rid: Rid,
                  found: bool, blk: int, slot': int, rest: seq<nat>) returns (n': nat)
    requires OnPage(leaves, full, pages, n, slot, key) && Passed(leaves, pages, n, slot + 1, key, rid)
    requires StepsTo(leaves, pages[n], slot, pages[n + 1..], key, found, blk, slot', rest)
    ensures found ==> n' < |pages| && blk == pages[n'] && rest == pages[n' + 1..] && slot' >= 0
    ensures found ==> OnPage(leaves, full, pages, n', slot', key) && Passed(leaves, pages, n', slot', key, rid)
    ensures found ==> leaves[pages[n']].recs[slot'].key == key
    ensures !found ==> FoundPage(leaves, pages, key, rid) == |pages|
  {
    var recs := leaves[pages[n]].recs;
    n' := n;
    if slot + 1 < |recs| && recs[slot + 1].key == key {
      AheadHere(leaves, full, pages[n], slot, pages[n + 1..], key);
    } else if pages[n + 1..] != [] && recs[0].key == key {
      n' := n + 1;
      assert pages[n + 1..][1..] == pages[n' + 1..];
      AheadOverflow(leaves, full, pages[n], slot, pages[n + 1..], key);
      PassedPage(leaves, full, pages, n, slot, key, rid);
    } else {
      PassedAll(leaves, full, pages, n, slot, key, rid);
    }
  }

  lemma PutAgrees(c: Cover, full: int, key: int, rid: Rid)
    requires Covered(c, full) && key >= MIN_KEY
    ensures forall m :: Agrees(c, full, m) ==>
              Agrees(Grown(c, full, EntryFor(key, rid)), full, m + multiset{(key, rid)})
  {
    forall m | Agrees(c, full, m)
      ensures Agrees(Grown(c, full, EntryFor(key, rid)), full, m + multiset{(key, rid)})
    {
      OnePut(c, full, m, key, rid);
    }
  }

  lemma DelAgrees(c: Cover, full: int, key: int, rid: Rid)
    requires Covered(c, full) && key >= MIN_KEY
    ensures Removable(c, full, key, rid) ==>
              forall m :: Agrees(c, full, m) ==> Agrees(Shrunk(c, full, key, rid), full, m - multiset{(key, rid)})
  {
    forall m | Removable(c, full, key, rid) && Agrees(c, full, m)
      ensures Agrees(Shrunk(c, full, key, rid), full, m - multiset{(key, rid)})
    {
      OneDel(c, full, m, key, rid);
    }
  }

  lemma SetTwice<T>(s: seq<T>, i: nat, x: T, y: T)
    requires i < |s|
    ensures s[i := x][i := y] == s[i := y]
  {
  }

  lemma SetInFront<T>(s: seq<T>, t: seq<T>, i: nat, y: T)
    requires i < |s|
    ensures (s + t)[i := y] == s[i := y] + t
  {
  }

  /** What the leaf file and the directory must become when the leaf at b takes e, piece by piece. */
  ghost predicate GrowsTo(c: Cover, c': Cover, b: int, full: int, e: Entry) {
    && 0 <= b < |c.leaves|
    && var p := c.leaves[b];
      var step := LeafInsert(p, e, full, |c.leaves|);
      && c'.leaves == After(c.leaves, b, step)
      && Ordered(p.recs) && |p.recs| < full && (p.flag >= 0 ==> p.recs != [])
      && (step.sep.None? ==> c'.seps == c.seps)
      && (step.sep.Some? ==>
            && step.sep.value >= MIN_KEY && Absent(c.seps, step.sep.value)
            && c'.seps == InsertAt(c.seps, Upto(c.seps, step.sep.value), DirEntry(step.sep.value, |c.leaves|)))
  }

  lemma GrownParts(c: Cover, full: int, e: Entry)
    requires Covered(c, full) && e.key >= MIN_KEY
    ensures Covered(Grown(c, full, e), full)
    ensures GrowsTo(c, Grown(c, full, e), c.seps[Home(c, full, e.key)].blk, full, e)
  {
    var i := Home(c, full, e.key);
    var sep := LeafInsert(c.leaves[c.seps[i].blk], e, full, |c.leaves|).sep;
    GrownStepped(c, full, e, i, sep);
    SteppedSeps(c, Grown(c, full, e), full, i, sep);
    GrownCovered(c, full, e);
  }

  /** The leaf b took e in, as LeafInsert says, and split is what goes to the directory. */
  ghost predicate TookIn(was: seq<Node>, b: nat, e: Entry, full: int, now: seq<Node>, split: Option<Entry>)
    requires b < |was|
  {
    var step := LeafInsert(was[b], e, full, |was|);
    && now == After(was, b, step)
    && split == (if step.sep.Some? then Some(DirEntry(step.sep.value, |was|)) else None)
  }

  lemma InFrontStep(leaves: seq<Node>, b: nat, e: Entry, full: int)
    requires b < |leaves| && leaves[b].flag >= 0 && leaves[b].recs != [] && leaves[b].recs[0].key > e.key
    ensures TookIn(leaves, b, e, full, leaves[b := Node(-1, [e])] + [leaves[b]],
                   Some(DirEntry(leaves[b].recs[0].key, |leaves|)))
  {
  }

  lemma RoomStep(leaves: seq<Node>, b: nat, e: Entry, full: int)
    requires b < |leaves| && (leaves[b].flag >= 0 ==> leaves[b].recs != [] && leaves[b].recs[0].key <= e.key)
    requires |leaves[b].recs| + 1 < full
    ensures
      var r := InsertAt(leaves[b].recs, Pos(leaves[b].recs, e.key), e);
      TookIn(leaves, b, e, full, leaves[b := Node(leaves[b].flag, r)], None)
  {
  }

  /** The full leaf b was split: by its first record if all keys are one, else between two keys. */
  ghost predicate SplitOff(was: seq<Node>, b: nat, now: seq<Node>, split: Option<Entry>)
    requires b < |was| && |was[b].recs| >= 2
  {
    var p, n := was[b], |was|;
    if p.recs[0].key == p.recs[|p.recs| - 1].key then
      split == None && now == was[b := Node(n, p.recs[..1])] + [Node(p.flag, p.recs[1..])]
    else
      var s := SplitPos(p.recs);
      && 0 < s < |p.recs| && split == Some(DirEntry(p.recs[s].key, n))
      && now == was[b := Node(p.flag, p.recs[..s])] + [Node(-1, p.recs[s..])]
  }

  lemma FullStep(leaves: seq<Node>, b: nat, e: Entry, full: int, r: seq<Entry>, now: seq<Node>, split: Option<Entry>)
    requires b < |leaves| && full >= 3 && r == InsertAt(leaves[b].recs, Pos(leaves[b].recs, e.key), e) && |r| >= full
    requires leaves[b].flag >= 0 ==> leaves[b].recs != [] && leaves[b].recs[0].key <= e.key
    requires SplitOff(leaves[b := Node(leaves[b].flag, r)], b, now, split)
    ensures TookIn(leaves, b, e, full, now, split)
  {
    SetTwice(leaves, b, Node(leaves[b].flag, r), LeafInsert(leaves[b], e, full, |leaves|).page);
  }

  // ---------- the index ----------

  class BtreeIndex {
    const slotSize: int
    const blockSize: int
    const full: int
    const dir: Directory
    var leaves: seq<Node>
    var curBlk: int
    var curSlot: int
    var searchKey: int
    ghost var chains: seq<seq<nat>>
    ghost var owner: seq<int>
    ghost var rest: seq<nat>

    ghost function Abs(): Cover
      reads this, dir
    {
      Cover(dir.Leaves(), leaves, chains, owner)
    }

    /** No leaf or overflow page goes past its block. */
    ghost predicate AllFit()
      reads this
    {
      && Usable(slotSize, blockSize) && full == FullAt(slotSize, blockSize)
      && forall b :: 0 <= b < |leaves| ==> FitsBlock(|leaves[b].recs|, slotSize, blockSize)
    }

    ghost predicate Valid()
      reads this, dir
    {
      dir.Valid() && AllFit() && Covered(Abs(), full)
    }

    /** The record ids stored under key. */
    ghost function Stored(key: int): seq<Rid>
      requires Valid() && key >= MIN_KEY
      reads this, dir
    {
      Lookup(Abs(), full, key)
    }

    ghost predicate Open()
      reads this
    {
      curBlk >= 0 && CursorOk(leaves, full, curBlk, curSlot, rest, searchKey)
    }

    ghost function Remaining(): seq<Rid>
      requires Open()
      reads this
    {
      Ahead(leaves, curBlk, curSlot, rest, searchKey)
    }

    /** An empty index: one empty leaf. */
    constructor (slotSize: int, dirSlotSize: int, blockSize: int)
      requires Usable(slotSize, blockSize) && Usable(dirSlotSize, blockSize)
      ensures Valid() && fresh(dir) && Agrees(Abs(), full, multiset{})
      ensures this.slotSize == slotSize && this.blockSize == blockSize
    {
      this.slotSize, this.blockSize, full := slotSize, blockSize, FullAt(slotSize, blockSize);
      dir := new Directory(dirSlotSize, blockSize);
      leaves := [Node(-1, [])];
      chains := [[]];
      owner := [MIN_KEY];
      curBlk, curSlot, searchKey, rest := -1, -1, MIN_KEY, [];
      new;
      FullAtIsLeast(0, slotSize, blockSize);
      ghost var c := Abs();
      assert LeafIn(c.leaves, c.owner, full, c.seps[0], None, []);
      assert LeafAt(c, full, 0);
      forall key: int | key >= MIN_KEY
        ensures Lookup(c, full, key) == []
      {
        assert Home(c, full, key) == 0;
      }
    }

    /** before_first: go to the leaf of key, in front of its first record of key. */
    method BeforeFirst(key: int)
      requires Valid() && key >= MIN_KEY
      modifies this`curBlk, this`curSlot, this`searchKey, this`rest
      ensures Valid() && Open() && searchKey == key && Remaining() == Stored(key)
      ensures
        var i := Home(Abs(), full, key);
        curBlk == Abs().seps[i].blk && rest == chains[i] && curSlot == Pos(leaves[curBlk].recs, key) - 1
    {
      ghost var i := Home(Abs(), full, key);
      curBlk := dir.Search(key);
      curSlot := SlotBefore(leaves[curBlk], slotSize, blockSize, key);
      searchKey, rest := key, chains[i];
      CursorStart(leaves, curBlk, rest, Abs().seps[i].key, Hi(Abs().seps, i), full, key);
    }

    /** try_overflow: from the end of a page to its overflow page, if it can hold the key. */
    method TryOverflow(ghost slot: int) returns (found: bool)
      requires curBlk >= 0 && CursorOk(leaves, full, curBlk, slot, rest, searchKey) && curSlot == slot + 1
      requires slot + 1 < |leaves[curBlk].recs| ==> leaves[curBlk].recs[slot + 1].key != searchKey
      modifies this`curBlk, this`curSlot, this`rest
      ensures found == (Ahead(leaves, old(curBlk), slot, old(rest), searchKey) != [])
      ensures found == (old(rest) != [] && leaves[old(curBlk)].recs[0].key == searchKey)
      ensures found ==> Open() && curBlk == old(rest)[0] && curSlot == 0 && rest == old(rest)[1..]
      ensures found ==>
                [RidOf(leaves[curBlk].recs[0])] + Remaining() == Ahead(leaves, old(curBlk), slot, old(rest), searchKey)
    {
      var p := leaves[curBlk];
      if p.flag < 0 || p.recs[0].key != searchKey {
        AheadNone(leaves, full, curBlk, slot, rest, searchKey);
        return false;
      }
      AheadOverflow(leaves, full, curBlk, slot, rest, searchKey);
      curBlk, curSlot, rest := p.flag, 0, rest[1..];
      return true;
    }

    /** next: step to the next record of the search key. */
    method Next() returns (found: bool)
      requires Open()
      modifies this`curBlk, this`curSlot, this`rest
      ensures found == (old(Remaining()) != [])
      ensures found ==>
                Open() && curSlot >= 0 && [RidOf(leaves[curBlk].recs[curSlot])] + Remaining() == old(Remaining())
      ensures StepsTo(leaves, old(curBlk), old(curSlot), old(rest), searchKey, found, curBlk, curSlot, rest)
    {
      ghost var slot := curSlot;
      curSlot := curSlot + 1;
      if curSlot < |leaves[curBlk].recs| && leaves[curBlk].recs[curSlot].key == searchKey {
        AheadHere(leaves, full, curBlk, slot, rest, searchKey);
        found := true;
      } else {
        found := TryOverflow(slot);
      }
    }

    method GetDataRid() returns (rid: Rid)
      requires Open() && curSlot >= 0
      ensures rid == RidOf(leaves[curBlk].recs[curSlot])
    {
      var e := leaves[curBlk].recs[curSlot];
      rid := Rid(e.blk, e.id);
    }

    method ReadRest() returns (rids: seq<Rid>)
      requires Open()
      modifies this`curBlk, this`curSlot, this`rest
      ensures rids == old(Remaining())
    {
      ghost var all := Remaining();
      rids := [];
      var found := Next();
      while found
        invariant found ==> Open() && curSlot >= 0
        invariant all == rids + if found then [RidOf(leaves[curBlk].recs[curSlot])] + Remaining() else []
        decreases found, if found then |Remaining()| else 0
      {
        var rid := GetDataRid();
        ghost var ahead := Remaining();
        assert rids + ([rid] + ahead) == (rids + [rid]) + ahead;
        rids := rids + [rid];
        found := Next();
      }
    }

    /** A search reads off exactly the record ids stored under its key. */
    method ReadAll(key: int) returns (rids: seq<Rid>)
      requires Valid() && key >= MIN_KEY
      modifies this`curBlk, this`curSlot, this`searchKey, this`rest
      ensures Abs() == old(Abs()) && rids == old(Stored(key))
    {
      BeforeFirst(key);
      rids := ReadRest();
    }

    // ---------- changing the index ----------

    /** Every change of a leaf page goes through here; also that of a page that is full and about to be split. */
    method WriteLeaf(blk: nat, node: Node)
      requires AllFit() && blk < |leaves| && FitsBlock(|node.recs|, slotSize, blockSize)
      modifies this`leaves
      ensures AllFit() && leaves == old(leaves)[blk := node]
    {
      leaves := leaves[blk := node];
    }

    method AppendLeaf(node: Node)
      requires AllFit() && FitsBlock(|node.recs|, slotSize, blockSize)
      modifies this`leaves
      ensures AllFit() && leaves == old(leaves) + [node]
    {
      leaves := leaves + [node];
    }

    /** btree_page::split on the current leaf page */
    method SplitCurrent(splitPos: nat, newFlag: int) returns (newBlk: nat)
      requires AllFit() && 0 <= curBlk < |leaves| && splitPos <= |leaves[curBlk].recs| <= full
      modifies this`leaves
      ensures AllFit()
      ensures newBlk == |old(leaves)|
      ensures
        var p := old(leaves)[curBlk];
        leaves == old(leaves)[curBlk := Node(p.flag, p.recs[..splitPos])] + [Node(newFlag, p.recs[splitPos..])]
    {
      newBlk := |leaves|;
      var kept, added := SplitPage(leaves[curBlk], slotSize, blockSize, splitPos, newFlag);
      WriteLeaf(curBlk, kept);
      AppendLeaf(added);
    }

    /** The position to cut a full page at: never inside a group of equal keys. */
    method FindSplit(recs: seq<Entry>) returns (splitPos: nat)
      requires |recs| >= 2 && Ordered(recs) && recs[0].key != recs[|recs| - 1].key
      ensures splitPos == SplitPos(recs) && 0 < splitPos < |recs|
    {
      SplitPosOk(recs);
      splitPos := |recs| / 2;
      ghost var mid := splitPos;
      var splitKey := recs[splitPos].key;
      if splitKey == recs[0].key {
        while recs[splitPos].key == splitKey
          invariant mid <= splitPos < |recs| && NextGroup(recs, splitPos, splitKey) == NextGroup(recs, mid, splitKey)
          decreases |recs| - splitPos
        {
          splitPos := splitPos + 1;
        }
      } else {
        while recs[splitPos - 1].key == splitKey
          invariant 0 < splitPos <= mid && GroupStart(recs, splitPos, splitKey) == GroupStart(recs, mid, splitKey)
          decreases splitPos
        {
          splitPos := splitPos - 1;
        }
      }
    }

    /** The current page is full: split off an overflow page or a leaf. */
    method SplitLeaf() returns (split: Option<Entry>)
      requires AllFit() && 0 <= curBlk < |leaves| && Ordered(leaves[curBlk].recs) && 2 <= |leaves[curBlk].recs| <= full
      modifies this`leaves
      ensures AllFit()
      ensures SplitOff(old(leaves), curBlk, leaves, split)
    {
      var p := leaves[curBlk];
      var firstKey, lastKey := p.recs[0].key, p.recs[|p.recs| - 1].key;
      if lastKey == firstKey {
        var blk := SplitCurrent(1, p.flag);
        SetInFront(old(leaves)[curBlk := Node(p.flag, p.recs[..1])], [Node(p.flag, p.recs[1..])], curBlk, Node(blk, p.recs[..1]));
        SetTwice(old(leaves), curBlk, Node(p.flag, p.recs[..1]), Node(blk, p.recs[..1]));
        WriteLeaf(curBlk, Node(blk, leaves[curBlk].recs));
        return None;
      }
      var splitPos := FindSplit(p.recs);
      var blk := SplitCurrent(splitPos, -1);
      return Some(DirEntry(p.recs[splitPos].key, blk));
    }

    /** The record goes in front of a leaf with overflow pages: that leaf moves to a new block. */
    method InsertInFrontOf(e: Entry) returns (split: Option<Entry>)
      requires AllFit() && 0 <= curBlk < |leaves| && 0 < |leaves[curBlk].recs| < full
      modifies this`leaves, this`curSlot
      ensures AllFit()
      ensures leaves == old(leaves)[curBlk := Node(-1, [e])] + [old(leaves)[curBlk]]
      ensures split == Some(DirEntry(old(leaves)[curBlk].recs[0].key, |old(leaves)|))
    {
      var p := leaves[curBlk];
      var firstVal := p.recs[0].key;
      var blk := SplitCurrent(0, p.flag);
      curSlot := 0;
      SetInFront(old(leaves)[curBlk := Node(p.flag, p.recs[..0])], [Node(p.flag, p.recs[0..])], curBlk, Node(-1, [e]));
      SetTwice(old(leaves), curBlk, Node(p.flag, p.recs[..0]), Node(-1, [e]));
      assert p.recs[0..] == p.recs && InsertAt<Entry>([], 0, e) == [e];
      var page, _ := InsertInPage(Node(-1, leaves[curBlk].recs), slotSize, blockSize, curSlot, e);
      WriteLeaf(curBlk, page);
      return Some(DirEntry(firstVal, blk));
    }

    /** The current page takes the record; it may be full then. */
    method PutRecord(slot: nat, e: Entry) returns (isFull: bool)
      requires AllFit() && 0 <= curBlk < |leaves| && slot <= |leaves[curBlk].recs| < full
      modifies this`leaves
      ensures AllFit()
      ensures leaves ==
              old(leaves)[curBlk := Node(old(leaves)[curBlk].flag, InsertAt(old(leaves)[curBlk].recs, slot, e))]
      ensures isFull == (|leaves[curBlk].recs| >= full)
    {
      var page;
      page, isFull := InsertInPage(leaves[curBlk], slotSize, blockSize, slot, e);
      WriteLeaf(curBlk, page);
    }

    /** btree_leaf::insert on the current leaf page */
    method InsertLeaf(e: Entry) returns (split: Option<Entry>)
      requires AllFit() && 0 <= curBlk < |leaves| && curSlot == Pos(leaves[curBlk].recs, e.key) - 1
      requires Ordered(leaves[curBlk].recs) && |leaves[curBlk].recs| < full
      requires (leaves[curBlk].flag >= 0 ==> leaves[curBlk].recs != [])
      modifies this`leaves, this`curSlot
      ensures AllFit()
      ensures TookIn(old(leaves), curBlk, e, full, leaves, split)
    {
      if leaves[curBlk].flag >= 0 && leaves[curBlk].recs[0].key > e.key {
        InFrontStep(leaves, curBlk, e, full);
        split := InsertInFrontOf(e);
        return;
      }
      ghost var p := leaves[curBlk];
      curSlot := curSlot + 1;
      var isFull := PutRecord(curSlot, e);
      if !isFull {
        RoomStep(old(leaves), curBlk, e, full);
        return None;
      }
      InsertOrdered(p.recs, e);
      ghost var r := leaves[curBlk].recs;
      split := SplitLeaf();
      FullStep(old(leaves), curBlk, e, full, r, leaves, split);
    }

    /** Insertion adds the pair to the multimap, and nothing else. */
    method Insert(key: int, rid: Rid)
      requires Valid() && key >= MIN_KEY
      modifies this, dir
      ensures Valid() && Abs() == Grown(old(Abs()), full, EntryFor(key, rid))
      ensures forall m :: Agrees(old(Abs()), full, m) ==> Agrees(Abs(), full, m + multiset{(key, rid)})
    {
      PutAgrees(Abs(), full, key, rid);
      InsertEntry(key, rid);
    }

    /** The leaf takes the record, and the directory the separator of a new leaf. */
    method TakeRecord(e: Entry, ghost c: Cover, ghost c': Cover)
      requires dir.Valid() && AllFit() && leaves == c.leaves && dir.Leaves() == c.seps
      requires GrowsTo(c, c', curBlk, full, e) && curSlot == Pos(leaves[curBlk].recs, e.key) - 1
      modifies this`leaves, this`curSlot, dir
      ensures dir.Valid() && AllFit() && leaves == c'.leaves && dir.Leaves() == c'.seps
    {
      var split := InsertLeaf(e);
      if split.Some? {
        dir.Insert(split.value);
      }
    }

    method InsertEntry(key: int, rid: Rid)
      requires Valid() && key >= MIN_KEY
      modifies this, dir
      ensures Valid() && Abs() == Grown(old(Abs()), full, EntryFor(key, rid))
    {
      ghost var c, c' := FindLeaf(EntryFor(key, rid));
      TakeRecord(EntryFor(key, rid), c, c');
      Close(c');
    }

    /** Go to the leaf of e. c is the index now, c' with e in it. */
    method FindLeaf(e: Entry) returns (ghost c: Cover, ghost c': Cover)
      requires Valid() && e.key >= MIN_KEY
      modifies this`curBlk, this`curSlot, this`searchKey, this`rest
      ensures dir.Valid() && AllFit() && c == Abs() == old(Abs())
      ensures c' == Grown(old(Abs()), full, e) && Covered(c', full)
      ensures GrowsTo(c, c', curBlk, full, e) && curSlot == Pos(leaves[curBlk].recs, e.key) - 1
    {
      BeforeFirst(e.key);
      c, c' := Abs(), Grown(Abs(), full, e);
      GrownParts(c, full, e);
    }

    /** The cursor is closed; leaves and directory are those of c. */
    method Close(ghost c: Cover)
      requires dir.Valid() && AllFit() && leaves == c.leaves && dir.Leaves() == c.seps && Covered(c, full)
      modifies this`chains, this`owner, this`curBlk
      ensures Valid() && Abs() == c
    {
      chains, owner, curBlk := c.chains, c.owner, -1;
      assert Abs() == c;
    }

    /** On a record of the search key, on page n of a leaf, with no match so far. */
    ghost predicate At(pages: seq<nat>, n: int, rid: Rid)
      reads this
    {
      && 0 <= n < |pages| && Open() && curBlk == pages[n] && rest == pages[n + 1..] && curSlot >= 0
      && Passed(leaves, pages, n, curSlot, searchKey, rid) && leaves[curBlk].recs[curSlot].key == searchKey
    }

    method NextOn(ghost pages: seq<nat>, ghost n: nat, rid: Rid) returns (found: bool, ghost n': nat)
      requires Open() && n < |pages| && curBlk == pages[n] && rest == pages[n + 1..]
      requires Passed(leaves, pages, n, curSlot + 1, searchKey, rid)
      modifies this`curBlk, this`curSlot, this`rest
      ensures found ==> At(pages, n', rid) && |Remaining()| < |old(Remaining())|
      ensures !found ==> FoundPage(leaves, pages, searchKey, rid) == |pages|
    {
      ghost var slot := curSlot;
      found := Next();
      n' := AfterNext(leaves, full, pages, n, slot, searchKey, rid, found, curBlk, curSlot, rest);
    }

    /** From the first page of a leaf on, step to the first record with this record id. */
    method ScanFor(rid: Rid, ghost pages: seq<nat>) returns (found: bool)
      requires Open() && pages != [] && curBlk == pages[0] && rest == pages[1..]
      requires curSlot == Pos(leaves[curBlk].recs, searchKey) - 1
      modifies this`curBlk, this`curSlot, this`rest
      ensures
        var n := FoundPage(leaves, pages, searchKey, rid);
        && found == (n < |pages|)
        && (found ==> curBlk == pages[n] && curSlot == FoundSlot(leaves[curBlk].recs, searchKey, rid))
    {
      ghost var n := 0;
      PassedNone(leaves, pages, searchKey, rid);
      found, n := NextOn(pages, n, rid);
      while found
        invariant found ==> At(pages, n, rid)
        invariant !found ==> FoundPage(leaves, pages, searchKey, rid) == |pages|
        decreases found, if found then |Remaining()| else 0
      {
        var r := GetDataRid();
        if r == rid {
          FoundHere(leaves, pages, n, curSlot, searchKey, rid);
          return;
        }
        PassedSlot(leaves, pages, n, curSlot, searchKey, rid);
        found, n := NextOn(pages, n, rid);
      }
    }

    /** Step to the first record with this key and record id. */
    method FindRecord(key: int, rid: Rid) returns (found: bool)
      requires Valid() && key >= MIN_KEY
      modifies this`curBlk, this`curSlot, this`searchKey, this`rest
      ensures
        var i := Home(old(Abs()), full, key);
        var pages := [old(Abs()).seps[i].blk as nat] + chains[i];
        var n := FoundPage(leaves, pages, key, rid);
        && found == (n < |pages|)
        && (found ==> curBlk == pages[n] && curSlot == FoundSlot(leaves[curBlk].recs, key, rid))
    {
      BeforeFirst(key);
      ghost var pages := [curBlk as nat] + rest;
      assert pages[1..] == rest;
      found := ScanFor(rid, pages);
    }

    /**
     Deletion removes the first match the cursor meets. The index stays in order exactly when
     that is harmless to the overflow chain, and then the multimap loses just this pair.
     */
    method DeleteRecord(key: int, rid: Rid)
      requires Valid() && key >= MIN_KEY
      modifies this
      ensures Abs() == Shrunk(old(Abs()), full, key, rid)
      ensures Valid() <==> Removable(old(Abs()), full, key, rid)
      ensures Removable(old(Abs()), full, key, rid) ==>
                forall m :: Agrees(old(Abs()), full, m) ==> Agrees(Abs(), full, m - multiset{(key, rid)})
    {
      ShrunkCovered(Abs(), full, key, rid);
      DelAgrees(Abs(), full, key, rid);
      RemoveFirst(key, rid);
    }

    /** The first match goes from its page, if there is one. */
    method RemoveFirst(key: int, rid: Rid)
      requires Valid() && key >= MIN_KEY
      modifies this
      ensures Abs() == Shrunk(old(Abs()), full, key, rid) && dir.Valid() && AllFit()
    {
      ghost var c := Abs();
      var found := FindRecord(key, rid);
      if found {
        RemoveCurrent();
      }
      curBlk := -1;
      assert Abs() == Shrunk(c, full, key, rid);
    }

    method RemoveCurrent()
      requires AllFit() && 0 <= curBlk < |leaves| && 0 <= curSlot < |leaves[curBlk].recs|
      modifies this`leaves
      ensures AllFit()
      ensures
        var p := old(leaves)[curBlk];
        leaves == old(leaves)[curBlk := Node(p.flag, RemoveAt(p.recs, curSlot))]
    {
      var page := DeleteFromPage(leaves[curBlk], slotSize, blockSize, curSlot);
      WriteLeaf(curBlk, page);
    }
  }

  /** Any run of insertions and harmless deletions, and then a lookup: the index is the multimap. */
  method RunAndRead(idx: BtreeIndex, ops: seq<Op>, key: int, ghost m: multiset<(int, Rid)>) returns (rids: seq<Rid>)
    requires idx.Valid() && Agrees(idx.Abs(), idx.full, m) && Runs(idx.Abs(), idx.full, ops) && key >= MIN_KEY
    modifies idx, idx.dir
    ensures idx.Valid() && Agrees(idx.Abs(), idx.full, MapEnd(m, ops))
    ensures forall rid :: multiset(rids)[rid] == MapEnd(m, ops)[(key, rid)]
  {
    RunAgrees(idx.Abs(), idx.full, m, ops);
    ApplyAll(idx, ops);
    rids := idx.ReadAll(key);
  }

  method ApplyAll(idx: BtreeIndex, ops: seq<Op>)
    requires idx.Valid() && Runs(idx.Abs(), idx.full, ops)
    modifies idx, idx.dir
    ensures idx.Valid() && idx.Abs() == RunEnd(old(idx.Abs()), idx.full, ops)
  {
    ghost var c := idx.Abs();
    var k := 0;
    while k < |ops|
      invariant 0 <= k <= |ops| && idx.Valid() && Runs(idx.Abs(), idx.full, ops[k..])
      invariant RunEnd(idx.Abs(), idx.full, ops[k..]) == RunEnd(c, idx.full, ops)
    {
      assert ops[k..][0] == ops[k] && ops[k..][1..] == ops[k + 1..];
      ApplyOne(idx, ops[k]);
      k := k + 1;
    }
  }

  method ApplyOne(idx: BtreeIndex, op: Op)
    requires idx.Valid() && Allowed(idx.Abs(), idx.full, op)
    modifies idx, idx.dir
    ensures idx.Valid() && idx.Abs() == Do(old(idx.Abs()), idx.full, op)
  {
    match op
    case Put(key, rid) => idx.Insert(key, rid);
    case Del(key, rid) => idx.DeleteRecord(key, rid);
  }
}
