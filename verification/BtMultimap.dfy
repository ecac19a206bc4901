/**
 The B-tree's leaves as a multimap: deletion at the level of all leaves, and what any sequence
 of insertions and deletions leaves to be found.
 */
module BtMultimap {
  import opened DbTypes
  import opened BtPages
  import opened BtDirs
  import opened BtLeaves
  import opened BtLeafDelete
  import opened BtLeafSearch
  import opened BtCovers

  // ---------- deleting ----------

  ghost function Shrunk(c: Cover, full: int, key: int, rid: Rid): Cover
    requires Covered(c, full) && key >= MIN_KEY
  {
    var i := Home(c, full, key);
    c.(leaves := Deleted(c.leaves, c.seps[i].blk, c.chains[i], key, rid))
  }

  ghost predicate Removable(c: Cover, full: int, key: int, rid: Rid)
    requires Covered(c, full) && key >= MIN_KEY
  {
    var i := Home(c, full, key);
    Deletable(c.leaves, c.seps[i].blk, c.chains[i], key, rid)
  }

  lemma ShrunkOnlyLeaf(c: Cover, full: int, key: int, rid: Rid)
    requires Covered(c, full) && key >= MIN_KEY
    ensures OnlyLeaf(c, Shrunk(c, full, key, rid).leaves, c.owner, Home(c, full, key))
  {
    var i := Home(c, full, key);
    var pages := [c.seps[i].blk] + c.chains[i];
    assert Mine(c.owner, c.seps[i].blk, c.chains[i], c.seps[i].key);
    forall k | 0 <= k < |pages|
      ensures pages[k] < |c.owner| && c.owner[pages[k]] == c.seps[i].key
    {
      assert k > 0 ==> pages[k] == c.chains[i][k - 1];
    }
  }

  /** The file of leaves stays in order exactly when the home leaf does. */
  lemma ShrunkCovered(c: Cover, full: int, key: int, rid: Rid)
    requires Covered(c, full) && key >= MIN_KEY
    ensures Covered(Shrunk(c, full, key, rid), full) <==> Removable(c, full, key, rid)
  {
    var i, c' := Home(c, full, key), Shrunk(c, full, key, rid);
    ShrunkOnlyLeaf(c, full, key, rid);
    DeletedOk(c.leaves, c.seps[i].blk, c.chains[i], c.seps[i].key, Hi(c.seps, i), full, key, rid);
    if Removable(c, full, key, rid) {
      forall k: nat | k < |c'.seps|
        ensures LeafAt(c', full, k)
      {
        if k != i {
          OtherLeaf(c, full, c'.leaves, c'.owner, i, k);
        }
      }
    } else {
      assert !LeafAt(c', full, i);
    }
  }

  /** After a harmless deletion, lookups differ by the record deleted and nothing else. */
  lemma ShrunkLookup(c: Cover, full: int, key: int, rid: Rid, key': int)
    requires Covered(c, full) && key >= MIN_KEY && key' >= MIN_KEY && Removable(c, full, key, rid)
    ensures Covered(Shrunk(c, full, key, rid), full)
    ensures OneLess(Lookup(Shrunk(c, full, key, rid), full, key'), Lookup(c, full, key'), key, rid, key')
  {
    var i, j, c' := Home(c, full, key), Home(c, full, key'), Shrunk(c, full, key, rid);
    ShrunkCovered(c, full, key, rid);
    HomeIs(c', full, key', j);
    if j == i {
      DeletedFound(c.leaves, c.seps[i].blk, c.chains[i], c.seps[i].key, Hi(c.seps, i), full, key, rid, key');
    } else {
      ShrunkOnlyLeaf(c, full, key, rid);
      OtherLeaf(c, full, c'.leaves, c'.owner, i, j);
    }
  }

  // ---------- what searches show after any deletion ----------

  /** What the cursor shows for key' once the record is deleted, in order or not: the directory has not changed. */
  ghost function SearchAfter(c: Cover, full: int, key: int, rid: Rid, key': int): seq<Rid>
    requires Covered(c, full) && key >= MIN_KEY && key' >= MIN_KEY
  {
    var j := Home(c, full, key');
    ShrunkSize(c, full, key, rid, j);
    Search(Shrunk(c, full, key, rid).leaves, c.seps[j].blk, c.chains[j], Gone(key, rid), key')
  }

  lemma ShrunkSize(c: Cover, full: int, key: int, rid: Rid, j: nat)
    requires Covered(c, full) && key >= MIN_KEY && j < |c.seps|
    ensures |Shrunk(c, full, key, rid).leaves| == |c.leaves| && LeafAt(c, full, j) && 0 <= c.seps[j].blk < |c.leaves|
  {
    var i := Home(c, full, key);
    assert LeafAt(c, full, i) && LeafAt(c, full, j);
    DeletedFound(c.leaves, c.seps[i].blk, c.chains[i], c.seps[i].key, Hi(c.seps, i), full, key, rid, key);
  }

  ghost predicate KeptAfter(c: Cover, full: int, key: int, rid: Rid)
    requires Covered(c, full) && key >= MIN_KEY
  {
    var i := Home(c, full, key);
    SearchesKept(c.leaves, c.seps[i].blk, c.chains[i], key, rid)
  }

  /** Searches in other leaves are as before. */
  lemma SearchElsewhere(c: Cover, full: int, key: int, rid: Rid, key': int)
    requires Covered(c, full) && key >= MIN_KEY && key' >= MIN_KEY && Home(c, full, key') != Home(c, full, key)
    ensures SearchAfter(c, full, key, rid, key') == Lookup(c, full, key')
  {
    var i, j, c' := Home(c, full, key), Home(c, full, key'), Shrunk(c, full, key, rid);
    ShrunkOnlyLeaf(c, full, key, rid);
    ShrunkSize(c, full, key, rid, j);
    OtherLeaf(c, full, c'.leaves, c'.owner, i, j);
    SearchIs(c'.leaves, c.seps[j].blk, c.chains[j], c.seps[j].key, Hi(c.seps, j), full, Gone(key, rid), key');
  }

  /**
   After a deletion every search finds one record id less under the key deleted and the same under
   every other key if and only if nothing has got out of order or the leaf's own page has become empty.
   */
  lemma SearchesRight(c: Cover, full: int, key: int, rid: Rid)
    requires Covered(c, full) && key >= MIN_KEY
    ensures (forall key' :: key' >= MIN_KEY ==>
               OneLess(SearchAfter(c, full, key, rid, key'), Lookup(c, full, key'), key, rid, key')) <==>
            KeptAfter(c, full, key, rid)
  {
    var i := Home(c, full, key);
    ShrunkSize(c, full, key, rid, i);
    if KeptAfter(c, full, key, rid) {
      forall key' | key' >= MIN_KEY
        ensures OneLess(SearchAfter(c, full, key, rid, key'), Lookup(c, full, key'), key, rid, key')
      {
        if Home(c, full, key') == i {
          KeptSearch(c.leaves, c.seps[i].blk, c.chains[i], c.seps[i].key, Hi(c.seps, i), full, key, rid, key');
        } else {
          SearchElsewhere(c, full, key, rid, key');
        }
      }
    } else {
      LostSearch(c.leaves, c.seps[i].blk, c.chains[i], c.seps[i].key, Hi(c.seps, i), full, key, rid);
      assert !OneLess(SearchAfter(c, full, key, rid, key), Lookup(c, full, key), key, rid, key);
    }
  }

  // ---------- runs ----------

  datatype Op = Put(key: int, rid: Rid) | Del(key: int, rid: Rid)

  /** The index shows every pair as often as the multimap m holds it. */
  ghost predicate Agrees(c: Cover, full: int, m: multiset<(int, Rid)>) {
    && Covered(c, full)
    && forall key, rid :: key >= MIN_KEY ==> multiset(Lookup(c, full, key))[rid] == m[(key, rid)]
  }

  function OnMap(m: multiset<(int, Rid)>, op: Op): multiset<(int, Rid)> {
    match op
    case Put(key, rid) => m + multiset{(key, rid)}
    case Del(key, rid) => m - multiset{(key, rid)}
  }

  ghost predicate Allowed(c: Cover, full: int, op: Op)
    requires Covered(c, full)
  {
    op.key >= MIN_KEY && (op.Del? ==> Removable(c, full, op.key, op.rid))
  }

  ghost function Do(c: Cover, full: int, op: Op): Cover
    requires Covered(c, full) && op.key >= MIN_KEY
  {
    match op
    case Put(key, rid) => Grown(c, full, Entry(key, rid.blk, rid.slot))
    case Del(key, rid) => Shrunk(c, full, key, rid)
  }

  /** Every step of the run from c is an insertion or a harmless deletion. */
  ghost predicate Runs(c: Cover, full: int, ops: seq<Op>)
    decreases |ops|
  {
    ops == [] || (Covered(c, full) && Allowed(c, full, ops[0]) && Runs(Do(c, full, ops[0]), full, ops[1..]))
  }

  ghost function RunEnd(c: Cover, full: int, ops: seq<Op>): Cover
    requires Runs(c, full, ops)
    decreases |ops|
  {
    if ops == [] then c else RunEnd(Do(c, full, ops[0]), full, ops[1..])
  }

  function MapEnd(m: multiset<(int, Rid)>, ops: seq<Op>): multiset<(int, Rid)>
    decreases |ops|
  {
    if ops == [] then m else MapEnd(OnMap(m, ops[0]), ops[1..])
  }

  lemma OnePut(c: Cover, full: int, m: multiset<(int, Rid)>, key: int, rid: Rid)
    requires Agrees(c, full, m) && key >= MIN_KEY
    ensures Agrees(Grown(c, full, Entry(key, rid.blk, rid.slot)), full, m + multiset{(key, rid)})
  {
    var e := Entry(key, rid.blk, rid.slot);
    var c' := Grown(c, full, e);
    GrownCovered(c, full, e);
    forall key': int, rid': Rid | key' >= MIN_KEY
      ensures multiset(Lookup(c', full, key'))[rid'] == (m + multiset{(key, rid)})[(key', rid')]
    {
      GrownLookup(c, full, e, key');
      assert multiset(Lookup(c, full, key'))[rid'] == m[(key', rid')];
    }
  }

  lemma OneDel(c: Cover, full: int, m: multiset<(int, Rid)>, key: int, rid: Rid)
    requires Agrees(c, full, m) && key >= MIN_KEY && Removable(c, full, key, rid)
    ensures Agrees(Shrunk(c, full, key, rid), full, m - multiset{(key, rid)})
  {
    var c' := Shrunk(c, full, key, rid);
    ShrunkCovered(c, full, key, rid);
    forall key': int, rid': Rid | key' >= MIN_KEY
      ensures multiset(Lookup(c', full, key'))[rid'] == (m - multiset{(key, rid)})[(key', rid')]
    {
      OneDelAt(c, full, m, key, rid, key', rid');
    }
  }

  lemma OneDelAt(c: Cover, full: int, m: multiset<(int, Rid)>, key: int, rid: Rid, key': int, rid': Rid)
    requires Agrees(c, full, m) && key >= MIN_KEY && key' >= MIN_KEY && Removable(c, full, key, rid)
    ensures Covered(Shrunk(c, full, key, rid), full)
    ensures multiset(Lookup(Shrunk(c, full, key, rid), full, key'))[rid'] == (m - multiset{(key, rid)})[(key', rid')]
  {
    ShrunkLookup(c, full, key, rid, key');
    OneLessCounts(Lookup(Shrunk(c, full, key, rid), full, key'), Lookup(c, full, key'), m, key, rid, key', rid');
  }

  lemma OneLessCounts(found: seq<Rid>, before: seq<Rid>, m: multiset<(int, Rid)>, key: int, rid: Rid, key': int, rid': Rid)
    requires OneLess(found, before, key, rid, key') && multiset(before)[rid'] == m[(key', rid')]
    ensures multiset(found)[rid'] == (m - multiset{(key, rid)})[(key', rid')]
  {
  }

  lemma OneOp(c: Cover, full: int, m: multiset<(int, Rid)>, op: Op)
    requires Agrees(c, full, m) && Allowed(c, full, op)
    ensures Agrees(Do(c, full, op), full, OnMap(m, op))
  {
    match op
    case Put(key, rid) => OnePut(c, full, m, key, rid);
    case Del(key, rid) => OneDel(c, full, m, key, rid);
  }

  /** After any run, every key finds exactly the record ids inserted and not deleted for it. */
  lemma {:induction false} RunAgrees(c: Cover, full: int, m: multiset<(int, Rid)>, ops: seq<Op>)
    requires Agrees(c, full, m) && Runs(c, full, ops)
    ensures Agrees(RunEnd(c, full, ops), full, MapEnd(m, ops))
    decreases |ops|
  {
    if ops != [] {
      OneOp(c, full, m, ops[0]);
      RunAgrees(Do(c, full, ops[0]), full, OnMap(m, ops[0]), ops[1..]);
    }
  }

  // ---------- a deletion that is not harmless ----------

  /** Two records of key 5 and one of key 7 in the leaf, more of key 5 on its overflow page. */
  function Chained(): Cover {
    Cover([DirEntry(MIN_KEY, 0)],
          [Node(1, [Entry(5, 1, 1), Entry(7, 3, 3)]), Node(-1, [Entry(5, 2, 2)])],
          [[1]],
          [MIN_KEY, MIN_KEY])
  }

  lemma ChainedCovered()
    ensures Covered(Chained(), 4) && Home(Chained(), 4, 5) == 0 && Home(Chained(), 4, 7) == 0
  {
    var c := Chained();
    assert ChainOk(c.leaves, -1, []) && c.chains[0][1..] == [];
    assert ChainOk(c.leaves, 1, [1]);
    assert OverflowOk(c.leaves, 1, c.leaves[0].recs, 4);
    assert LeafAt(c, 4, 0);
  }

  lemma ChainedRids()
    ensures RidsOf(LeafRecs(Chained().leaves, 0, [1]), 5) == [Rid(1, 1), Rid(2, 2)]
    ensures RidsOf(LeafRecs(Chained().leaves, 0, [1]), 7) == [Rid(3, 3)]
  {
    var c, main, over := Chained(), [Entry(5, 1, 1), Entry(7, 3, 3)], [Entry(5, 2, 2)];
    assert ChainRecs(c.leaves, [1]) == over + ChainRecs(c.leaves, []);
    assert over + [] == over;
    RidsConcat(main, over, 5);
    assert main == [Entry(5, 1, 1)] + [Entry(7, 3, 3)];
    RidsConcat([Entry(5, 1, 1)], [Entry(7, 3, 3)], 5);
    RidsNone([Entry(7, 3, 3)], 5);
    assert RidsOf([Entry(5, 1, 1)], 5) == [Rid(1, 1)] && RidsOf(over, 5) == [Rid(2, 2)];
    RidsConcat(main, over, 7);
    RidsNone(over, 7);
    RidsConcat([Entry(5, 1, 1)], [Entry(7, 3, 3)], 7);
    assert RidsOf([Entry(7, 3, 3)], 7) == [Rid(3, 3)];
  }

  lemma ChainedDeletion()
    ensures Covered(Chained(), 4) && Home(Chained(), 4, 5) == 0 && Home(Chained(), 4, 7) == 0
    ensures CutsOff(Chained().leaves, 0, [1], 5, Rid(1, 1))
    ensures !KeptAfter(Chained(), 4, 5, Rid(1, 1))
  {
    var c, main := Chained(), [Entry(5, 1, 1), Entry(7, 3, 3)];
    ChainedCovered();
    FoundSlotIs(main, 5, Rid(1, 1), 0);
    FoundPageIs(c.leaves, [0] + [1], 5, Rid(1, 1), 0);
  }

  lemma ChainedSearch(key: int)
    requires key == 5 || key == 7
    ensures Covered(Chained(), 4)
    ensures SearchAfter(Chained(), 4, 5, Rid(1, 1), key) == if key == 5 then [] else [Rid(3, 3), Rid(2, 2)]
  {
    var c := Chained();
    ChainedDeletion();
    ChainedRids();
    ShrunkSize(c, 4, 5, Rid(1, 1), 0);
    CutOff(c.leaves, 0, [1], MIN_KEY, None, 4, 5, Rid(1, 1), key);
  }

  /** Deleting one record id of key 5 there makes the other unreachable, and shows it under key 7. */
  lemma DeletionLosesChain()
    ensures Covered(Chained(), 4) && !KeptAfter(Chained(), 4, 5, Rid(1, 1))
    ensures Lookup(Chained(), 4, 5) == [Rid(1, 1), Rid(2, 2)] && Lookup(Chained(), 4, 7) == [Rid(3, 3)]
    ensures SearchAfter(Chained(), 4, 5, Rid(1, 1), 5) == []
    ensures SearchAfter(Chained(), 4, 5, Rid(1, 1), 7) == [Rid(3, 3), Rid(2, 2)]
  {
    ChainedDeletion();
    ChainedRids();
    ChainedSearch(5);
    ChainedSearch(7);
  }
}
