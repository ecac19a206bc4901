/**
 What a search reads off one leaf, page by page, also where a deletion has left an overflow chain out
 of order. try_overflow looks at slot 0 without asking whether the page holds a record, and a step to an
 overflow page shows its slot 0 whatever that holds (bt_leaf.h:21-33); slot 0 of a page whose last
 record was deleted still holds that record.
 */
module BtLeafSearch {
  import opened DbTypes
  import opened BtPages
  import opened BtLeaves
  import opened BtLeafDelete

  /** The records of key that recs starts with. */
  function Run(recs: seq<Entry>, key: int): seq<Rid> {
    if recs == [] || recs[0].key != key then [] else [RidOf(recs[0])] + Run(recs[1..], key)
  }

  /** What slot 0 of a page holds; stale is what was deleted last from an empty one. */
  function SlotZero(p: Node, stale: Entry): Entry {
    if p.recs == [] then stale else p.recs[0]
  }

  /** At the end of a page whose slot 0 has key first: on to the overflow pages, if that is the key searched for. */
  function Overflowing(leaves: seq<Node>, chain: seq<nat>, first: int, stale: Entry, key: int): seq<Rid>
    decreases |chain|
  {
    if chain == [] || chain[0] >= |leaves| || first != key then []
    else
      var p := leaves[chain[0]];
      var e := SlotZero(p, stale);
      [RidOf(e)] + (if p.recs == [] then [] else Run(p.recs[1..], key)) + Overflowing(leaves, chain[1..], e.key, stale, key)
  }

  /** What the cursor shows for key on the leaf at b. */
  function Search(leaves: seq<Node>, b: nat, chain: seq<nat>, stale: Entry, key: int): seq<Rid>
    requires b < |leaves|
  {
    var recs := leaves[b].recs;
    Run(recs[Pos(recs, key)..], key) + Overflowing(leaves, chain, SlotZero(leaves[b], stale).key, stale, key)
  }

  // ---------- a leaf in order ----------

  /** In records that are ordered from key on, those of key come first. */
  lemma {:induction false} RunIs(recs: seq<Entry>, key: int)
    requires Ordered(recs) && forall i :: 0 <= i < |recs| ==> recs[i].key >= key
    ensures Run(recs, key) == RidsOf(recs, key)
    decreases |recs|
  {
    if recs != [] {
      if recs[0].key == key {
        RunIs(recs[1..], key);
      } else {
        RidsNone(recs, key);
      }
    }
  }

  lemma RunFrom(recs: seq<Entry>, key: int)
    requires Ordered(recs)
    ensures Run(recs[Pos(recs, key)..], key) == RidsOf(recs, key)
  {
    var i := Pos(recs, key);
    var a, b := recs[..i], recs[i..];
    assert recs == a + b;
    BehindPos(recs, key);
    RunIs(b, key);
    RidsNone(a, key);
    RidsConcat(a, b, key);
    assert [] + RidsOf(b, key) == RidsOf(b, key);
  }

  lemma BehindPos(recs: seq<Entry>, key: int)
    requires Ordered(recs)
    ensures
      var b := recs[Pos(recs, key)..];
      Ordered(b) && forall k :: 0 <= k < |b| ==> b[k].key >= key
  {
    var i := Pos(recs, key);
    forall k | 0 <= k < |recs| - i
      ensures recs[i..][k].key >= key
    {
      assert recs[i + k].key >= recs[i].key;
    }
  }

  /** Overflow pages of one key are all shown under it, and none under another. */
  lemma {:induction false} ChainShown(leaves: seq<Node>, f: int, chain: seq<nat>, first: int, stale: Entry, key: int)
    requires ChainOk(leaves, f, chain)
    requires forall k :: 0 <= k < |chain| ==> chain[k] < |leaves| && leaves[chain[k]].recs != [] && OnlyKey(leaves[chain[k]].recs, first)
    ensures Overflowing(leaves, chain, first, stale, key) == RidsOf(ChainRecs(leaves, chain), key)
    decreases |chain|
  {
    if chain == [] {
    } else if first != key {
      ChainKeys(leaves, f, chain, first);
      RidsNone(ChainRecs(leaves, chain), key);
    } else {
      var recs := leaves[chain[0]].recs;
      forall k | 0 <= k < |chain| - 1
        ensures chain[1..][k] < |leaves| && leaves[chain[1..][k]].recs != [] && OnlyKey(leaves[chain[1..][k]].recs, first)
      {
        assert chain[1..][k] == chain[k + 1];
      }
      ChainShown(leaves, leaves[chain[0]].flag, chain[1..], first, stale, key);
      RunIs(recs[1..], key);
      RidsConcat(recs, ChainRecs(leaves, chain[1..]), key);
    }
  }

  lemma OverflowKeys(leaves: seq<Node>, b: nat, chain: seq<nat>, lo: int, hi: Option<int>, full: int, k: nat)
    requires LeafOk(leaves, b, chain, lo, hi, full) && k < |chain|
    ensures chain[k] != b && chain[k] < |leaves| && leaves[chain[k]].recs != [] && leaves[b].recs != []
    ensures OnlyKey(leaves[chain[k]].recs, leaves[b].recs[0].key)
  {
    assert OverflowOk(leaves, chain[k], leaves[b].recs, full);
  }

  /** On a leaf in order a search shows the record ids stored under its key. */
  lemma SearchIs(leaves: seq<Node>, b: nat, chain: seq<nat>, lo: int, hi: Option<int>, full: int, stale: Entry, key: int)
    requires LeafOk(leaves, b, chain, lo, hi, full)
    ensures Search(leaves, b, chain, stale, key) == RidsOf(LeafRecs(leaves, b, chain), key)
  {
    RunFrom(leaves[b].recs, key);
    RidsConcat(leaves[b].recs, ChainRecs(leaves, chain), key);
    if chain != [] {
      forall k | 0 <= k < |chain|
        ensures chain[k] < |leaves| && leaves[chain[k]].recs != [] && leaves[b].recs != []
        ensures OnlyKey(leaves[chain[k]].recs, leaves[b].recs[0].key)
      {
        OverflowKeys(leaves, b, chain, lo, hi, full, k);
      }
      ChainShown(leaves, leaves[b].flag, chain, leaves[b].recs[0].key, stale, key);
    }
  }

  // ---------- after a deletion ----------

  function Gone(key: int, rid: Rid): Entry {
    Entry(key, rid.blk, rid.slot)
  }

  /** The leaf's chain stays where it was, page by page. */
  lemma {:induction false} SamePages(leaves: seq<Node>, leaves': seq<Node>, chain: seq<nat>, first: int, stale: Entry, key: int)
    requires |leaves'| == |leaves|
    requires forall k :: 0 <= k < |chain| && chain[k] < |leaves| ==>
               leaves'[chain[k]] == leaves[chain[k]] || (leaves[chain[k]].recs == [stale] && leaves'[chain[k]].recs == [])
    ensures Overflowing(leaves', chain, first, stale, key) == Overflowing(leaves, chain, first, stale, key)
    decreases |chain|
  {
    if chain != [] && chain[0] < |leaves| && first == key {
      forall k | 0 <= k < |chain| - 1 && chain[1..][k] < |leaves|
        ensures leaves'[chain[1..][k]] == leaves[chain[1..][k]] || (leaves[chain[1..][k]].recs == [stale] && leaves'[chain[1..][k]].recs == [])
      {
        assert chain[1..][k] == chain[k + 1];
      }
      SamePages(leaves, leaves', chain[1..], SlotZero(leaves[chain[0]], stale).key, stale, key);
      assert leaves[chain[0]].recs == [stale] ==> Run(leaves[chain[0]].recs[1..], key) == [];
    }
  }

  /** The page that shows the record is an overflow page, and loses its only record. */
  ghost predicate EmptiesOverflow(leaves: seq<Node>, b: nat, chain: seq<nat>, key: int, rid: Rid) {
    !Deletable(leaves, b, chain, key, rid) && !Shows(leaves, b, key, rid)
  }

  /** The leaf's own page loses the chained key, and keeps other records. */
  ghost predicate CutsOff(leaves: seq<Node>, b: nat, chain: seq<nat>, key: int, rid: Rid) {
    !Deletable(leaves, b, chain, key, rid) && Shows(leaves, b, key, rid) && |leaves[b].recs| > 1
  }

  /** Emptying an overflow page changes nothing for a search: it still shows what was deleted. */
  lemma StillShown(leaves: seq<Node>, b: nat, chain: seq<nat>, lo: int, hi: Option<int>, full: int, key: int, rid: Rid,
                   key': int)
    requires LeafOk(leaves, b, chain, lo, hi, full) && EmptiesOverflow(leaves, b, chain, key, rid)
    ensures |Deleted(leaves, b, chain, key, rid)| == |leaves|
    ensures Search(Deleted(leaves, b, chain, key, rid), b, chain, Gone(key, rid), key') ==
            Search(leaves, b, chain, Gone(key, rid), key')
    ensures rid in RidsOf(LeafRecs(leaves, b, chain), key)
  {
    var pages := [b] + chain;
    var i, leaves' := FoundPage(leaves, pages, key, rid), Deleted(leaves, b, chain, key, rid);
    var o := chain[i - 1];
    assert pages[i] == o;
    OverflowKeys(leaves, b, chain, lo, hi, full, i - 1);
    assert leaves[o].recs == [Gone(key, rid)];
    SamePages(leaves, leaves', chain, SlotZero(leaves[b], Gone(key, rid)).key, Gone(key, rid), key');
    ChainRidsRemove(leaves, leaves[b].flag, chain, i - 1, 0, key);
    RidsConcat(leaves[b].recs, ChainRecs(leaves, chain), key);
    assert rid in multiset(RidsOf(ChainRecs(leaves, chain), key));
  }

  lemma FirstGoes(leaves: seq<Node>, b: nat, chain: seq<nat>, lo: int, hi: Option<int>, full: int, key: int, rid: Rid)
    requires LeafOk(leaves, b, chain, lo, hi, full) && !Deletable(leaves, b, chain, key, rid) && Shows(leaves, b, key, rid)
    ensures chain != [] && leaves[b].recs != [] && leaves[b].recs[0] == Gone(key, rid)
    ensures Deleted(leaves, b, chain, key, rid) == leaves[b := Node(leaves[b].flag, leaves[b].recs[1..])]
    ensures forall k :: 1 <= k < |leaves[b].recs| ==> leaves[b].recs[k].key > key
  {
    var recs := leaves[b].recs;
    FoundPageIs(leaves, [b] + chain, key, rid, 0);
    assert |recs| > 1 ==> recs[1].key != key;
    var slot := FoundSlot(recs, key, rid);
    assert slot == 0;
    assert RemoveAt(recs, 0) == recs[1..];
    forall k | 1 <= k < |recs|
      ensures recs[k].key > key
    {
      assert recs[0].key <= recs[1].key <= recs[k].key;
    }
  }

  /** Emptying the leaf's own page is harmless to searches: the overflow pages are still reached. */
  lemma StillReached(leaves: seq<Node>, b: nat, chain: seq<nat>, lo: int, hi: Option<int>, full: int, key: int, rid: Rid,
                     key': int)
    requires LeafOk(leaves, b, chain, lo, hi, full) && !Deletable(leaves, b, chain, key, rid)
    requires Shows(leaves, b, key, rid) && |leaves[b].recs| == 1
    ensures |Deleted(leaves, b, chain, key, rid)| == |leaves|
    ensures RidsOf(LeafRecs(leaves, b, chain), key') ==
            (if key' == key then [rid] else []) + Search(Deleted(leaves, b, chain, key, rid), b, chain, Gone(key, rid), key')
  {
    var leaves', stale := Deleted(leaves, b, chain, key, rid), Gone(key, rid);
    FirstGoes(leaves, b, chain, lo, hi, full, key, rid);
    SearchIs(leaves, b, chain, lo, hi, full, stale, key');
    forall k | 0 <= k < |chain|
      ensures chain[k] != b
    {
      OverflowKeys(leaves, b, chain, lo, hi, full, k);
    }
    SamePages(leaves, leaves', chain, key, stale, key');
    assert leaves[b].recs == [stale] && leaves'[b].recs == [];
    EmptySearch(leaves, b, chain, stale, key');
    EmptySearch(leaves', b, chain, stale, key');
  }

  /** A page with the record, or with nothing but what is left of it in slot 0. */
  lemma EmptySearch(leaves: seq<Node>, b: nat, chain: seq<nat>, stale: Entry, key: int)
    requires b < |leaves| && (leaves[b].recs == [stale] || leaves[b].recs == [])
    ensures Search(leaves, b, chain, stale, key) ==
            (if leaves[b].recs != [] && key == stale.key then [RidOf(stale)] else []) +
            Overflowing(leaves, chain, stale.key, stale, key)
  {
    RunOfOne(stale, key);
  }

  lemma RunOfOne(e: Entry, key: int)
    ensures Run([e][Pos([e], key)..], key) == if key == e.key then [RidOf(e)] else []
    ensures Run([][Pos([], key)..], key) == []
  {
    RunFrom([e], key);
    assert [e][1..] == [];
  }

  /**
   Otherwise all remaining record ids of the key are lost to searches, and a search for the key that is
   first on the page now shows one of them that is not its own.
   */
  lemma CutOff(leaves: seq<Node>, b: nat, chain: seq<nat>, lo: int, hi: Option<int>, full: int, key: int, rid: Rid,
               key': int)
    requires LeafOk(leaves, b, chain, lo, hi, full) && CutsOff(leaves, b, chain, key, rid)
    ensures |Deleted(leaves, b, chain, key, rid)| == |leaves| && chain != [] && chain[0] < |leaves| && leaves[chain[0]].recs != []
    ensures Search(Deleted(leaves, b, chain, key, rid), b, chain, Gone(key, rid), key') ==
            (if key' == key then [] else RidsOf(LeafRecs(leaves, b, chain), key')) +
            (if key' == leaves[b].recs[1].key then [RidOf(leaves[chain[0]].recs[0])] else [])
    ensures |RidsOf(LeafRecs(leaves, b, chain), key)| >= 2
  {
    var leaves', stale, recs := Deleted(leaves, b, chain, key, rid), Gone(key, rid), leaves[b].recs;
    FirstGoes(leaves, b, chain, lo, hi, full, key, rid);
    OverflowKeys(leaves, b, chain, lo, hi, full, 0);
    RunFrom(recs[1..], key');
    CutOverflow(leaves', chain, key, recs[1].key, stale, key');
    ChainOfLeaf(leaves, b, chain, lo, hi, full);
    RestOfLeaf(recs, ChainRecs(leaves, chain), key');
    TwoAtLeast(leaves, chain, recs, key);
  }

  /** Without its first record, the page holds the other keys' records as before and none of the first key. */
  lemma RestOfLeaf(recs: seq<Entry>, rest: seq<Entry>, key: int)
    requires recs != [] && OnlyKey(rest, recs[0].key) && forall k :: 1 <= k < |recs| ==> recs[k].key > recs[0].key
    ensures RidsOf(recs[1..], key) == if key == recs[0].key then [] else RidsOf(recs + rest, key)
  {
    if key == recs[0].key {
      RidsNone(recs[1..], key);
    } else {
      RidsNone(rest, key);
      RidsConcat(recs, rest, key);
      assert RidsOf(recs, key) == RidsOf(recs[1..], key);
    }
  }

  lemma CutOverflow(leaves: seq<Node>, chain: seq<nat>, key: int, first: int, stale: Entry, key': int)
    requires chain != [] && chain[0] < |leaves| && leaves[chain[0]].recs != []
    requires OnlyKey(leaves[chain[0]].recs, key) && first != key
    ensures Overflowing(leaves, chain, first, stale, key') == if key' == first then [RidOf(leaves[chain[0]].recs[0])] else []
  {
    var recs := leaves[chain[0]].recs;
    if key' == first {
      assert |recs| > 1 ==> recs[1..][0].key == key;
      assert Run(recs[1..], key') == [];
      assert Overflowing(leaves, chain[1..], key, stale, key') == [];
    }
  }

  lemma TwoAtLeast(leaves: seq<Node>, chain: seq<nat>, recs: seq<Entry>, key: int)
    requires chain != [] && chain[0] < |leaves| && leaves[chain[0]].recs != [] && OnlyKey(leaves[chain[0]].recs, key)
    requires recs != [] && recs[0].key == key
    ensures |RidsOf(recs + ChainRecs(leaves, chain), key)| >= 2
  {
    RidsConcat(recs, ChainRecs(leaves, chain), key);
    RidsConcat(leaves[chain[0]].recs, ChainRecs(leaves, chain[1..]), key);
    RidsAll(leaves[chain[0]].recs, key);
  }

  /** Searches stay right: nothing out of order, or the leaf's own page has just become empty. */
  ghost predicate SearchesKept(leaves: seq<Node>, b: nat, chain: seq<nat>, key: int, rid: Rid) {
    Deletable(leaves, b, chain, key, rid) || (Shows(leaves, b, key, rid) && |leaves[b].recs| == 1)
  }

  /** Where they stay right, a search finds one record id less under the key deleted and the same under every other. */
  lemma KeptSearch(leaves: seq<Node>, b: nat, chain: seq<nat>, lo: int, hi: Option<int>, full: int, key: int, rid: Rid,
                   key': int)
    requires LeafOk(leaves, b, chain, lo, hi, full) && SearchesKept(leaves, b, chain, key, rid)
    ensures |Deleted(leaves, b, chain, key, rid)| == |leaves|
    ensures OneLess(Search(Deleted(leaves, b, chain, key, rid), b, chain, Gone(key, rid), key'),
                    RidsOf(LeafRecs(leaves, b, chain), key'), key, rid, key')
  {
    DeletedFound(leaves, b, chain, lo, hi, full, key, rid, key');
    if Deletable(leaves, b, chain, key, rid) {
      DeletedOk(leaves, b, chain, lo, hi, full, key, rid);
      SearchIs(Deleted(leaves, b, chain, key, rid), b, chain, lo, hi, full, Gone(key, rid), key');
    } else {
      StillReached(leaves, b, chain, lo, hi, full, key, rid, key');
    }
  }

  /** And where not, the search for the key deleted is wrong: it shows nothing, or still all. */
  lemma LostSearch(leaves: seq<Node>, b: nat, chain: seq<nat>, lo: int, hi: Option<int>, full: int, key: int, rid: Rid)
    requires LeafOk(leaves, b, chain, lo, hi, full) && !SearchesKept(leaves, b, chain, key, rid)
    ensures |Deleted(leaves, b, chain, key, rid)| == |leaves|
    ensures !OneLess(Search(Deleted(leaves, b, chain, key, rid), b, chain, Gone(key, rid), key),
                     RidsOf(LeafRecs(leaves, b, chain), key), key, rid, key)
  {
    var before := RidsOf(LeafRecs(leaves, b, chain), key);
    if Shows(leaves, b, key, rid) {
      CutOff(leaves, b, chain, lo, hi, full, key, rid, key);
      assert |multiset(before) - multiset{rid}| >= |before| - 1;
    } else {
      StillShown(leaves, b, chain, lo, hi, full, key, rid, key);
      SearchIs(leaves, b, chain, lo, hi, full, Gone(key, rid), key);
      assert rid in multiset(before);
    }
  }
}
