/**
 Deleting a record id from a leaf and its overflow chain: the record goes from the first page
 that shows it. The leaf stays in order exactly when, along an overflow chain, that page keeps
 another record of the same key.
 */
module BtLeafDelete {
  import opened DbTypes
  import opened BtPages
  import opened BtLeaves

  /** The first slot with this key and record id; the record count if there is none. */
  function FoundSlot(recs: seq<Entry>, key: int, rid: Rid): (s: nat)
    ensures s <= |recs|
    ensures forall k :: 0 <= k < s ==> recs[k].key != key || RidOf(recs[k]) != rid
    ensures s < |recs| ==> recs[s].key == key && RidOf(recs[s]) == rid
  {
    if recs == [] || (recs[0].key == key && RidOf(recs[0]) == rid) then 0 else 1 + FoundSlot(recs[1..], key, rid)
  }

  lemma FoundSlotIs(recs: seq<Entry>, key: int, rid: Rid, s: nat)
    requires s <= |recs| && forall k :: 0 <= k < s ==> recs[k].key != key || RidOf(recs[k]) != rid
    requires s < |recs| ==> recs[s].key == key && RidOf(recs[s]) == rid
    ensures FoundSlot(recs, key, rid) == s
  {
  }

  ghost predicate Shows(leaves: seq<Node>, p: nat, key: int, rid: Rid) {
    p < |leaves| && FoundSlot(leaves[p].recs, key, rid) < |leaves[p].recs|
  }

  /** The first of the pages that shows the record; their number if none does. */
  ghost function FoundPage(leaves: seq<Node>, pages: seq<nat>, key: int, rid: Rid): (i: nat)
    ensures i <= |pages|
    ensures forall k :: 0 <= k < i ==> !Shows(leaves, pages[k], key, rid)
    ensures i < |pages| ==> Shows(leaves, pages[i], key, rid)
  {
    if pages == [] || Shows(leaves, pages[0], key, rid) then 0 else 1 + FoundPage(leaves, pages[1..], key, rid)
  }

  lemma FoundPageIs(leaves: seq<Node>, pages: seq<nat>, key: int, rid: Rid, i: nat)
    requires i <= |pages| && forall k :: 0 <= k < i ==> !Shows(leaves, pages[k], key, rid)
    requires i < |pages| ==> Shows(leaves, pages[i], key, rid)
    ensures FoundPage(leaves, pages, key, rid) == i
  {
  }

  /** Page p without the record it shows. */
  function Without(leaves: seq<Node>, p: nat, key: int, rid: Rid): seq<Node>
    requires p < |leaves| && FoundSlot(leaves[p].recs, key, rid) < |leaves[p].recs|
  {
    leaves[p := Node(leaves[p].flag, RemoveAt(leaves[p].recs, FoundSlot(leaves[p].recs, key, rid)))]
  }

  /** The leaf pages after the record was deleted from the leaf at b. */
  ghost function Deleted(leaves: seq<Node>, b: nat, chain: seq<nat>, key: int, rid: Rid): seq<Node> {
    var pages := [b] + chain;
    var i := FoundPage(leaves, pages, key, rid);
    if i < |pages| then Without(leaves, pages[i], key, rid) else leaves
  }

  /**
   Deleting here leaves a leaf in order: there is no overflow chain, or the key is not the
   chained one, or the page that shows the record has another one of that key.
   */
  ghost predicate Deletable(leaves: seq<Node>, b: nat, chain: seq<nat>, key: int, rid: Rid) {
    var pages := [b] + chain;
    var i := FoundPage(leaves, pages, key, rid);
    chain != [] && i < |pages| && b < |leaves| && leaves[b].recs != [] && leaves[b].recs[0].key == key ==>
      |leaves[pages[i]].recs| > 1 && leaves[pages[i]].recs[1].key == key
  }

  // ---------- chains ----------

  /** A page number leads to one chain only. */
  lemma {:induction false} OneChain(leaves: seq<Node>, f: int, c1: seq<nat>, c2: seq<nat>)
    requires ChainOk(leaves, f, c1) && ChainOk(leaves, f, c2)
    ensures c1 == c2
    decreases |c1|
  {
    if c1 != [] {
      OneChain(leaves, leaves[c1[0]].flag, c1[1..], c2[1..]);
    }
  }

  lemma {:induction false} ChainTail(leaves: seq<Node>, f: int, chain: seq<nat>, k: nat)
    requires ChainOk(leaves, f, chain) && k < |chain|
    ensures chain[k] < |leaves| && ChainOk(leaves, chain[k], chain[k..])
    ensures ChainOk(leaves, leaves[chain[k]].flag, chain[k + 1..])
    decreases |chain|
  {
    if k > 0 {
      ChainTail(leaves, leaves[chain[0]].flag, chain[1..], k - 1);
      assert chain[1..][k - 1..] == chain[k..] && chain[1..][k..] == chain[k + 1..];
    }
  }

  lemma ChainDistinct(leaves: seq<Node>, f: int, chain: seq<nat>, j: nat, k: nat)
    requires ChainOk(leaves, f, chain) && j < |chain| && k < |chain| && j != k
    ensures chain[j] != chain[k]
  {
    ChainTail(leaves, f, chain, j);
    ChainTail(leaves, f, chain, k);
    if chain[j] == chain[k] {
      OneChain(leaves, chain[j], chain[j..], chain[k..]);
    }
  }

  /** The chain survives a change of records on one page. */
  lemma {:induction false} ChainKept(leaves: seq<Node>, p: nat, recs: seq<Entry>, f: int, chain: seq<nat>)
    requires ChainOk(leaves, f, chain) && p < |leaves|
    ensures ChainOk(leaves[p := Node(leaves[p].flag, recs)], f, chain)
    decreases |chain|
  {
    if chain != [] {
      ChainKept(leaves, p, recs, leaves[chain[0]].flag, chain[1..]);
    }
  }

  /** One record less on page k of the chain is one record id less under its key. */
  lemma {:induction false} ChainRidsRemove(leaves: seq<Node>, f: int, chain: seq<nat>, k: nat, slot: nat, key: int)
    requires ChainOk(leaves, f, chain) && k < |chain| && chain[k] < |leaves| && slot < |leaves[chain[k]].recs|
    ensures
      var p := leaves[chain[k]];
      var leaves' := leaves[chain[k] := Node(p.flag, RemoveAt(p.recs, slot))];
      multiset(RidsOf(ChainRecs(leaves, chain), key)) == multiset(RidsOf(ChainRecs(leaves', chain), key))
        + (if p.recs[slot].key == key then multiset{RidOf(p.recs[slot])} else multiset{})
    decreases |chain|
  {
    var p := leaves[chain[k]];
    var leaves' := leaves[chain[k] := Node(p.flag, RemoveAt(p.recs, slot))];
    if k == 0 {
      ChainHeadRemoved(leaves, f, chain, slot, key);
    } else {
      ChainDistinct(leaves, f, chain, 0, k);
      ChainRidsRemove(leaves, leaves[chain[0]].flag, chain[1..], k - 1, slot, key);
      RidsConcat(leaves[chain[0]].recs, ChainRecs(leaves, chain[1..]), key);
      RidsConcat(leaves[chain[0]].recs, ChainRecs(leaves', chain[1..]), key);
    }
  }

  lemma ChainHeadRemoved(leaves: seq<Node>, f: int, chain: seq<nat>, slot: nat, key: int)
    requires ChainOk(leaves, f, chain) && chain != [] && chain[0] < |leaves| && slot < |leaves[chain[0]].recs|
    ensures
      var p := leaves[chain[0]];
      var leaves' := leaves[chain[0] := Node(p.flag, RemoveAt(p.recs, slot))];
      multiset(RidsOf(ChainRecs(leaves, chain), key)) == multiset(RidsOf(ChainRecs(leaves', chain), key))
        + (if p.recs[slot].key == key then multiset{RidOf(p.recs[slot])} else multiset{})
  {
    var p, recs' := leaves[chain[0]], RemoveAt(leaves[chain[0]].recs, slot);
    var leaves' := leaves[chain[0] := Node(p.flag, recs')];
    forall j | 0 <= j < |chain| - 1 && chain[1..][j] < |leaves|
      ensures leaves'[chain[1..][j]] == leaves[chain[1..][j]]
    {
      ChainDistinct(leaves, f, chain, 0, j + 1);
    }
    ChainFrame(leaves, leaves', leaves[chain[0]].flag, chain[1..]);
    var rest := ChainRecs(leaves, chain[1..]);
    assert ChainRecs(leaves, chain) == p.recs + rest && ChainRecs(leaves', chain) == recs' + rest;
    RidsRemove(p.recs, slot, key);
    RidsConcat(p.recs, rest, key);
    RidsConcat(recs', rest, key);
  }

  lemma {:induction false} ChainHolds(leaves: seq<Node>, f: int, chain: seq<nat>, key: int, rid: Rid)
    requires ChainOk(leaves, f, chain)
    requires forall k :: 0 <= k < |chain| ==> !Shows(leaves, chain[k], key, rid)
    ensures multiset(RidsOf(ChainRecs(leaves, chain), key))[rid] == 0
    decreases |chain|
  {
    if chain != [] {
      RidsConcat(leaves[chain[0]].recs, ChainRecs(leaves, chain[1..]), key);
      NotShown(leaves[chain[0]].recs, key, rid);
      forall k | 0 <= k < |chain| - 1
        ensures !Shows(leaves, chain[1..][k], key, rid)
      {
        assert chain[1..][k] == chain[k + 1];
      }
      ChainHolds(leaves, leaves[chain[0]].flag, chain[1..], key, rid);
    }
  }

  lemma {:induction false} NotShown(recs: seq<Entry>, key: int, rid: Rid)
    requires forall k :: 0 <= k < |recs| ==> recs[k].key != key || RidOf(recs[k]) != rid
    ensures multiset(RidsOf(recs, key))[rid] == 0
    decreases |recs|
  {
    if recs != [] {
      NotShown(recs[1..], key, rid);
    }
  }

  // ---------- the leaf after the deletion ----------

  /** A lookup finds one record id less under the key, if it was there, and the same under every other key. */
  ghost predicate OneLess(found: seq<Rid>, before: seq<Rid>, key: int, rid: Rid, key': int) {
    multiset(found) == if key' == key then multiset(before) - multiset{rid} else multiset(before)
  }

  lemma ChainApart(leaves: seq<Node>, b: nat, chain: seq<nat>, lo: int, hi: Option<int>, full: int, k: nat)
    requires LeafOk(leaves, b, chain, lo, hi, full) && k < |chain|
    ensures chain[k] != b && chain[k] < |leaves|
  {
    assert OverflowOk(leaves, chain[k], leaves[b].recs, full);
  }

  /** Losing one of a list's record ids, wherever the rest of the lookup comes from. */
  lemma LessIn(front: seq<Rid>, front': seq<Rid>, back: seq<Rid>, back': seq<Rid>, m: multiset<Rid>)
    requires multiset(front) + multiset(back) == multiset(front') + multiset(back') + m
    ensures multiset(front' + back') == multiset(front + back) - m
  {
  }

  lemma FewerInFront(recs: seq<Entry>, slot: nat, rest: seq<Entry>, key: int, rid: Rid, key': int)
    requires slot < |recs| && recs[slot].key == key && RidOf(recs[slot]) == rid
    ensures OneLess(RidsOf(RemoveAt(recs, slot) + rest, key'), RidsOf(recs + rest, key'), key, rid, key')
  {
    var recs' := RemoveAt(recs, slot);
    RidsRemove(recs, slot, key');
    RidsConcat(recs, rest, key');
    RidsConcat(recs', rest, key');
    LessIn(RidsOf(recs, key'), RidsOf(recs', key'), RidsOf(rest, key'), RidsOf(rest, key'),
           if key' == key then multiset{rid} else multiset{});
  }

  lemma MainFound(leaves: seq<Node>, b: nat, chain: seq<nat>, lo: int, hi: Option<int>, full: int, key: int, rid: Rid,
                  key': int)
    requires LeafOk(leaves, b, chain, lo, hi, full) && Shows(leaves, b, key, rid)
    ensures OneLess(RidsOf(LeafRecs(Without(leaves, b, key, rid), b, chain), key'), RidsOf(LeafRecs(leaves, b, chain), key'),
                    key, rid, key')
  {
    var leaves' := Without(leaves, b, key, rid);
    forall k | 0 <= k < |chain| && chain[k] < |leaves|
      ensures leaves'[chain[k]] == leaves[chain[k]]
    {
      ChainApart(leaves, b, chain, lo, hi, full, k);
    }
    ChainFrame(leaves, leaves', leaves[b].flag, chain);
    FewerInFront(leaves[b].recs, FoundSlot(leaves[b].recs, key, rid), ChainRecs(leaves, chain), key, rid, key');
  }

  lemma OverflowFound(leaves: seq<Node>, b: nat, chain: seq<nat>, lo: int, hi: Option<int>, full: int, key: int,
                      rid: Rid, key': int, k: nat)
    requires LeafOk(leaves, b, chain, lo, hi, full) && k < |chain| && Shows(leaves, chain[k], key, rid)
    ensures OneLess(RidsOf(LeafRecs(Without(leaves, chain[k], key, rid), b, chain), key'), RidsOf(LeafRecs(leaves, b, chain), key'),
                    key, rid, key')
  {
    var leaves' := Without(leaves, chain[k], key, rid);
    ChainApart(leaves, b, chain, lo, hi, full, k);
    ChainRidsRemove(leaves, leaves[b].flag, chain, k, FoundSlot(leaves[chain[k]].recs, key, rid), key');
    RidsConcat(leaves[b].recs, ChainRecs(leaves, chain), key');
    RidsConcat(leaves[b].recs, ChainRecs(leaves', chain), key');
  }

  lemma NothingFound(leaves: seq<Node>, b: nat, chain: seq<nat>, lo: int, hi: Option<int>, full: int, key: int,
                     rid: Rid)
    requires LeafOk(leaves, b, chain, lo, hi, full)
    requires forall k :: 0 <= k < |[b] + chain| ==> !Shows(leaves, ([b] + chain)[k], key, rid)
    ensures multiset(RidsOf(LeafRecs(leaves, b, chain), key))[rid] == 0
  {
    var pages := [b] + chain;
    assert pages[0] == b;
    NotShown(leaves[b].recs, key, rid);
    forall k | 0 <= k < |chain|
      ensures !Shows(leaves, chain[k], key, rid)
    {
      assert pages[k + 1] == chain[k];
    }
    ChainHolds(leaves, leaves[b].flag, chain, key, rid);
    RidsConcat(leaves[b].recs, ChainRecs(leaves, chain), key);
  }

  lemma DeletedFound(leaves: seq<Node>, b: nat, chain: seq<nat>, lo: int, hi: Option<int>, full: int, key: int,
                     rid: Rid, key': int)
    requires LeafOk(leaves, b, chain, lo, hi, full)
    ensures |Deleted(leaves, b, chain, key, rid)| == |leaves|
    ensures OneLess(RidsOf(LeafRecs(Deleted(leaves, b, chain, key, rid), b, chain), key'), RidsOf(LeafRecs(leaves, b, chain), key'),
                    key, rid, key')
  {
    var i := FoundPage(leaves, [b] + chain, key, rid);
    if i == 0 {
      MainFound(leaves, b, chain, lo, hi, full, key, rid, key');
    } else if i <= |chain| {
      assert ([b] + chain)[i] == chain[i - 1];
      OverflowFound(leaves, b, chain, lo, hi, full, key, rid, key', i - 1);
    } else {
      NothingFound(leaves, b, chain, lo, hi, full, key, rid);
    }
  }

  lemma RemoveKeeps(recs: seq<Entry>, slot: nat, lo: int, hi: Option<int>)
    requires Ordered(recs) && InRange(recs, lo, hi) && slot < |recs|
    ensures Ordered(RemoveAt(recs, slot)) && InRange(RemoveAt(recs, slot), lo, hi)
  {
  }

  /** The record shown on an overflow page has the chained key. */
  lemma ChainedKey(leaves: seq<Node>, b: nat, chain: seq<nat>, lo: int, hi: Option<int>, full: int, key: int, rid: Rid)
    requires LeafOk(leaves, b, chain, lo, hi, full) && 0 < FoundPage(leaves, [b] + chain, key, rid) <= |chain|
    ensures leaves[b].recs != [] && leaves[b].recs[0].key == key
  {
    var k := FoundPage(leaves, [b] + chain, key, rid) - 1;
    assert ([b] + chain)[k + 1] == chain[k];
    assert OverflowOk(leaves, chain[k], leaves[b].recs, full);
  }

  lemma MainRemoved(leaves: seq<Node>, b: nat, chain: seq<nat>, lo: int, hi: Option<int>, full: int, key: int, rid: Rid)
    requires LeafOk(leaves, b, chain, lo, hi, full) && Shows(leaves, b, key, rid)
    ensures LeafOk(Deleted(leaves, b, chain, key, rid), b, chain, lo, hi, full) <==>
            Deletable(leaves, b, chain, key, rid)
  {
    var recs, slot := leaves[b].recs, FoundSlot(leaves[b].recs, key, rid);
    var leaves' := Deleted(leaves, b, chain, key, rid);
    FoundPageIs(leaves, [b] + chain, key, rid, 0);
    RemoveKeeps(recs, slot, lo, hi);
    ChainKept(leaves, b, RemoveAt(recs, slot), leaves[b].flag, chain);
    if Deletable(leaves, b, chain, key, rid) {
      forall k | 0 <= k < |chain|
        ensures chain[k] != b && OverflowOk(leaves', chain[k], leaves'[b].recs, full)
      {
        assert OverflowOk(leaves, chain[k], recs, full);
        assert leaves'[b].recs[0].key == recs[0].key;
      }
    } else {
      assert OverflowOk(leaves, chain[0], recs, full);
      assert leaves[chain[0]].recs[0].key == key;
      assert slot == 0;
      assert !OverflowOk(leaves', chain[0], leaves'[b].recs, full);
    }
  }

  lemma OverflowRemoved(leaves: seq<Node>, b: nat, chain: seq<nat>, lo: int, hi: Option<int>, full: int, key: int,
                        rid: Rid)
    requires LeafOk(leaves, b, chain, lo, hi, full) && !Shows(leaves, b, key, rid)
    ensures LeafOk(Deleted(leaves, b, chain, key, rid), b, chain, lo, hi, full) <==>
            Deletable(leaves, b, chain, key, rid)
  {
    var pages := [b] + chain;
    var i, leaves' := FoundPage(leaves, pages, key, rid), Deleted(leaves, b, chain, key, rid);
    if i < |pages| {
      assert Shows(leaves, pages[i], key, rid);
      var o := chain[i - 1];
      assert pages[i] == o;
      assert OverflowOk(leaves, o, leaves[b].recs, full);
      ChainedKey(leaves, b, chain, lo, hi, full, key, rid);
      ChainKept(leaves, o, leaves'[o].recs, leaves[b].flag, chain);
      if |leaves[o].recs| > 1 {
        forall k | 0 <= k < |chain|
          ensures chain[k] != b && OverflowOk(leaves', chain[k], leaves'[b].recs, full)
        {
          assert OverflowOk(leaves, chain[k], leaves[b].recs, full);
        }
      } else {
        assert !OverflowOk(leaves', chain[i - 1], leaves'[b].recs, full);
      }
    }
  }

  /** A deletion leaves the leaf in order exactly when it is one of the harmless ones. */
  lemma DeletedOk(leaves: seq<Node>, b: nat, chain: seq<nat>, lo: int, hi: Option<int>, full: int, key: int, rid: Rid)
    requires LeafOk(leaves, b, chain, lo, hi, full)
    ensures LeafOk(Deleted(leaves, b, chain, key, rid), b, chain, lo, hi, full) <==>
            Deletable(leaves, b, chain, key, rid)
  {
    if Shows(leaves, b, key, rid) {
      MainRemoved(leaves, b, chain, lo, hi, full, key, rid);
    } else {
      OverflowRemoved(leaves, b, chain, lo, hi, full, key, rid);
    }
  }
}
