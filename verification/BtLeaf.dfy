/**
 One leaf of a B-tree: a page and its chain of overflow pages, which hold nothing but the
 page's first key. A split never cuts a group of equal keys.
 */
module BtLeaves {
  import opened DbTypes
  import opened BtPages

  function RidOf(e: Entry): Rid {
    Rid(e.blk, e.id)
  }

  /** The record ids stored under key, in page order. */
  function RidsOf(recs: seq<Entry>, key: int): seq<Rid> {
    if recs == [] then []
    else (if recs[0].key == key then [RidOf(recs[0])] else []) + RidsOf(recs[1..], key)
  }

  lemma {:induction false} RidsConcat(a: seq<Entry>, b: seq<Entry>, key: int)
    ensures RidsOf(a + b, key) == RidsOf(a, key) + RidsOf(b, key)
    decreases |a|
  {
    if a == [] {
      assert a + b == b;
    } else {
      var s := a + b;
      assert s[1..] == a[1..] + b && s[0] == a[0];
      RidsConcat(a[1..], b, key);
      assert RidsOf(s, key) == (if a[0].key == key then [RidOf(a[0])] else []) + RidsOf(a[1..] + b, key);
    }
  }

  lemma {:induction false} RidsNone(recs: seq<Entry>, key: int)
    requires forall i :: 0 <= i < |recs| ==> recs[i].key != key
    ensures RidsOf(recs, key) == []
    decreases |recs|
  {
    if recs != [] {
      RidsNone(recs[1..], key);
    }
  }

  lemma {:induction false} RidsAll(recs: seq<Entry>, key: int)
    requires forall i :: 0 <= i < |recs| ==> recs[i].key == key
    ensures |RidsOf(recs, key)| == |recs| && forall i :: 0 <= i < |recs| ==> RidsOf(recs, key)[i] == RidOf(recs[i])
    decreases |recs|
  {
    if recs != [] {
      RidsAll(recs[1..], key);
    }
  }

  /** One record more means one record id more, under its own key only. */
  lemma RidsInsert(recs: seq<Entry>, i: nat, e: Entry, key: int)
    requires i <= |recs|
    ensures multiset(RidsOf(InsertAt(recs, i, e), key)) ==
            multiset(RidsOf(recs, key)) + (if e.key == key then multiset{RidOf(e)} else multiset{})
  {
    assert recs == recs[..i] + recs[i..];
    RidsConcat(recs[..i], recs[i..], key);
    RidsConcat(recs[..i] + [e], recs[i..], key);
    RidsConcat(recs[..i], [e], key);
    assert RidsOf([e], key) == if e.key == key then [RidOf(e)] else [];
  }

  lemma RidsRemove(recs: seq<Entry>, i: nat, key: int)
    requires i < |recs|
    ensures multiset(RidsOf(recs, key)) ==
            multiset(RidsOf(RemoveAt(recs, i), key)) + (if recs[i].key == key then multiset{RidOf(recs[i])} else multiset{})
  {
    assert InsertAt(RemoveAt(recs, i), i, recs[i]) == recs;
    RidsInsert(RemoveAt(recs, i), i, recs[i], key);
  }

  // ---------- overflow chains ----------

  /** From the page number f on, chain lists the overflow pages in order. */
  ghost predicate ChainOk(leaves: seq<Node>, f: int, chain: seq<nat>)
    decreases |chain|
  {
    if chain == [] then f < 0
    else chain[0] == f && chain[0] < |leaves| && ChainOk(leaves, leaves[chain[0]].flag, chain[1..])
  }

  ghost function ChainRecs(leaves: seq<Node>, chain: seq<nat>): seq<Entry>
    decreases |chain|
  {
    if chain == [] then []
    else (if chain[0] < |leaves| then leaves[chain[0]].recs else []) + ChainRecs(leaves, chain[1..])
  }

  lemma {:induction false} ChainFrame(leaves: seq<Node>, leaves': seq<Node>, f: int, chain: seq<nat>)
    requires |leaves| <= |leaves'| && ChainOk(leaves, f, chain)
    requires forall k :: 0 <= k < |chain| && chain[k] < |leaves| ==> leaves'[chain[k]] == leaves[chain[k]]
    ensures ChainOk(leaves', f, chain) && ChainRecs(leaves', chain) == ChainRecs(leaves, chain)
    decreases |chain|
  {
    if chain != [] {
      forall k | 0 <= k < |chain| - 1 && chain[1..][k] < |leaves|
        ensures leaves'[chain[1..][k]] == leaves[chain[1..][k]]
      {
        assert chain[1..][k] == chain[k + 1];
      }
      ChainFrame(leaves, leaves', leaves[chain[0]].flag, chain[1..]);
    }
  }

  lemma {:induction false} ChainKeys(leaves: seq<Node>, f: int, chain: seq<nat>, key: int)
    requires ChainOk(leaves, f, chain)
    requires forall k :: 0 <= k < |chain| && chain[k] < |leaves| ==> OnlyKey(leaves[chain[k]].recs, key)
    ensures OnlyKey(ChainRecs(leaves, chain), key)
    decreases |chain|
  {
    if chain != [] {
      forall k | 0 <= k < |chain| - 1 && chain[1..][k] < |leaves|
        ensures OnlyKey(leaves[chain[1..][k]].recs, key)
      {
        assert chain[1..][k] == chain[k + 1];
      }
      ChainKeys(leaves, leaves[chain[0]].flag, chain[1..], key);
    }
  }

  ghost predicate OnlyKey(recs: seq<Entry>, key: int) {
    forall i :: 0 <= i < |recs| ==> recs[i].key == key
  }

  // ---------- inserting into a leaf ----------

  /** The page kept, the page added if any, and the separator to tell the directory if any. */
  datatype LeafStep = LeafStep(page: Node, added: Option<Node>, sep: Option<int>)

  /** The first position behind i whose key differs from that at i. */
  function NextGroup(recs: seq<Entry>, i: nat, key: int): (p: nat)
    requires i < |recs|
    ensures i <= p <= |recs|
    ensures forall k :: i <= k < p ==> recs[k].key == key
    ensures p < |recs| ==> recs[p].key != key
    decreases |recs| - i
  {
    if recs[i].key != key then i else if i + 1 == |recs| then i + 1 else NextGroup(recs, i + 1, key)
  }

  /** The first position of the group of equal keys that reaches up to i. */
  function GroupStart(recs: seq<Entry>, i: nat, key: int): (p: nat)
    requires i < |recs|
    ensures p <= i
    ensures forall k :: p <= k < i ==> recs[k].key == key
    ensures p > 0 ==> recs[p - 1].key != key
  {
    if i == 0 || recs[i - 1].key != key then i else GroupStart(recs, i - 1, key)
  }

  /** Where a full page with at least two different keys is cut. */
  function SplitPos(recs: seq<Entry>): nat
    requires |recs| >= 2
  {
    var p := |recs| / 2;
    if recs[p].key == recs[0].key then NextGroup(recs, p, recs[p].key) else GroupStart(recs, p, recs[p].key)
  }

  lemma SplitPosOk(recs: seq<Entry>)
    requires |recs| >= 2 && Ordered(recs) && recs[0].key != recs[|recs| - 1].key
    ensures 0 < SplitPos(recs) < |recs|
    ensures recs[SplitPos(recs) - 1].key < recs[SplitPos(recs)].key
    ensures recs[0].key < recs[SplitPos(recs)].key
  {
  }

  /** The cut is the one next to the middle record's group, behind it if the group is the first one. */
  lemma SplitPosNear(recs: seq<Entry>)
    requires |recs| >= 2 && Ordered(recs) && recs[0].key != recs[|recs| - 1].key
    ensures
      var mid, s := |recs| / 2, SplitPos(recs);
      if recs[mid].key == recs[0].key
      then mid < s < |recs| && recs[s].key > recs[0].key && forall k :: 0 <= k < s ==> recs[k].key == recs[0].key
      else 0 < s <= mid && recs[s - 1].key < recs[mid].key && forall k :: s <= k <= mid ==> recs[k].key == recs[mid].key
  {
  }

  /** btree_leaf::insert on page p; a page that is added gets number newBlk. */
  function LeafInsert(p: Node, e: Entry, full: int, newBlk: nat): LeafStep {
    if p.flag >= 0 && p.recs != [] && p.recs[0].key > e.key then
      LeafStep(Node(-1, [e]), Some(Node(p.flag, p.recs)), Some(p.recs[0].key))
    else
      var r := InsertAt(p.recs, Pos(p.recs, e.key), e);
      if |r| < full || |r| < 2 then LeafStep(Node(p.flag, r), None, None)
      else if r[0].key == r[|r| - 1].key then
        LeafStep(Node(newBlk, r[..1]), Some(Node(p.flag, r[1..])), None)
      else
        var s := SplitPos(r);
        if s <= |r| && s < |r| then LeafStep(Node(p.flag, r[..s]), Some(Node(-1, r[s..])), Some(r[s].key))
        else LeafStep(Node(p.flag, r), None, None)
  }

  /** A leaf in good order whose keys lie from lo on and below hi, if given. */
  ghost predicate LeafOk(leaves: seq<Node>, b: nat, chain: seq<nat>, lo: int, hi: Option<int>, full: int) {
    && b < |leaves| && Ordered(leaves[b].recs) && |leaves[b].recs| < full
    && InRange(leaves[b].recs, lo, hi)
    && ChainOk(leaves, leaves[b].flag, chain)
    && (chain != [] ==> leaves[b].recs != [])
    && (forall k :: 0 <= k < |chain| ==> chain[k] != b && OverflowOk(leaves, chain[k], leaves[b].recs, full))
  }

  ghost predicate InRange(recs: seq<Entry>, lo: int, hi: Option<int>) {
    forall i :: 0 <= i < |recs| ==> lo <= recs[i].key && (hi.Some? ==> recs[i].key < hi.value)
  }

  /** An overflow page is never empty and holds the first key of its leaf only. */
  ghost predicate OverflowOk(leaves: seq<Node>, o: nat, recs: seq<Entry>, full: int) {
    && o < |leaves| && leaves[o].recs != [] && |leaves[o].recs| < full
    && recs != [] && OnlyKey(leaves[o].recs, recs[0].key)
  }

  /** Everything a leaf holds, in scan order. */
  ghost function LeafRecs(leaves: seq<Node>, b: nat, chain: seq<nat>): seq<Entry>
    requires b < |leaves|
  {
    leaves[b].recs + ChainRecs(leaves, chain)
  }

  lemma ChainOfLeaf(leaves: seq<Node>, b: nat, chain: seq<nat>, lo: int, hi: Option<int>, full: int)
    requires LeafOk(leaves, b, chain, lo, hi, full)
    ensures chain != [] ==> OnlyKey(ChainRecs(leaves, chain), leaves[b].recs[0].key)
    ensures chain == [] ==> ChainRecs(leaves, chain) == []
  {
    if chain != [] {
      ChainKeys(leaves, leaves[b].flag, chain, leaves[b].recs[0].key);
    }
  }

  lemma LeafFrame(leaves: seq<Node>, leaves': seq<Node>, b: nat, chain: seq<nat>, lo: int, hi: Option<int>, full: int)
    requires LeafOk(leaves, b, chain, lo, hi, full) && |leaves| <= |leaves'| && leaves'[b] == leaves[b]
    requires forall k :: 0 <= k < |chain| && chain[k] < |leaves| ==> leaves'[chain[k]] == leaves[chain[k]]
    ensures LeafOk(leaves', b, chain, lo, hi, full)
    ensures LeafRecs(leaves', b, chain) == LeafRecs(leaves, b, chain)
  {
    ChainFrame(leaves, leaves', leaves[b].flag, chain);
    forall k | 0 <= k < |chain|
      ensures chain[k] != b && OverflowOk(leaves', chain[k], leaves'[b].recs, full)
    {
      assert OverflowOk(leaves, chain[k], leaves[b].recs, full);
    }
  }
}
