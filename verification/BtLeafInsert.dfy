/** What inserting into a leaf does to the leaf, its overflow chain and the records found. */
module BtLeafInsert {
  import opened DbTypes
  import opened BtPages
  import opened BtLeaves

  /** The leaf pages after the step. */
  function After(leaves: seq<Node>, b: nat, step: LeafStep): seq<Node>
    requires b < |leaves|
  {
    leaves[b := step.page] + if step.added.Some? then [step.added.value] else []
  }

  /** The overflow chains of the page kept and of the page split off. */
  function Chains(p: Node, step: LeafStep, newBlk: nat, chain: seq<nat>): (seq<nat>, seq<nat>) {
    if step.added.None? then (chain, [])
    else if step.sep.None? then ([newBlk] + chain, [])
    else if step.page.flag == p.flag then (chain, [])
    else ([], chain)
  }

  /** One leaf with overflow chain c1, or two of them cut at sep: b with c1 and n with c2. */
  ghost predicate LeafPair(leaves: seq<Node>, b: nat, n: nat, c1: seq<nat>, c2: seq<nat>,
                           lo: int, hi: Option<int>, full: int, sep: Option<int>)
  {
    match sep
    case None => LeafOk(leaves, b, c1, lo, hi, full)
    case Some(k) =>
      && lo < k && (hi.Some? ==> k < hi.value) && n + 1 == |leaves|
      && LeafOk(leaves, b, c1, lo, Some(k), full)
      && LeafOk(leaves, n, c2, k, hi, full)
  }

  /** The records found under key by whoever looks in the right one of the leaves. */
  ghost function FoundIn(leaves: seq<Node>, b: nat, n: nat, c1: seq<nat>, c2: seq<nat>, sep: Option<int>,
                         key: int): seq<Rid>
    requires b < |leaves| && (sep.Some? ==> n < |leaves|)
  {
    if sep.Some? && key >= sep.value then RidsOf(LeafRecs(leaves, n, c2), key) else RidsOf(LeafRecs(leaves, b, c1), key)
  }

  /** found is what recs held under key, and e if that is its key. */
  ghost predicate OneMore(found: seq<Rid>, recs: seq<Entry>, e: Entry, key: int) {
    multiset(found) == multiset(RidsOf(recs, key)) + (if e.key == key then multiset{RidOf(e)} else multiset{})
  }

  // ---------- the chain of a page that changes ----------

  /** The pages other than b stay; b keeps its flag and, if it has a chain, its first key. */
  ghost predicate OnlyPage(leaves: seq<Node>, leaves': seq<Node>, b: nat, chain: seq<nat>, recs: seq<Entry>)
    requires b < |leaves|
  {
    && |leaves| <= |leaves'| && leaves'[b].recs == recs
    && (forall k: nat :: k < |leaves| && k != b ==> leaves'[k] == leaves[k])
    && (chain != [] ==> recs != [] && leaves[b].recs != [] && recs[0].key == leaves[b].recs[0].key)
  }

  lemma ChainStays(leaves: seq<Node>, leaves': seq<Node>, b: nat, chain: seq<nat>, lo: int, hi: Option<int>, full: int)
    requires LeafOk(leaves, b, chain, lo, hi, full) && |leaves| <= |leaves'|
    requires forall k: nat :: k < |leaves| && k != b ==> leaves'[k] == leaves[k]
    ensures ChainOk(leaves', leaves[b].flag, chain) && ChainRecs(leaves', chain) == ChainRecs(leaves, chain)
  {
    forall k | 0 <= k < |chain|
      ensures chain[k] != b && OverflowOk(leaves, chain[k], leaves[b].recs, full)
    {
    }
    ChainFrame(leaves, leaves', leaves[b].flag, chain);
  }

  lemma OverflowStays(leaves: seq<Node>, leaves': seq<Node>, b: nat, chain: seq<nat>, lo: int, hi: Option<int>,
                      full: int,
                      recs: seq<Entry>, k: nat)
    requires LeafOk(leaves, b, chain, lo, hi, full) && OnlyPage(leaves, leaves', b, chain, recs) && k < |chain|
    ensures chain[k] != b && chain[k] < |leaves| && OverflowOk(leaves', chain[k], recs, full)
  {
    assert OverflowOk(leaves, chain[k], leaves[b].recs, full);
  }

  /** New records on page b, same flag: the leaf is in order when the records are. */
  lemma KeptLeaf(leaves: seq<Node>, leaves': seq<Node>, b: nat, chain: seq<nat>, lo: int, hi: Option<int>, full: int,
                 recs: seq<Entry>, hi': Option<int>)
    requires LeafOk(leaves, b, chain, lo, hi, full) && OnlyPage(leaves, leaves', b, chain, recs)
    requires leaves'[b].flag == leaves[b].flag
    requires Ordered(recs) && |recs| < full && InRange(recs, lo, hi')
    ensures LeafOk(leaves', b, chain, lo, hi', full)
    ensures LeafRecs(leaves', b, chain) == recs + ChainRecs(leaves, chain)
  {
    ChainStays(leaves, leaves', b, chain, lo, hi, full);
    forall k | 0 <= k < |chain|
      ensures chain[k] != b && OverflowOk(leaves', chain[k], leaves'[b].recs, full)
    {
      OverflowStays(leaves, leaves', b, chain, lo, hi, full, recs, k);
    }
  }

  /** A page without overflow pages. */
  lemma PlainLeaf(leaves: seq<Node>, b: nat, lo: int, hi: Option<int>, full: int)
    requires b < |leaves| && leaves[b].flag == -1
    requires Ordered(leaves[b].recs) && |leaves[b].recs| < full && InRange(leaves[b].recs, lo, hi)
    ensures LeafOk(leaves, b, [], lo, hi, full) && LeafRecs(leaves, b, []) == leaves[b].recs
  {
  }

  // ---------- the records with e among them ----------

  lemma WithRecord(recs: seq<Entry>, e: Entry, lo: int, hi: Option<int>) returns (r: seq<Entry>)
    requires Ordered(recs) && InRange(recs, lo, hi) && lo <= e.key && (hi.Some? ==> e.key < hi.value)
    ensures r == InsertAt(recs, Pos(recs, e.key), e) && Ordered(r) && InRange(r, lo, hi)
    ensures recs != [] && recs[0].key <= e.key ==> r[0].key == recs[0].key
  {
    r := InsertAt(recs, Pos(recs, e.key), e);
    InsertOrdered(recs, e);
    assert forall i :: 0 <= i < |r| ==> r[i] == e || r[i] in recs;
  }

  lemma RecordFound(recs: seq<Entry>, e: Entry, rest: seq<Entry>, key: int)
    ensures OneMore(RidsOf(InsertAt(recs, Pos(recs, e.key), e) + rest, key), recs + rest, e, key)
  {
    var i := Pos(recs, e.key);
    RidsInsert(recs, i, e, key);
    RidsConcat(InsertAt(recs, i, e), rest, key);
    RidsConcat(recs, rest, key);
  }

  // ---------- case 1: a smaller key in front of a leaf with overflow pages ----------

  lemma MovedLeaf(leaves: seq<Node>, leaves': seq<Node>, b: nat, n: nat, chain: seq<nat>, lo: int, hi: Option<int>,
                  full: int, sep: int)
    requires LeafOk(leaves, b, chain, lo, hi, full) && n == |leaves| && |leaves'| == n + 1 && leaves'[n] == leaves[b]
    requires forall k: nat :: k < n && k != b ==> leaves'[k] == leaves[k]
    requires InRange(leaves[b].recs, sep, hi)
    ensures LeafOk(leaves', n, chain, sep, hi, full)
    ensures LeafRecs(leaves', n, chain) == LeafRecs(leaves, b, chain)
  {
    ChainStays(leaves, leaves', b, chain, lo, hi, full);
    forall k | 0 <= k < |chain|
      ensures chain[k] != n && OverflowOk(leaves', chain[k], leaves'[n].recs, full)
    {
      assert OverflowOk(leaves, chain[k], leaves[b].recs, full);
    }
  }

  lemma InFrontFound(leaves: seq<Node>, b: nat, chain: seq<nat>, lo: int, hi: Option<int>, full: int, e: Entry,
                     key: int)
    requires LeafOk(leaves, b, chain, lo, hi, full) && chain != [] && leaves[b].recs[0].key > e.key
    ensures key >= leaves[b].recs[0].key ==>
              OneMore(RidsOf(LeafRecs(leaves, b, chain), key), LeafRecs(leaves, b, chain), e, key)
    ensures key < leaves[b].recs[0].key ==> OneMore(RidsOf([e], key), LeafRecs(leaves, b, chain), e, key)
  {
    ChainOfLeaf(leaves, b, chain, lo, hi, full);
    if key < leaves[b].recs[0].key {
      RidsNone(LeafRecs(leaves, b, chain), key);
      assert RidsOf([e], key) == if e.key == key then [RidOf(e)] else [];
    }
  }

  // ---------- case 3: a full page of one key gets an overflow page ----------

  lemma OverflowAdded(leaves: seq<Node>, leaves': seq<Node>, b: nat, n: nat, chain: seq<nat>, lo: int, hi: Option<int>,
                      full: int,
                      r: seq<Entry>)
    requires LeafOk(leaves, b, chain, lo, hi, full) && n == |leaves| && |leaves'| == n + 1 && full >= 3
    requires 2 <= |r| <= full && OnlyKey(r, r[0].key) && InRange(r, lo, hi)
    requires OnlyPage(leaves, leaves', b, chain, r[..1])
    requires leaves'[b] == Node(n, r[..1]) && leaves'[n] == Node(leaves[b].flag, r[1..])
    ensures LeafOk(leaves', b, [n] + chain, lo, hi, full)
    ensures LeafRecs(leaves', b, [n] + chain) == r + ChainRecs(leaves, chain)
  {
    ChainStays(leaves, leaves', b, chain, lo, hi, full);
    var chain' := [n] + chain;
    assert chain'[1..] == chain;
    forall k | 0 <= k < |chain'|
      ensures chain'[k] != b && OverflowOk(leaves', chain'[k], r[..1], full)
    {
      if k > 0 {
        OverflowStays(leaves, leaves', b, chain, lo, hi, full, r[..1], k - 1);
      }
    }
    assert r == r[..1] + r[1..];
  }

  lemma OneKeyOnly(r: seq<Entry>)
    requires Ordered(r) && r != [] && r[0].key == r[|r| - 1].key
    ensures OnlyKey(r, r[0].key)
  {
  }

  // ---------- case 4: a full page is cut between two keys ----------

  /** Cutting between two keys loses nothing, whichever side a key is looked up on. */
  lemma SplitFound(r: seq<Entry>, s: nat, rest: seq<Entry>, key: int)
    requires Ordered(r) && 0 < s < |r| && r[s - 1].key < r[s].key
    requires rest != [] ==> OnlyKey(rest, r[0].key)
    ensures key >= r[s].key ==> RidsOf(r[s..], key) == RidsOf(r + rest, key)
    ensures key < r[s].key ==> RidsOf(r[..s] + rest, key) == RidsOf(r + rest, key)
  {
    assert r == r[..s] + r[s..];
    RidsConcat(r[..s], r[s..], key);
    RidsConcat(r, rest, key);
    RidsConcat(r[..s], rest, key);
    if key >= r[s].key {
      RidsNone(r[..s], key);
      RidsNone(rest, key);
    } else {
      RidsNone(r[s..], key);
    }
  }

  lemma CutRanges(r: seq<Entry>, s: nat, lo: int, hi: Option<int>)
    requires Ordered(r) && InRange(r, lo, hi) && 0 < s < |r| && r[s - 1].key < r[s].key
    ensures Ordered(r[..s]) && Ordered(r[s..]) && InRange(r[..s], lo, Some(r[s].key)) && InRange(r[s..], r[s].key, hi)
    ensures lo < r[s].key && (hi.Some? ==> r[s].key < hi.value)
  {
  }

  // ---------- all cases ----------

  /** What inserting e into a leaf in order must achieve. */
  ghost predicate LeafGrew(leaves: seq<Node>, b: nat, chain: seq<nat>, lo: int, hi: Option<int>, full: int,
                           step: LeafStep)
    requires b < |leaves|
  {
    var cs := Chains(leaves[b], step, |leaves|, chain);
    LeafPair(After(leaves, b, step), b, |leaves|, cs.0, cs.1, lo, hi, full, step.sep)
  }

  ghost predicate FoundGrew(leaves: seq<Node>, b: nat, chain: seq<nat>, e: Entry, step: LeafStep, key: int)
    requires b < |leaves| && (step.sep.Some? ==> step.added.Some?)
  {
    var cs := Chains(leaves[b], step, |leaves|, chain);
    OneMore(FoundIn(After(leaves, b, step), b, |leaves|, cs.0, cs.1, step.sep, key), LeafRecs(leaves, b, chain), e, key)
  }

  ghost predicate TakesRecord(leaves: seq<Node>, b: nat, chain: seq<nat>, lo: int, hi: Option<int>, full: int,
                              e: Entry) {
    LeafOk(leaves, b, chain, lo, hi, full) && full >= 3 && lo <= e.key && (hi.Some? ==> e.key < hi.value)
  }

  lemma InsertInFront(leaves: seq<Node>, b: nat, chain: seq<nat>, lo: int, hi: Option<int>, full: int, e: Entry,
                      key: int)
    requires TakesRecord(leaves, b, chain, lo, hi, full, e) && chain != [] && leaves[b].recs[0].key > e.key
    ensures LeafGrew(leaves, b, chain, lo, hi, full, LeafInsert(leaves[b], e, full, |leaves|))
    ensures FoundGrew(leaves, b, chain, e, LeafInsert(leaves[b], e, full, |leaves|), key)
  {
    var step, n, sep := LeafInsert(leaves[b], e, full, |leaves|), |leaves|, leaves[b].recs[0].key;
    var leaves' := After(leaves, b, step);
    assert step == LeafStep(Node(-1, [e]), Some(leaves[b]), Some(sep));
    MovedLeaf(leaves, leaves', b, n, chain, lo, hi, full, sep);
    PlainLeaf(leaves', b, lo, Some(sep), full);
    InFrontFound(leaves, b, chain, lo, hi, full, e, key);
  }

  lemma InsertWithRoom(leaves: seq<Node>, b: nat, chain: seq<nat>, lo: int, hi: Option<int>, full: int, e: Entry,
                       key: int)
    requires TakesRecord(leaves, b, chain, lo, hi, full, e) && |leaves[b].recs| + 1 < full
    requires chain != [] ==> leaves[b].recs[0].key <= e.key
    ensures LeafGrew(leaves, b, chain, lo, hi, full, LeafInsert(leaves[b], e, full, |leaves|))
    ensures FoundGrew(leaves, b, chain, e, LeafInsert(leaves[b], e, full, |leaves|), key)
  {
    var step := LeafInsert(leaves[b], e, full, |leaves|);
    var r := WithRecord(leaves[b].recs, e, lo, hi);
    assert step == LeafStep(Node(leaves[b].flag, r), None, None);
    KeptLeaf(leaves, After(leaves, b, step), b, chain, lo, hi, full, r, hi);
    RecordFound(leaves[b].recs, e, ChainRecs(leaves, chain), key);
  }

  lemma InsertOverflow(leaves: seq<Node>, b: nat, chain: seq<nat>, lo: int, hi: Option<int>, full: int, e: Entry,
                       r: seq<Entry>, key: int)
    requires TakesRecord(leaves, b, chain, lo, hi, full, e)
    requires chain != [] ==> leaves[b].recs[0].key <= e.key
    requires r == InsertAt(leaves[b].recs, Pos(leaves[b].recs, e.key), e) && |r| == full && r[0].key == r[|r| - 1].key
    ensures LeafGrew(leaves, b, chain, lo, hi, full, LeafInsert(leaves[b], e, full, |leaves|))
    ensures FoundGrew(leaves, b, chain, e, LeafInsert(leaves[b], e, full, |leaves|), key)
  {
    var step, n := LeafInsert(leaves[b], e, full, |leaves|), |leaves|;
    assert step == LeafStep(Node(n, r[..1]), Some(Node(leaves[b].flag, r[1..])), None);
    OverflowPages(leaves, After(leaves, b, step), b, chain, lo, hi, full, e, r);
    RecordFound(leaves[b].recs, e, ChainRecs(leaves, chain), key);
  }

  lemma OverflowPages(leaves: seq<Node>, leaves': seq<Node>, b: nat, chain: seq<nat>, lo: int, hi: Option<int>,
                      full: int,
                      e: Entry, r: seq<Entry>)
    requires TakesRecord(leaves, b, chain, lo, hi, full, e)
    requires chain != [] ==> leaves[b].recs[0].key <= e.key
    requires r == InsertAt(leaves[b].recs, Pos(leaves[b].recs, e.key), e) && |r| == full && r[0].key == r[|r| - 1].key
    requires leaves' == leaves[b := Node(|leaves|, r[..1])] + [Node(leaves[b].flag, r[1..])]
    ensures LeafOk(leaves', b, [|leaves|] + chain, lo, hi, full)
    ensures LeafRecs(leaves', b, [|leaves|] + chain) == r + ChainRecs(leaves, chain)
  {
    var r' := WithRecord(leaves[b].recs, e, lo, hi);
    OneKeyOnly(r);
    OverflowAdded(leaves, leaves', b, |leaves|, chain, lo, hi, full, r);
  }

  lemma InsertSplit(leaves: seq<Node>, b: nat, chain: seq<nat>, lo: int, hi: Option<int>, full: int, e: Entry,
                    r: seq<Entry>, key: int)
    requires TakesRecord(leaves, b, chain, lo, hi, full, e)
    requires chain != [] ==> leaves[b].recs[0].key <= e.key
    requires r == InsertAt(leaves[b].recs, Pos(leaves[b].recs, e.key), e) && |r| == full && r[0].key != r[|r| - 1].key
    ensures LeafGrew(leaves, b, chain, lo, hi, full, LeafInsert(leaves[b], e, full, |leaves|))
    ensures FoundGrew(leaves, b, chain, e, LeafInsert(leaves[b], e, full, |leaves|), key)
  {
    var step, n, s := LeafInsert(leaves[b], e, full, |leaves|), |leaves|, SplitPos(r);
    var r' := WithRecord(leaves[b].recs, e, lo, hi);
    var leaves' := After(leaves, b, step);
    SplitPosOk(r);
    CutRanges(r, s, lo, hi);
    assert step == LeafStep(Node(leaves[b].flag, r[..s]), Some(Node(-1, r[s..])), Some(r[s].key));
    ChainOfLeaf(leaves, b, chain, lo, hi, full);
    KeptLeaf(leaves, leaves', b, chain, lo, hi, full, r[..s], Some(r[s].key));
    PlainLeaf(leaves', n, r[s].key, hi, full);
    SplitFound(r, s, ChainRecs(leaves, chain), key);
    RecordFound(leaves[b].recs, e, ChainRecs(leaves, chain), key);
  }

  lemma LeafInsertOk(leaves: seq<Node>, b: nat, chain: seq<nat>, lo: int, hi: Option<int>, full: int, e: Entry,
                     key: int)
    requires TakesRecord(leaves, b, chain, lo, hi, full, e)
    ensures LeafGrew(leaves, b, chain, lo, hi, full, LeafInsert(leaves[b], e, full, |leaves|))
    ensures FoundGrew(leaves, b, chain, e, LeafInsert(leaves[b], e, full, |leaves|), key)
  {
    var p := leaves[b];
    var r := InsertAt(p.recs, Pos(p.recs, e.key), e);
    if chain != [] && p.recs[0].key > e.key {
      InsertInFront(leaves, b, chain, lo, hi, full, e, key);
    } else if |r| < full {
      InsertWithRoom(leaves, b, chain, lo, hi, full, e, key);
    } else if r[0].key == r[|r| - 1].key {
      InsertOverflow(leaves, b, chain, lo, hi, full, e, r, key);
    } else {
      InsertSplit(leaves, b, chain, lo, hi, full, e, r, key);
    }
  }
}
