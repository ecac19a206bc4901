/**
 The leaves of a B-tree together: every key has one home leaf, and what is found there grows
 by exactly the record inserted and shrinks by exactly the record deleted.
 */
module BtCovers {
  import opened DbTypes
  import opened BtPages
  import opened BtTrees
  import opened BtTreeInsert
  import opened BtDirs
  import opened BtLeaves
  import opened BtLeafInsert

  /**
   The separators, the leaf file, each leaf's overflow chain, and for every leaf or overflow
   page the separator of the leaf it belongs to.
   */
  datatype Cover = Cover(seps: seq<Entry>, leaves: seq<Node>, chains: seq<seq<nat>>, owner: seq<int>)

  function Hi(seps: seq<Entry>, i: nat): Option<int> {
    if i + 1 < |seps| then Some(seps[i + 1].key) else None
  }

  ghost predicate Mine(owner: seq<int>, b: nat, chain: seq<nat>, key: int) {
    b < |owner| && owner[b] == key && forall k :: 0 <= k < |chain| ==> chain[k] < |owner| && owner[chain[k]] == key
  }

  ghost predicate LeafIn(leaves: seq<Node>, owner: seq<int>, full: int, sep: Entry, hi: Option<int>, chain: seq<nat>) {
    sep.blk >= 0 && LeafOk(leaves, sep.blk, chain, sep.key, hi, full) && Mine(owner, sep.blk, chain, sep.key)
  }

  ghost predicate LeafAt(c: Cover, full: int, i: nat) {
    i < |c.seps| && |c.chains| == |c.seps| && LeafIn(c.leaves, c.owner, full, c.seps[i], Hi(c.seps, i), c.chains[i])
  }

  ghost predicate Covered(c: Cover, full: int) {
    && full >= 3 && |c.chains| == |c.seps| > 0 && |c.owner| == |c.leaves|
    && Increasing(c.seps) && c.seps[0].key == MIN_KEY
    && forall i: nat :: i < |c.seps| ==> LeafAt(c, full, i)
  }

  /** The leaf that key belongs to. */
  ghost function Home(c: Cover, full: int, key: int): (i: nat)
    requires Covered(c, full) && key >= MIN_KEY
    ensures i < |c.seps| && LeafAt(c, full, i) && c.seps[i].key <= key
    ensures Hi(c.seps, i).Some? ==> key < Hi(c.seps, i).value
  {
    Upto(c.seps, key) - 1
  }

  /** The record ids stored under key. */
  ghost function Lookup(c: Cover, full: int, key: int): seq<Rid>
    requires Covered(c, full) && key >= MIN_KEY
  {
    var i := Home(c, full, key);
    RidsOf(LeafRecs(c.leaves, c.seps[i].blk, c.chains[i]), key)
  }

  lemma HomeIs(c: Cover, full: int, key: int, i: nat)
    requires Covered(c, full) && key >= MIN_KEY && i < |c.seps|
    requires c.seps[i].key <= key && (Hi(c.seps, i).Some? ==> key < Hi(c.seps, i).value)
    ensures Home(c, full, key) == i
  {
    UptoUnique(c.seps, key, i + 1);
  }

  // ---------- leaves apart from the one that changes ----------

  /** Only pages of leaf i changed, and pages of other leaves keep their owner. */
  ghost predicate OnlyLeaf(c: Cover, leaves': seq<Node>, owner': seq<int>, i: nat)
    requires i < |c.seps|
  {
    && |c.owner| == |c.leaves| <= |leaves'| == |owner'|
    && (forall x: nat :: x < |c.leaves| && c.owner[x] != c.seps[i].key ==> leaves'[x] == c.leaves[x])
    && (forall x: nat :: x < |c.owner| && c.owner[x] != c.seps[i].key ==> owner'[x] == c.owner[x])
  }

  lemma OtherLeaf(c: Cover, full: int, leaves': seq<Node>, owner': seq<int>, i: nat, j: nat)
    requires Covered(c, full) && i < |c.seps| && j < |c.seps| && i != j && OnlyLeaf(c, leaves', owner', i)
    ensures LeafAt(c, full, j)
    ensures LeafIn(leaves', owner', full, c.seps[j], Hi(c.seps, j), c.chains[j])
    ensures LeafRecs(leaves', c.seps[j].blk, c.chains[j]) == LeafRecs(c.leaves, c.seps[j].blk, c.chains[j])
  {
    var b, chain := c.seps[j].blk, c.chains[j];
    assert LeafAt(c, full, i) && LeafAt(c, full, j);
    assert c.seps[i].key != c.seps[j].key;
    assert c.owner[c.seps[i].blk] == c.seps[i].key;
    forall k | 0 <= k < |chain|
      ensures chain[k] < |c.owner| && owner'[chain[k]] == c.seps[j].key && leaves'[chain[k]] == c.leaves[chain[k]]
    {
      assert c.owner[chain[k]] == c.seps[j].key;
    }
    LeafFrame(c.leaves, leaves', b, chain, c.seps[j].key, Hi(c.seps, j), full);
  }

  /**
   No key is in two leaves: every record is in the home leaf of its key, and on an overflow page only
   if that is the first key of its leaf. No page is full.
   */
  lemma KeyInHome(c: Cover, full: int, i: nat, k: nat)
    requires Covered(c, full) && i < |c.seps| && LeafAt(c, full, i)
    requires k < |LeafRecs(c.leaves, c.seps[i].blk, c.chains[i])|
    ensures
      var b := c.seps[i].blk;
      var key := LeafRecs(c.leaves, b, c.chains[i])[k].key;
      && key >= MIN_KEY && Home(c, full, key) == i
      && (k >= |c.leaves[b].recs| ==> c.leaves[b].recs != [] && key == c.leaves[b].recs[0].key)
      && |c.leaves[b].recs| < full
  {
    var b, chain := c.seps[i].blk, c.chains[i];
    ChainOfLeaf(c.leaves, b, chain, c.seps[i].key, Hi(c.seps, i), full);
    assert i > 0 ==> c.seps[0].key < c.seps[i].key;
    HomeIs(c, full, LeafRecs(c.leaves, b, chain)[k].key, i);
  }

  // ---------- inserting ----------

  function OwnerAfter(owner: seq<int>, lo: int, step: LeafStep, moved: seq<nat>): seq<int> {
    if step.added.None? then owner
    else seq(|owner|, x requires 0 <= x < |owner| => if step.sep.Some? && x in moved then step.sep.value else owner[x])
         + [if step.sep.Some? then step.sep.value else lo]
  }

  /** The cover after e went into leaf i. */
  ghost function GrownAt(c: Cover, full: int, e: Entry, i: nat): Cover
    requires i < |c.seps| == |c.chains| && 0 <= c.seps[i].blk < |c.leaves|
  {
    var b, n := c.seps[i].blk, |c.leaves|;
    var step := LeafInsert(c.leaves[b], e, full, n);
    var cs := Chains(c.leaves[b], step, n, c.chains[i]);
    Cover(if step.sep.Some? then InsertAt(c.seps, i + 1, DirEntry(step.sep.value, n)) else c.seps,
          After(c.leaves, b, step),
          if step.sep.Some? then InsertAt(c.chains[i := cs.0], i + 1, cs.1) else c.chains[i := cs.0],
          OwnerAfter(c.owner, c.seps[i].key, step, cs.1))
  }

  ghost function Grown(c: Cover, full: int, e: Entry): Cover
    requires Covered(c, full) && e.key >= MIN_KEY
  {
    GrownAt(c, full, e, Home(c, full, e.key))
  }

  lemma OwnersAfter(c: Cover, full: int, e: Entry, i: nat)
    requires Covered(c, full) && i < |c.seps| && LeafAt(c, full, i)
    requires TakesRecord(c.leaves, c.seps[i].blk, c.chains[i], c.seps[i].key, Hi(c.seps, i), full, e)
    ensures OnlyLeaf(c, GrownAt(c, full, e, i).leaves, GrownAt(c, full, e, i).owner, i)
    ensures
      var b, n := c.seps[i].blk, |c.leaves|;
      var step := LeafInsert(c.leaves[b], e, full, n);
      var cs := Chains(c.leaves[b], step, n, c.chains[i]);
      var owner' := GrownAt(c, full, e, i).owner;
      Mine(owner', b, cs.0, c.seps[i].key) && (step.sep.Some? ==> Mine(owner', n, cs.1, step.sep.value))
  {
    var b, n := c.seps[i].blk, |c.leaves|;
    assert Mine(c.owner, b, c.chains[i], c.seps[i].key);
  }

  /** Leaf i took a record: c' has its leaf, perhaps a new right neighbour from sep on, and every other leaf as before. */
  ghost predicate Stepped(c: Cover, c': Cover, full: int, i: nat, sep: Option<int>)
    requires i < |c.seps| == |c.chains|
  {
    && OnlyLeaf(c, c'.leaves, c'.owner, i)
    && c'.seps == (if sep.Some? then InsertAt(c.seps, i + 1, DirEntry(sep.value, |c.leaves|)) else c.seps)
    && |c'.chains| == |c'.seps|
    && (forall k: nat :: k < i ==> c'.chains[k] == c.chains[k])
    && (forall k: nat :: i < k < |c.seps| ==> c'.chains[if sep.Some? then k + 1 else k] == c.chains[k])
    && LeafIn(c'.leaves, c'.owner, full, c.seps[i], if sep.Some? then sep else Hi(c.seps, i), c'.chains[i])
    && (sep.Some? ==>
          && c.seps[i].key < sep.value && (Hi(c.seps, i).Some? ==> sep.value < Hi(c.seps, i).value)
          && LeafIn(c'.leaves, c'.owner, full, DirEntry(sep.value, |c.leaves|), Hi(c.seps, i), c'.chains[i + 1]))
  }

  /** Does leaf i take e, and where is it cut? */
  ghost predicate Takes(c: Cover, full: int, e: Entry, i: nat, sep: Option<int>) {
    && Covered(c, full) && i < |c.seps| && LeafAt(c, full, i)
    && TakesRecord(c.leaves, c.seps[i].blk, c.chains[i], c.seps[i].key, Hi(c.seps, i), full, e)
    && sep == LeafInsert(c.leaves[c.seps[i].blk], e, full, |c.leaves|).sep
  }

  /** The separators and chains around the leaf that took e. */
  lemma GrownShape(c: Cover, full: int, e: Entry, i: nat, sep: Option<int>)
    requires i < |c.seps| == |c.chains| && 0 <= c.seps[i].blk < |c.leaves|
    requires sep == LeafInsert(c.leaves[c.seps[i].blk], e, full, |c.leaves|).sep
    ensures
      var c' := GrownAt(c, full, e, i);
      var cs := Chains(c.leaves[c.seps[i].blk], LeafInsert(c.leaves[c.seps[i].blk], e, full, |c.leaves|), |c.leaves|, c.chains[i]);
      && c'.seps == (if sep.Some? then InsertAt(c.seps, i + 1, DirEntry(sep.value, |c.leaves|)) else c.seps)
      && |c'.chains| == |c'.seps|
      && (forall k: nat :: k < i ==> c'.chains[k] == c.chains[k])
      && (forall k: nat :: i < k < |c.seps| ==> c'.chains[if sep.Some? then k + 1 else k] == c.chains[k])
      && c'.chains[i] == cs.0 && (sep.Some? ==> c'.chains[i + 1] == cs.1)
  {
  }

  /** The leaf that took e and its new right neighbour. */
  lemma GrownLeaves(c: Cover, full: int, e: Entry, i: nat, sep: Option<int>)
    requires Takes(c, full, e, i, sep)
    ensures
      var c' := GrownAt(c, full, e, i);
      var cs := Chains(c.leaves[c.seps[i].blk], LeafInsert(c.leaves[c.seps[i].blk], e, full, |c.leaves|), |c.leaves|, c.chains[i]);
      && LeafIn(c'.leaves, c'.owner, full, c.seps[i], if sep.Some? then sep else Hi(c.seps, i), cs.0)
      && (sep.Some? ==>
            && c.seps[i].key < sep.value && (Hi(c.seps, i).Some? ==> sep.value < Hi(c.seps, i).value)
            && LeafIn(c'.leaves, c'.owner, full, DirEntry(sep.value, |c.leaves|), Hi(c.seps, i), cs.1))
  {
    LeafInsertOk(c.leaves, c.seps[i].blk, c.chains[i], c.seps[i].key, Hi(c.seps, i), full, e, e.key);
    OwnersAfter(c, full, e, i);
  }

  lemma GrownStepped(c: Cover, full: int, e: Entry, i: nat, sep: Option<int>)
    requires Takes(c, full, e, i, sep)
    ensures Stepped(c, GrownAt(c, full, e, i), full, i, sep)
  {
    GrownShape(c, full, e, i, sep);
    GrownLeaves(c, full, e, i, sep);
    OwnersAfter(c, full, e, i);
  }

  /** Leaf k of c' is leaf j of c, untouched. */
  lemma SteppedOther(c: Cover, c': Cover, full: int, i: nat, sep: Option<int>, j: nat, k: nat)
    requires Covered(c, full) && i < |c.seps| && Stepped(c, c', full, i, sep) && j < |c.seps| && j != i
    requires k == if sep.Some? && j > i then j + 1 else j
    ensures k < |c'.seps| && c'.seps[k] == c.seps[j] && c'.chains[k] == c.chains[j] && Hi(c'.seps, k) == Hi(c.seps, j)
  {
  }

  lemma SteppedLeafAt(c: Cover, c': Cover, full: int, i: nat, sep: Option<int>, k: nat)
    requires Covered(c, full) && i < |c.seps| && Stepped(c, c', full, i, sep) && k < |c'.seps|
    ensures LeafAt(c', full, k)
  {
    if k == i {
      assert c'.seps[k] == c.seps[i] && Hi(c'.seps, k) == if sep.Some? then sep else Hi(c.seps, i);
    } else if sep.Some? && k == i + 1 {
      assert c'.seps[k] == DirEntry(sep.value, |c.leaves|) && Hi(c'.seps, k) == Hi(c.seps, i);
    } else {
      var j := if sep.Some? && k > i then k - 1 else k;
      SteppedOther(c, c', full, i, sep, j, k);
      OtherLeaf(c, full, c'.leaves, c'.owner, i, j);
    }
  }

  lemma SteppedSeps(c: Cover, c': Cover, full: int, i: nat, sep: Option<int>)
    requires Covered(c, full) && i < |c.seps| && Stepped(c, c', full, i, sep)
    ensures Increasing(c'.seps)
    ensures sep.Some? ==> sep.value >= MIN_KEY && Upto(c.seps, sep.value) == i + 1 && Absent(c.seps, sep.value)
  {
    if sep.Some? {
      NewSep(c.seps, i, DirEntry(sep.value, |c.leaves|));
    }
  }

  lemma NewSep(seps: seq<Entry>, i: nat, e: Entry)
    requires Increasing(seps) && i < |seps| && seps[i].key < e.key && (Hi(seps, i).Some? ==> e.key < Hi(seps, i).value)
    ensures Increasing(InsertAt(seps, i + 1, e))
    ensures e.key >= seps[0].key && Upto(seps, e.key) == i + 1 && Absent(seps, e.key)
  {
    UptoUnique(seps, e.key, i + 1);
    forall k | 0 <= k < |seps|
      ensures seps[k].key != e.key && (k <= i ==> seps[k].key < e.key) && (k > i ==> e.key < seps[k].key)
    {
      assert k < i ==> seps[k].key < seps[i].key;
      assert k > i + 1 ==> seps[i + 1].key < seps[k].key;
    }
  }

  lemma SteppedCovered(c: Cover, c': Cover, full: int, i: nat, sep: Option<int>)
    requires Covered(c, full) && i < |c.seps| && Stepped(c, c', full, i, sep)
    ensures Covered(c', full)
  {
    SteppedSeps(c, c', full, i, sep);
    forall k: nat | k < |c'.seps|
      ensures LeafAt(c', full, k)
    {
      SteppedLeafAt(c, c', full, i, sep, k);
    }
  }

  /** Where a key that belonged to leaf j is found once leaf i took a record. */
  ghost function HomeAfter(i: nat, j: nat, sep: Option<int>, key: int): nat {
    if sep.Some? && (j > i || (j == i && key >= sep.value)) then j + 1 else j
  }

  lemma HomeMoved(c: Cover, c': Cover, full: int, i: nat, sep: Option<int>, key: int)
    requires Covered(c, full) && i < |c.seps| && Stepped(c, c', full, i, sep) && Covered(c', full) && key >= MIN_KEY
    ensures Home(c', full, key) == HomeAfter(i, Home(c, full, key), sep, key)
  {
    var j := Home(c, full, key);
    HomeRange(c, full, key);
    MovedRange(c.seps, c'.seps, i, sep, |c.leaves|, j, key);
    HomeIs(c', full, key, HomeAfter(i, j, sep, key));
  }

  lemma HomeRange(c: Cover, full: int, key: int)
    requires Covered(c, full) && key >= MIN_KEY
    ensures
      var j := Home(c, full, key);
      j < |c.seps| && c.seps[j].key <= key && (Hi(c.seps, j).Some? ==> key < Hi(c.seps, j).value)
  {
  }

  /** The key lies in the range of its new leaf. */
  lemma MovedRange(seps: seq<Entry>, seps': seq<Entry>, i: nat, sep: Option<int>, n: int, j: nat, key: int)
    requires Increasing(seps) && i < |seps| && j < |seps|
    requires seps' == if sep.Some? then InsertAt(seps, i + 1, DirEntry(sep.value, n)) else seps
    requires seps[j].key <= key && (Hi(seps, j).Some? ==> key < Hi(seps, j).value)
    requires sep.Some? ==> seps[i].key < sep.value && (Hi(seps, i).Some? ==> sep.value < Hi(seps, i).value)
    ensures
      var k := HomeAfter(i, j, sep, key);
      k < |seps'| && seps'[k].key <= key && (Hi(seps', k).Some? ==> key < Hi(seps', k).value)
  {
  }

  lemma LookupElsewhere(c: Cover, c': Cover, full: int, i: nat, sep: Option<int>, key: int)
    requires Covered(c, full) && i < |c.seps| && Stepped(c, c', full, i, sep) && Covered(c', full) && key >= MIN_KEY
    requires Home(c, full, key) != i
    ensures Lookup(c', full, key) == Lookup(c, full, key)
  {
    var j := Home(c, full, key);
    HomeMoved(c, c', full, i, sep, key);
    SteppedOther(c, c', full, i, sep, j, HomeAfter(i, j, sep, key));
    OtherLeaf(c, full, c'.leaves, c'.owner, i, j);
  }

  lemma LookupHere(c: Cover, c': Cover, full: int, e: Entry, i: nat, sep: Option<int>, key: int)
    requires Takes(c, full, e, i, sep) && c' == GrownAt(c, full, e, i)
    requires Stepped(c, c', full, i, sep) && Covered(c', full) && key >= MIN_KEY && Home(c, full, key) == i
    ensures OneMore(Lookup(c', full, key), LeafRecs(c.leaves, c.seps[i].blk, c.chains[i]), e, key)
  {
    LeafInsertOk(c.leaves, c.seps[i].blk, c.chains[i], c.seps[i].key, Hi(c.seps, i), full, e, key);
    HomeMoved(c, c', full, i, sep, key);
    FoundAfter(c, c', full, e, i, sep, key);
  }

  lemma FoundAfter(c: Cover, c': Cover, full: int, e: Entry, i: nat, sep: Option<int>, key: int)
    requires Takes(c, full, e, i, sep) && c' == GrownAt(c, full, e, i) && Stepped(c, c', full, i, sep)
    requires FoundGrew(c.leaves, c.seps[i].blk, c.chains[i], e, LeafInsert(c.leaves[c.seps[i].blk], e, full, |c.leaves|), key)
    ensures
      var j := if sep.Some? && key >= sep.value then i + 1 else i;
      && j < |c'.seps| && 0 <= c'.seps[j].blk < |c'.leaves|
      && OneMore(RidsOf(LeafRecs(c'.leaves, c'.seps[j].blk, c'.chains[j]), key), LeafRecs(c.leaves, c.seps[i].blk, c.chains[i]), e, key)
  {
    GrownShape(c, full, e, i, sep);
    var b, n := c.seps[i].blk, |c.leaves|;
    var cs := Chains(c.leaves[b], LeafInsert(c.leaves[b], e, full, n), n, c.chains[i]);
    assert OneMore(FoundIn(c'.leaves, b, n, cs.0, cs.1, sep, key), LeafRecs(c.leaves, b, c.chains[i]), e, key);
    if sep.Some? && key >= sep.value {
      assert c'.seps[i + 1].blk == n && c'.chains[i + 1] == cs.1;
    } else {
      assert c'.seps[i].blk == b && c'.chains[i] == cs.0;
    }
  }

  /** Insertion keeps the whole file of leaves in order. */
  lemma GrownCovered(c: Cover, full: int, e: Entry)
    requires Covered(c, full) && e.key >= MIN_KEY
    ensures Covered(Grown(c, full, e), full)
  {
    var i := Home(c, full, e.key);
    var sep := LeafInsert(c.leaves[c.seps[i].blk], e, full, |c.leaves|).sep;
    GrownStepped(c, full, e, i, sep);
    SteppedCovered(c, Grown(c, full, e), full, i, sep);
  }

  /** After inserting, a lookup of any key finds what it found before, and the new record under its own key. */
  lemma GrownLookup(c: Cover, full: int, e: Entry, key: int)
    requires Covered(c, full) && e.key >= MIN_KEY && key >= MIN_KEY
    ensures Covered(Grown(c, full, e), full)
    ensures multiset(Lookup(Grown(c, full, e), full, key)) ==
            multiset(Lookup(c, full, key)) + (if e.key == key then multiset{RidOf(e)} else multiset{})
  {
    GrownCovered(c, full, e);
    var i, c' := Home(c, full, e.key), Grown(c, full, e);
    var sep := LeafInsert(c.leaves[c.seps[i].blk], e, full, |c.leaves|).sep;
    GrownStepped(c, full, e, i, sep);
    if Home(c, full, key) == i {
      LookupHere(c, c', full, e, i, sep, key);
    } else {
      LookupElsewhere(c, c', full, i, sep, key);
    }
  }
}
