/** The blocks of a directory file: no page belongs to two places, and inserting keeps it so. */
module BtBlocks {
  import opened BtPages
  import opened BtTrees
  import opened BtTreeInsert

  /** Block b is one of t's pages. */
  ghost predicate Has(t: DTree, b: nat)
    decreases t
  {
    t.blk == b || (t.High? && exists i :: 0 <= i < |t.kids| && Has(t.kids[i], b))
  }

  ghost predicate Apart(s: DTree, t: DTree) {
    forall b: nat :: !(Has(s, b) && Has(t, b))
  }

  ghost predicate AllApart(kids: seq<DTree>, t: DTree) {
    forall k :: 0 <= k < |kids| ==> Apart(kids[k], t)
  }

  ghost predicate Below(t: DTree, n: nat) {
    forall b: nat :: Has(t, b) ==> b < n
  }

  /** Every page of t occurs in it once. */
  ghost predicate Separate(t: DTree)
    decreases t
  {
    t.High? ==>
      && (forall i :: 0 <= i < |t.kids| ==> Separate(t.kids[i]) && !Has(t.kids[i], t.blk))
      && (forall i, j :: 0 <= i < j < |t.kids| ==> Apart(t.kids[i], t.kids[j]))
  }

  /** What inserting does to the blocks: new pages come from next on. */
  ghost predicate BlocksGrew(t: DTree, next: nat, r: Ins) {
    && next <= r.next
    && Separate(r.left) && r.left.blk == t.blk
    && (forall b: nat :: Has(r.left, b) ==> Has(t, b) || next <= b < r.next)
    && (r.right.Some? ==>
          && Separate(r.right.value) && Apart(r.left, r.right.value)
          && (forall b: nat :: Has(r.right.value, b) ==> Has(t, b) || next <= b < r.next))
  }

  lemma InsertLowBlocks(blk: nat, recs: seq<Entry>, e: Entry, full: int, next: nat)
    requires blk < next
    ensures BlocksGrew(Low(blk, recs), next, InsertLow(blk, recs, e, full, next))
  {
  }

  /** The child list after child i was replaced and, if it split, joined by its right half. */
  ghost predicate KidsOk(t: DTree, next: nat, next': nat, kids: seq<DTree>) {
    && (forall k :: 0 <= k < |kids| ==> Separate(kids[k]) && KidIn(t, next, next', kids[k]))
    && (forall k, m :: 0 <= k < m < |kids| ==> Apart(kids[k], kids[m]))
  }

  /** A child uses blocks of t other than its root, or new ones. */
  ghost predicate KidIn(t: DTree, next: nat, next': nat, kid: DTree) {
    forall b: nat :: Has(kid, b) ==> b != t.blk && (Has(t, b) || next <= b < next')
  }

  lemma KidsAfter(t: DTree, next: nat, i: nat, sub: Ins)
    requires t.High? && Separate(t) && Below(t, next) && i < |t.kids| && BlocksGrew(t.kids[i], next, sub)
    ensures KidsOk(t, next, sub.next, t.kids[i := sub.left])
    ensures sub.right.Some? ==>
              && KidIn(t, next, sub.next, sub.right.value)
              && AllApart(t.kids[i := sub.left], sub.right.value)
  {
    var kids := t.kids[i := sub.left];
    forall k | 0 <= k < |kids|
      ensures Separate(kids[k]) && KidIn(t, next, sub.next, kids[k])
      ensures sub.right.Some? ==> Apart(kids[k], sub.right.value)
    {
      assert Has(t, t.blk) && !Has(t.kids[i], t.blk);
      assert forall b: nat :: Has(t.kids[k], b) ==> Has(t, b);
      assert forall b: nat :: Has(t.kids[i], b) ==> Has(t, b);
      assert k < i ==> Apart(t.kids[k], t.kids[i]);
      assert i < k ==> Apart(t.kids[i], t.kids[k]);
    }
    forall k, m | 0 <= k < m < |kids|
      ensures Apart(kids[k], kids[m])
    {
      assert Apart(t.kids[k], t.kids[m]);
      assert forall b: nat :: Has(t.kids[k], b) ==> Has(t, b);
      assert forall b: nat :: Has(t.kids[m], b) ==> Has(t, b);
    }
    if sub.right.Some? {
      assert forall b: nat :: Has(t.kids[i], b) ==> Has(t, b);
      assert Has(t, t.blk) && !Has(t.kids[i], t.blk);
    }
  }

  lemma KidsInsert(t: DTree, next: nat, next': nat, kids: seq<DTree>, slot: nat, child: DTree)
    requires KidsOk(t, next, next', kids) && slot <= |kids|
    requires Separate(child) && KidIn(t, next, next', child)
    requires AllApart(kids, child)
    ensures KidsOk(t, next, next', InsertAt(kids, slot, child))
  {
    var kids2 := InsertAt(kids, slot, child);
    forall k | 0 <= k < |kids2|
      ensures kids2[k] == if k < slot then kids[k] else if k == slot then child else kids[k - 1]
    {
    }
  }

  /** A page over a slice of the children. */
  lemma PageOver(t: DTree, next: nat, next': nat, kids: seq<DTree>, lo: nat, hi: nat, blk: nat, keys: seq<int>)
    requires KidsOk(t, next, next', kids) && lo <= hi <= |kids|
    requires Has(t, t.blk) && Below(t, next) && (blk == t.blk || (blk == next' && next <= next'))
    ensures
      var p := High(blk, keys, kids[lo..hi]);
      Separate(p) && forall b: nat :: Has(p, b) ==> b == blk || exists k :: lo <= k < hi && Has(kids[k], b)
  {
    var p := High(blk, keys, kids[lo..hi]);
    forall k | 0 <= k < |p.kids|
      ensures Separate(p.kids[k]) && !Has(p.kids[k], blk)
    {
      assert p.kids[k] == kids[lo + k];
      assert KidIn(t, next, next', kids[lo + k]);
    }
    forall b: nat | Has(p, b) && b != blk
      ensures exists k :: lo <= k < hi && Has(kids[k], b)
    {
      var k :| 0 <= k < |p.kids| && Has(p.kids[k], b);
      assert Has(kids[lo + k], b);
    }
  }

  /** Two pages over the two parts of the children do not meet. */
  lemma HalvesApart(t: DTree, next: nat, next': nat, kids: seq<DTree>, p: nat, l: DTree, r: DTree)
    requires KidsOk(t, next, next', kids) && p <= |kids| && next <= next' && Below(t, next) && Has(t, t.blk)
    requires l.blk == t.blk && r.blk == next'
    requires forall b: nat :: Has(l, b) ==> b == l.blk || exists k :: 0 <= k < p && Has(kids[k], b)
    requires forall b: nat :: Has(r, b) ==> b == r.blk || exists k :: p <= k < |kids| && Has(kids[k], b)
    ensures Apart(l, r)
  {
    forall b: nat
      ensures !(Has(l, b) && Has(r, b))
    {
      assert forall k :: 0 <= k < |kids| && Has(kids[k], b) ==> KidIn(t, next, next', kids[k]);
      assert forall k, m :: 0 <= k < p <= m < |kids| ==> Apart(kids[k], kids[m]);
    }
  }

  lemma KidBlocks(t: DTree, next: nat, next': nat, kids: seq<DTree>, lo: nat, hi: nat, page: DTree)
    requires KidsOk(t, next, next', kids) && lo <= hi <= |kids| && next <= next' && Has(t, t.blk)
    requires page.blk == t.blk || page.blk == next'
    requires forall b: nat :: Has(page, b) ==> b == page.blk || exists k :: lo <= k < hi && Has(kids[k], b)
    ensures forall b: nat :: Has(page, b) ==> Has(t, b) || next <= b <= next'
  {
    forall b: nat | Has(page, b) && b != page.blk
      ensures Has(t, b) || next <= b <= next'
    {
      var k :| lo <= k < hi && Has(kids[k], b);
      assert KidIn(t, next, next', kids[k]);
    }
  }

  lemma InsertHighBlocks(t: DTree, next: nat, next': nat, keys: seq<int>, kids: seq<DTree>, child: DTree, full: int)
    requires |keys| == |kids| && t.High? && Below(t, next) && next <= next' && Has(t, t.blk)
    requires KidsOk(t, next, next', InsertAt(kids, KeyPos(keys, FirstKey(child)), child))
    ensures BlocksGrew(t, next, InsertHigh(t.blk, keys, kids, child, full, next'))
  {
    var slot := KeyPos(keys, FirstKey(child));
    var keys2, kids2 := InsertAt(keys, slot, FirstKey(child)), InsertAt(kids, slot, child);
    if |keys2| < full {
      assert kids2[0..|kids2|] == kids2;
      PageOver(t, next, next', kids2, 0, |kids2|, t.blk, keys2);
      OnePage(t, next, next', kids2, High(t.blk, keys2, kids2));
    } else {
      var p := |keys2| / 2;
      var l, r := High(t.blk, keys2[..p], kids2[..p]), High(next', keys2[p..], kids2[p..]);
      assert kids2[0..p] == kids2[..p] && kids2[p..|kids2|] == kids2[p..];
      PageOver(t, next, next', kids2, 0, p, t.blk, keys2[..p]);
      PageOver(t, next, next', kids2, p, |kids2|, next', keys2[p..]);
      KidBlocks(t, next, next', kids2, 0, p, l);
      KidBlocks(t, next, next', kids2, p, |kids2|, r);
      HalvesApart(t, next, next', kids2, p, l, r);
    }
  }

  /** A page without a right half uses no block beyond the children's. */
  lemma OnePage(t: DTree, next: nat, next': nat, kids: seq<DTree>, page: DTree)
    requires KidsOk(t, next, next', kids) && Has(t, t.blk) && page.blk == t.blk
    requires forall b: nat :: Has(page, b) ==> b == page.blk || exists k :: 0 <= k < |kids| && Has(kids[k], b)
    ensures forall b: nat :: Has(page, b) ==> Has(t, b) || next <= b < next'
  {
    forall b: nat | Has(page, b) && b != page.blk
      ensures Has(t, b) || next <= b < next'
    {
      var k :| 0 <= k < |kids| && Has(kids[k], b);
      assert KidIn(t, next, next', kids[k]);
    }
  }

  lemma {:induction false} InsertTreeBlocks(t: DTree, e: Entry, full: int, next: nat)
    requires Separate(t) && Below(t, next)
    ensures BlocksGrew(t, next, InsertTree(t, e, full, next))
    decreases t
  {
    assert Has(t, t.blk);
    match t
    case Low(blk, recs) => InsertLowBlocks(blk, recs, e, full, next);
    case High(blk, keys, kids) =>
      var i := ChildSlot(keys, e.key);
      if 0 <= i < |kids| == |keys| {
        assert forall b: nat :: Has(kids[i], b) ==> Has(t, b);
        InsertTreeBlocks(kids[i], e, full, next);
        var sub := InsertTree(kids[i], e, full, next);
        KidsAfter(t, next, i, sub);
        var kids' := kids[i := sub.left];
        if sub.right.Some? {
          KidsInsert(t, next, sub.next, kids', KeyPos(keys, FirstKey(sub.right.value)), sub.right.value);
          InsertHighBlocks(t, next, sub.next, keys, kids', sub.right.value, full);
        } else {
          assert kids'[0..|kids'|] == kids';
          PageOver(t, next, sub.next, kids', 0, |kids'|, blk, keys);
          OnePage(t, next, sub.next, kids', High(blk, keys, kids'));
        }
      }
  }
}
