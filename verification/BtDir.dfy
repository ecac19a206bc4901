/**
 The directory of a B-tree as a file of pages, with the loops and the recursion that search it
 and insert into it. The ghost value says which tree the pages form.

 As intended: looking at the slot behind the one found is guarded by the record count
 (bt_dir.h:35), a block number of -1 means "no split" (bt_dir.h:90, btree_index.cpp:50), and
 the first page is created as a level-0 root that sends every key to leaf block 0
 (btree_index.cpp:5-16 creates only the leaf).
 */
module BtDirs {
  import opened DbTypes
  import opened BtPages
  import opened BtTrees
  import opened BtTreeInsert
  import opened BtBlocks

  /** The smallest 32-bit integer; every key is at least that. */
  const MIN_KEY := -0x8000_0000

  // ---------- pages that form a tree ----------

  function DirEntry(key: int, blk: int): Entry {
    Entry(key, blk, 0)
  }

  /** The page of t's root: its level and its (key, child) records. */
  function PageFor(t: DTree): Node {
    match t
    case Low(_, recs) => Node(0, recs)
    case High(_, keys, kids) => Node(Height(t), if |keys| == |kids| then RecsFor(keys, kids) else [])
  }

  /** The records of a page over the children kids. */
  function RecsFor(keys: seq<int>, kids: seq<DTree>): (recs: seq<Entry>)
    requires |keys| == |kids|
    ensures |recs| == |keys|
    ensures forall i :: 0 <= i < |keys| ==> recs[i] == DirEntry(keys[i], kids[i].blk)
  {
    seq(|keys|, i requires 0 <= i < |keys| => DirEntry(keys[i], kids[i].blk))
  }

  ghost predicate Reps(pages: seq<Node>, t: DTree)
    decreases t
  {
    && t.blk < |pages| && pages[t.blk] == PageFor(t)
    && (t.High? ==> |t.keys| == |t.kids| && forall i :: 0 <= i < |t.kids| ==> Reps(pages, t.kids[i]))
  }

  /** Pages outside t may change, and the file may grow. */
  lemma {:induction false} RepsFrame(pages: seq<Node>, pages': seq<Node>, t: DTree)
    requires Reps(pages, t) && |pages| <= |pages'|
    requires forall b: nat :: b < |pages| && Has(t, b) ==> pages'[b] == pages[b]
    ensures Reps(pages', t)
    decreases t
  {
    assert Has(t, t.blk);
    if t.High? {
      forall i | 0 <= i < |t.kids|
        ensures Reps(pages', t.kids[i])
      {
        assert forall b: nat :: Has(t.kids[i], b) ==> Has(t, b);
        RepsFrame(pages, pages', t.kids[i]);
      }
    }
  }

  lemma {:induction false} RepsBelow(pages: seq<Node>, t: DTree)
    requires Reps(pages, t)
    ensures Below(t, |pages|)
    decreases t
  {
    if t.High? {
      forall i | 0 <= i < |t.kids|
        ensures Below(t.kids[i], |pages|)
      {
        RepsBelow(pages, t.kids[i]);
      }
    }
  }

  // ---------- one page and its tree ----------

  lemma KeyPosIsPos(recs: seq<Entry>, keys: seq<int>, key: int)
    requires |keys| == |recs| && forall i :: 0 <= i < |recs| ==> keys[i] == recs[i].key
    ensures KeyPos(keys, key) == Pos(recs, key)
  {
    KeyPosUnique(keys, key, Pos(recs, key));
  }

  function KeysIn(t: DTree): seq<int> {
    match t
    case Low(_, recs) => KeysOf(recs)
    case High(_, keys, _) => keys
  }

  lemma PageKeys(t: DTree)
    requires t.High? ==> |t.keys| == |t.kids|
    ensures |PageFor(t).recs| == |KeysIn(t)|
    ensures forall i :: 0 <= i < |KeysIn(t)| ==> PageFor(t).recs[i].key == KeysIn(t)[i]
  {
  }

  /** find_child_block on a page: the slot it decides for */
  function FindChild(recs: seq<Entry>, key: int): int {
    var slot := Pos(recs, key) - 1;
    if slot + 1 < |recs| && recs[slot + 1].key == key then slot + 1 else slot
  }

  lemma FindChildIsSlot(t: DTree, key: int)
    requires t.High? ==> |t.keys| == |t.kids|
    ensures FindChild(PageFor(t).recs, key) == ChildSlot(KeysIn(t), key)
  {
    PageKeys(t);
    KeyPosIsPos(PageFor(t).recs, KeysIn(t), key);
  }

  /** What insert_entry makes of a page: the page kept and the page split off, if full. */
  function EntryPages(p: Node, e: Entry, full: int): (Node, Option<Node>) {
    var r := InsertAt(p.recs, Pos(p.recs, e.key), e);
    if |r| < full then (Node(p.flag, r), None)
    else (Node(p.flag, r[..|r| / 2]), Some(Node(p.flag, r[|r| / 2..])))
  }

  /** The entry goes in front of all keys not below its own, and a full page is cut in the middle. */
  lemma EntryPlace(p: Node, e: Entry, full: int)
    requires Ordered(p.recs)
    ensures
      var (kept, split) := EntryPages(p, e, full);
      var all, at := kept.recs + (if split.Some? then split.value.recs else []), Pos(p.recs, e.key);
      && all == p.recs[..at] + [e] + p.recs[at..]
      && (forall k :: 0 <= k < at ==> p.recs[k].key < e.key) && (forall k :: at <= k < |p.recs| ==> p.recs[k].key >= e.key)
      && kept.flag == p.flag && (split.Some? <==> |p.recs| + 1 >= full)
      && (split.Some? ==> split.value.flag == p.flag && |kept.recs| <= |split.value.recs| <= |kept.recs| + 1)
  {
    var r := InsertAt(p.recs, Pos(p.recs, e.key), e);
    assert r[..|r| / 2] + r[|r| / 2..] == r;
  }

  lemma EntryPagesLow(blk: nat, recs: seq<Entry>, e: Entry, full: int, next: nat)
    ensures
      var r, ps := InsertLow(blk, recs, e, full, next), EntryPages(Node(0, recs), e, full);
      && ps.0 == PageFor(r.left)
      && (r.right.Some? <==> ps.1.Some?)
      && (r.right.Some? ==> ps.1.value == PageFor(r.right.value))
  {
  }

  lemma RecsForInsert(keys: seq<int>, kids: seq<DTree>, slot: nat, child: DTree)
    requires |keys| == |kids| && slot <= |keys|
    ensures RecsFor(InsertAt(keys, slot, FirstKey(child)), InsertAt(kids, slot, child)) ==
            InsertAt(RecsFor(keys, kids), slot, DirEntry(FirstKey(child), child.blk))
  {
  }

  lemma RecsForSlice(keys: seq<int>, kids: seq<DTree>, p: nat)
    requires |keys| == |kids| && p <= |keys|
    ensures RecsFor(keys[..p], kids[..p]) == RecsFor(keys, kids)[..p]
    ensures RecsFor(keys[p..], kids[p..]) == RecsFor(keys, kids)[p..]
  {
  }

  lemma EntryPagesHigh(blk: nat, keys: seq<int>, kids: seq<DTree>, child: DTree, full: int, next: nat, level: nat)
    requires |keys| == |kids|
    requires ShapeKept(High(blk, keys, kids), full, InsertHigh(blk, keys, kids, child, full, next))
    requires level == Height(High(blk, keys, kids))
    ensures
      var r := InsertHigh(blk, keys, kids, child, full, next);
      var ps := EntryPages(Node(level, RecsFor(keys, kids)), DirEntry(FirstKey(child), child.blk), full);
      && ps.0 == PageFor(r.left)
      && (r.right.Some? <==> ps.1.Some?)
      && (r.right.Some? ==> ps.1.value == PageFor(r.right.value))
  {
    var slot := KeyPos(keys, FirstKey(child));
    KeyPosIsPos(RecsFor(keys, kids), keys, FirstKey(child));
    RecsForInsert(keys, kids, slot, child);
    var keys2, kids2 := InsertAt(keys, slot, FirstKey(child)), InsertAt(kids, slot, child);
    RecsForSlice(keys2, kids2, |keys2| / 2);
  }

  /** In a tree that covers the key, every page has a child for it. */
  lemma SlotInPage(t: DTree, full: int, key: int)
    requires Shaped(t, full) && Increasing(Flat(t)) && FirstKey(t) <= key
    ensures 0 <= ChildSlot(KeysIn(t), key) < |PageFor(t).recs|
  {
    if t.High? {
      KeysIncreasing(t, full);
    }
    ChildSlotBounds(KeysIn(t), key);
  }

  /** The pages of t after its child i took the separator in. */
  ghost predicate ChildDone(pages: seq<Node>, t: DTree, i: nat, sub: Ins)
    requires t.High? && i < |t.kids|
  {
    var t' := Replace(t, i, sub.left);
    && t.blk < |pages| && pages[t.blk] == PageFor(t') && Height(t') == Height(t)
    && (forall k :: 0 <= k < |t'.kids| ==> Reps(pages, t'.kids[k]) && !Has(t'.kids[k], t.blk))
    && (sub.right.Some? ==> Reps(pages, sub.right.value) && !Has(sub.right.value, t.blk))
  }

  lemma AfterChild(before: seq<Node>, pages: seq<Node>, t: DTree, full: int, i: nat, sub: Ins)
    requires t.High? && Shaped(t, full) && Reps(before, t) && Separate(t) && i < |t.kids|
    requires |before| <= |pages| && sub.next == |pages|
    requires forall b: nat :: b < |before| && !Has(t.kids[i], b) ==> pages[b] == before[b]
    requires Reps(pages, sub.left) && (sub.right.Some? ==> Reps(pages, sub.right.value))
    requires BlocksGrew(t.kids[i], |before|, sub) && ShapeKept(t.kids[i], full, sub)
    ensures ChildDone(pages, t, i, sub)
  {
    ReplacedShape(t, full, i, sub);
    RepsBelow(before, t);
    KidsAfter(t, |before|, i, sub);
    var t' := Replace(t, i, sub.left);
    assert PageFor(t') == PageFor(t);
    forall k | 0 <= k < |t'.kids|
      ensures Reps(pages, t'.kids[k]) && !Has(t'.kids[k], t.blk)
    {
      assert KidIn(t, |before|, sub.next, t'.kids[k]);
      if k != i {
        assert Apart(t.kids[if k < i then k else i], t.kids[if k < i then i else k]);
        RepsFrame(before, pages, t.kids[k]);
      }
    }
  }

  // ---------- the directory file ----------

  class Directory {
    const slotSize: int
    const blockSize: int
    const full: int
    var pages: seq<Node>
    ghost var tree: DTree

    ghost predicate Sized() {
      Usable(slotSize, blockSize) && full == FullAt(slotSize, blockSize)
    }

    /** No page goes past its block. */
    ghost predicate AllFit()
      reads this
    {
      Sized() && forall b :: 0 <= b < |pages| ==> FitsBlock(|pages[b].recs|, slotSize, blockSize)
    }

    ghost predicate Valid()
      reads this
    {
      && AllFit()
      && Reps(pages, tree) && Separate(tree) && tree.blk == 0
      && Shaped(tree, full) && Increasing(Flat(tree)) && FirstKey(tree) == MIN_KEY
    }

    /** The leaf separators, in order. */
    ghost function Leaves(): seq<Entry>
      reads this
    {
      Flat(tree)
    }

    /** A new index: the root sends every key to leaf block 0. */
    constructor (slotSize: int, blockSize: int)
      requires Usable(slotSize, blockSize)
      ensures Valid() && this.slotSize == slotSize && this.blockSize == blockSize && Leaves() == [DirEntry(MIN_KEY, 0)]
    {
      this.slotSize, this.blockSize, full := slotSize, blockSize, FullAt(slotSize, blockSize);
      pages := [Node(0, [DirEntry(MIN_KEY, 0)])];
      tree := Low(0, [DirEntry(MIN_KEY, 0)]);
      FullAtIsLeast(1, slotSize, blockSize);
    }

    /** Every change of a page goes through here; also that of a page that is full and about to be split. */
    method WritePage(blk: nat, node: Node)
      requires AllFit() && blk < |pages| && FitsBlock(|node.recs|, slotSize, blockSize)
      modifies this`pages
      ensures AllFit() && pages == old(pages)[blk := node]
    {
      pages := pages[blk := node];
    }

    method AppendPage(node: Node)
      requires AllFit() && FitsBlock(|node.recs|, slotSize, blockSize)
      modifies this`pages
      ensures AllFit() && pages == old(pages) + [node]
    {
      pages := pages + [node];
    }

    /** find_child_block */
    method ChildSlotOn(blk: nat, searchKey: int) returns (slot: int)
      requires AllFit() && blk < |pages|
      ensures slot == FindChild(pages[blk].recs, searchKey)
    {
      slot := SlotBefore(pages[blk], slotSize, blockSize, searchKey);
      if slot + 1 < |pages[blk].recs| && pages[blk].recs[slot + 1].key == searchKey {
        slot := slot + 1;
      }
    }

    /** The slot of the child to descend to. */
    method SlotOn(ghost t: DTree, page: nat, searchKey: int) returns (slot: int)
      requires AllFit() && Reps(pages, t) && t.blk == page
      requires Shaped(t, full) && Increasing(Flat(t)) && FirstKey(t) <= searchKey
      ensures slot == ChildSlot(KeysIn(t), searchKey) && 0 <= slot < |pages[page].recs|
    {
      FindChildIsSlot(t, searchKey);
      SlotInPage(t, full, searchKey);
      slot := ChildSlotOn(page, searchKey);
    }

    /** btree_dir::search */
    method Search(searchKey: int) returns (blk: int)
      requires Valid() && searchKey >= MIN_KEY
      ensures Upto(Leaves(), searchKey) > 0
      ensures blk == Leaves()[Upto(Leaves(), searchKey) - 1].blk
    {
      var page: nat := 0;
      ghost var t := tree;
      SearchFinds(tree, full, searchKey);
      var slot := SlotOn(t, page, searchKey);
      while pages[page].flag > 0
        invariant Reps(pages, t) && t.blk == page && Shaped(t, full) && Increasing(Flat(t)) && FirstKey(t) <= searchKey
        invariant SearchTree(t, searchKey) == SearchTree(tree, searchKey)
        invariant slot == ChildSlot(KeysIn(t), searchKey) && 0 <= slot < |pages[page].recs|
        decreases Height(t)
      {
        ghost var i := ChildOfKey(t, full, searchKey);
        t := t.kids[i];
        page := pages[page].recs[slot].blk;
        slot := SlotOn(t, page, searchKey);
      }
      blk := pages[page].recs[slot].blk;
    }

    /** insert_entry: put e into page blk, splitting it when it gets full. */
    method InsertEntry(blk: nat, e: Entry) returns (split: Option<Entry>)
      requires AllFit() && blk < |pages| && |pages[blk].recs| < full
      modifies this`pages
      ensures AllFit()
      ensures
        var ps := EntryPages(old(pages)[blk], e, full);
        && pages == old(pages)[blk := ps.0] + (if ps.1.Some? then [ps.1.value] else [])
        && split == (if ps.1.Some? then Some(DirEntry(ps.1.value.recs[0].key, |old(pages)|)) else None)
    {
      var before := SlotBefore(pages[blk], slotSize, blockSize, e.key);
      var page, isFull := InsertInPage(pages[blk], slotSize, blockSize, 1 + before, e);
      WritePage(blk, page);
      if !isFull {
        return None;
      }
      var splitPos := |page.recs| / 2;
      var splitVal := page.recs[splitPos].key;
      var newBlk := |pages|;
      var left, right := SplitPage(page, slotSize, blockSize, splitPos, page.flag);
      WritePage(blk, left);
      AppendPage(right);
      split := Some(DirEntry(splitVal, newBlk));
    }

    /** btree_dir::insert, recursively from the page of t. */
    method InsertInto(e: Entry, ghost t: DTree, blk: nat) returns (split: Option<Entry>, ghost r: Ins)
      requires AllFit() && Reps(pages, t) && Separate(t) && t.blk == blk
      requires Shaped(t, full) && Increasing(Flat(t)) && FirstKey(t) <= e.key && Absent(Flat(t), e.key)
      modifies this`pages
      ensures AllFit()
      ensures r == InsertTree(t, e, full, |old(pages)|) && r.next == |pages|
      ensures |old(pages)| <= |pages|
      ensures Reps(pages, r.left) && (r.right.Some? ==> Reps(pages, r.right.value))
      ensures split == if r.right.Some? then Some(DirEntry(FirstKey(r.right.value), r.right.value.blk)) else None
      ensures forall b: nat :: b < |old(pages)| && !Has(t, b) ==> pages[b] == old(pages)[b]
      decreases t, 2
    {
      if pages[blk].flag == 0 {
        split, r := InsertAtLow(e, t, blk);
      } else {
        split, r := InsertAtHigh(e, t, blk);
      }
    }

    method InsertAtLow(e: Entry, ghost t: DTree, blk: nat) returns (split: Option<Entry>, ghost r: Ins)
      requires AllFit() && Reps(pages, t) && t.Low? && t.blk == blk && Shaped(t, full)
      modifies this`pages
      ensures AllFit()
      ensures r == InsertTree(t, e, full, |old(pages)|) && r.next == |pages|
      ensures |old(pages)| <= |pages|
      ensures Reps(pages, r.left) && (r.right.Some? ==> Reps(pages, r.right.value))
      ensures split == if r.right.Some? then Some(DirEntry(FirstKey(r.right.value), r.right.value.blk)) else None
      ensures forall b: nat :: b < |old(pages)| && b != blk ==> pages[b] == old(pages)[b]
    {
      split := InsertEntry(blk, e);
      r := InsertTree(t, e, full, |old(pages)|);
      EntryPagesLow(blk, t.recs, e, full, |old(pages)|);
    }

    method InsertAtHigh(e: Entry, ghost t: DTree, blk: nat) returns (split: Option<Entry>, ghost r: Ins)
      requires AllFit() && Reps(pages, t) && Separate(t) && t.blk == blk && t.High?
      requires Shaped(t, full) && Increasing(Flat(t)) && FirstKey(t) <= e.key && Absent(Flat(t), e.key)
      modifies this`pages
      ensures AllFit()
      ensures r == InsertTree(t, e, full, |old(pages)|) && r.next == |pages|
      ensures |old(pages)| <= |pages|
      ensures Reps(pages, r.left) && (r.right.Some? ==> Reps(pages, r.right.value))
      ensures split == if r.right.Some? then Some(DirEntry(FirstKey(r.right.value), r.right.value.blk)) else None
      ensures forall b: nat :: b < |old(pages)| && !Has(t, b) ==> pages[b] == old(pages)[b]
      decreases t, 1
    {
      assert Has(t, blk);
      ghost var i, sub;
      split, i, sub := InsertBelowPage(e, t, blk);
      r := InsertTree(t, e, full, |old(pages)|);
      if split.Some? {
        split := InsertMine(blk, split.value, t, i, sub);
      }
    }

    /** Find the child of page blk and insert there. */
    method InsertBelowPage(e: Entry, ghost t: DTree, blk: nat) returns (split: Option<Entry>, ghost i: nat,
                           ghost sub: Ins)
      requires AllFit() && Reps(pages, t) && Separate(t) && t.blk == blk && t.High?
      requires Shaped(t, full) && Increasing(Flat(t)) && FirstKey(t) <= e.key && Absent(Flat(t), e.key)
      modifies this`pages
      ensures AllFit()
      ensures i < |t.kids| && i == ChildSlot(t.keys, e.key)
      ensures sub == InsertTree(t.kids[i], e, full, |old(pages)|) && sub.next == |pages| >= |old(pages)|
      ensures ChildDone(pages, t, i, sub)
      ensures sub.right.Some? ==>
                ShapeKept(Replace(t, i, sub.left), full,
                          InsertHigh(t.blk, t.keys, t.kids[i := sub.left], sub.right.value, full, sub.next))
      ensures split == if sub.right.Some? then Some(DirEntry(FirstKey(sub.right.value), sub.right.value.blk)) else None
      ensures forall b: nat :: b < |old(pages)| && (!Has(t, b) || b == blk) ==> pages[b] == old(pages)[b]
      decreases t, 0
    {
      i := ChildForInsert(t, e, full);
      FindChildIsSlot(t, e.key);
      var slot := ChildSlotOn(blk, e.key);
      var childBlk := pages[blk].recs[slot].blk;
      split, sub := InsertInto(e, t.kids[i], childBlk);
      InsertTreeOk(t.kids[i], e, full, |old(pages)|);
      ChildBlocks(old(pages), t, e, full, i);
      AfterChild(old(pages), pages, t, full, i, sub);
      if sub.right.Some? {
        InsertTreeOk(t, e, full, |old(pages)|);
        InsertedShape(t, e, full, |old(pages)|, i, sub);
      }
      assert forall b: nat :: Has(t.kids[i], b) ==> Has(t, b) && b != blk;
    }

    /** The child split: put its right half into page t.blk. */
    method InsertMine(blk: nat, entry: Entry, ghost t: DTree, ghost i: nat,
                      ghost sub: Ins) returns (split: Option<Entry>)
      requires AllFit() && t.High? && t.blk == blk && Shaped(t, full) && i < |t.kids| && sub.right.Some?
      requires sub.next == |pages|
      requires entry == DirEntry(FirstKey(sub.right.value), sub.right.value.blk)
      requires ChildDone(pages, t, i, sub)
      requires ShapeKept(Replace(t, i, sub.left), full, InsertHigh(t.blk, t.keys, t.kids[i := sub.left], sub.right.value, full, sub.next))
      modifies this`pages
      ensures AllFit()
      ensures
        var r := InsertHigh(t.blk, t.keys, t.kids[i := sub.left], sub.right.value, full, sub.next);
        && r.next == |pages| && |old(pages)| <= |pages|
        && Reps(pages, r.left) && (r.right.Some? ==> Reps(pages, r.right.value))
        && split == (if r.right.Some? then Some(DirEntry(FirstKey(r.right.value), r.right.value.blk)) else None)
      ensures forall b: nat :: b < |old(pages)| && b != t.blk ==> pages[b] == old(pages)[b]
    {
      ghost var t', child := Replace(t, i, sub.left), sub.right.value;
      EntryPagesHigh(t.blk, t.keys, t'.kids, child, full, sub.next, Height(t));
      split := InsertEntry(blk, entry);
      HighPagesReps(old(pages), pages, t', child, full, sub.next);
    }

    /** btree_dir::make_new_root */
    method MakeNewRoot(e: Entry, ghost r: Ins)
      requires AllFit() && r.right.Some? && r.left.blk == 0 && r.next == |pages|
      requires Reps(pages, r.left) && Reps(pages, r.right.value) && Separate(r.left) && Separate(r.right.value)
      requires Apart(r.left, r.right.value) && Shaped(r.left, full) && Shaped(r.right.value, full)
      requires FirstKey(r.left) < FirstKey(r.right.value) && Height(r.left) == Height(r.right.value)
      requires e == DirEntry(FirstKey(r.right.value), r.right.value.blk)
      modifies this`pages
      ensures AllFit()
      ensures Reps(pages, NewRoot(r)) && Separate(NewRoot(r))
    {
      MoveRoot(e);
      PageKeys(r.left);
      RootPage(r, pages[0]);
      NewRootReps(old(pages), pages, full, r);
    }

    method MoveRoot(e: Entry)
      requires AllFit() && pages != [] && 0 < |pages[0].recs| < full && pages[0].recs[0].key < e.key
      modifies this`pages
      ensures AllFit()
      ensures
        var p := old(pages)[0];
        pages == old(pages)[0 := Node(p.flag + 1, [DirEntry(p.recs[0].key, |old(pages)|), e])] + [p]
    {
      var root := pages[0];
      var firstVal := root.recs[0].key;
      var level := root.flag;
      var newBlk := |pages|;
      var kept, moved := SplitPage(root, slotSize, blockSize, 0, level);
      assert root.recs[0..] == root.recs && kept == Node(level, []);
      AppendPage(moved);
      WritePage(0, kept);
      var oldRoot := DirEntry(firstVal, newBlk);
      var _ := InsertEntry(0, oldRoot);
      assert pages[0] == Node(level, [oldRoot]);
      var _ := InsertEntry(0, e);
      assert pages[0] == Node(level, [oldRoot, e]);
      WritePage(0, Node(level + 1, pages[0].recs));
    }

    /** Inserting at the root, which grows when its page splits. */
    method Insert(e: Entry)
      requires Valid() && e.key >= MIN_KEY && Absent(Leaves(), e.key)
      modifies this
      ensures Valid() && Leaves() == InsertAt(old(Leaves()), Upto(old(Leaves()), e.key), e)
    {
      InsertTreeOk(tree, e, full, |pages|);
      InsertIncreasing(Flat(tree), e);
      RepsBelow(pages, tree);
      InsertTreeBlocks(tree, e, full, |pages|);
      var split;
      ghost var r;
      split, r := InsertInto(e, tree, 0);
      if split.Some? {
        FirstKeysApart(r, full);
        MakeNewRoot(split.value, r);
        NewRootOk(tree, e, full, r);
        tree := NewRoot(r);
      } else {
        assert FlatBoth(r) == Flat(r.left);
        tree := r.left;
      }
    }
  }

  lemma InsertedShape(t: DTree, e: Entry, full: int, next: nat, i: nat, sub: Ins)
    requires t.High? && Shaped(t, full) && i < |t.kids| && i == ChildSlot(t.keys, e.key)
    requires sub == InsertTree(t.kids[i], e, full, next) && sub.right.Some? && ShapeKept(t.kids[i], full, sub)
    requires Inserted(t, e, full, InsertTree(t, e, full, next))
    ensures
      var t' := Replace(t, i, sub.left);
      ShapeKept(t', full, InsertHigh(t.blk, t.keys, t'.kids, sub.right.value, full, sub.next))
  {
    ReplacedShape(t, full, i, sub);
  }

  lemma ChildBlocks(pages: seq<Node>, t: DTree, e: Entry, full: int, i: nat)
    requires t.High? && Reps(pages, t) && Separate(t) && i < |t.kids|
    ensures BlocksGrew(t.kids[i], |pages|, InsertTree(t.kids[i], e, full, |pages|))
  {
    RepsBelow(pages, t.kids[i]);
    InsertTreeBlocks(t.kids[i], e, full, |pages|);
  }

  lemma FirstKeysApart(r: Ins, full: int)
    requires r.right.Some? && Shaped(r.left, full) && Shaped(r.right.value, full) && Increasing(FlatBoth(r))
    ensures FirstKey(r.left) < FirstKey(r.right.value)
  {
    FirstKeyIsFirst(r.left, full);
    FirstKeyIsFirst(r.right.value, full);
    assert FlatBoth(r)[|Flat(r.left)|] == Flat(r.right.value)[0];
    assert FlatBoth(r)[0] == Flat(r.left)[0];
  }

  /** The pages of a widened, possibly split, directory page. */
  lemma HighPagesReps(before: seq<Node>, pages: seq<Node>, t: DTree, child: DTree, full: int, next: nat)
    requires t.High? && |t.keys| == |t.kids| && next == |before| <= |pages| && t.blk < |before|
    requires forall k :: 0 <= k < |t.kids| ==> Reps(before, t.kids[k]) && !Has(t.kids[k], t.blk)
    requires Reps(before, child) && !Has(child, t.blk)
    requires forall b: nat :: b < |before| && b != t.blk ==> pages[b] == before[b]
    requires
      var r := InsertHigh(t.blk, t.keys, t.kids, child, full, next);
      && |pages| == r.next && pages[t.blk] == PageFor(r.left)
      && (r.right.Some? ==> pages[next] == PageFor(r.right.value))
    ensures
      var r := InsertHigh(t.blk, t.keys, t.kids, child, full, next);
      Reps(pages, r.left) && (r.right.Some? ==> Reps(pages, r.right.value))
  {
    var kids2 := InsertAt(t.kids, KeyPos(t.keys, FirstKey(child)), child);
    forall k | 0 <= k < |kids2|
      ensures Reps(pages, kids2[k])
    {
      var slot := KeyPos(t.keys, FirstKey(child));
      var kid := kids2[k];
      assert kid == if k < slot then t.kids[k] else if k == slot then child else t.kids[k - 1];
      RepsFrame(before, pages, kid);
    }
  }

  lemma RootPage(r: Ins, page: Node)
    requires r.right.Some? && (r.left.High? ==> |r.left.keys| == |r.left.kids|)
    requires page == Node(Height(r.left) + 1, [DirEntry(FirstKey(r.left), r.next),
                                                 DirEntry(FirstKey(r.right.value), r.right.value.blk)])
    ensures page == PageFor(NewRoot(r))
  {
    var root := NewRoot(r);
    assert Height(root.kids[0]) == Height(r.left);
    assert Height(root) == 1 + Height(root.kids[0]);
    assert PageFor(root).recs == page.recs;
  }

  lemma NewRootReps(before: seq<Node>, pages: seq<Node>, full: int, r: Ins)
    requires r.right.Some? && r.left.blk == 0 && r.next == |before|
    requires Reps(before, r.left) && Reps(before, r.right.value) && Separate(r.left) && Separate(r.right.value)
    requires Apart(r.left, r.right.value) && Shaped(r.left, full) && Shaped(r.right.value, full)
    requires Height(r.left) == Height(r.right.value)
    requires |pages| == |before| + 1 && pages[|before|] == before[0]
    requires pages[0] == PageFor(NewRoot(r))
    requires forall b: nat :: 0 < b < |before| ==> pages[b] == before[b]
    ensures Reps(pages, NewRoot(r)) && Separate(NewRoot(r))
  {
    var root := NewRoot(r);
    var moved, right := root.kids[0], r.right.value;
    assert Has(r.left, 0);
    RepsBelow(before, r.left);
    RepsBelow(before, right);
    RepsFrame(before, pages, right);
    assert PageFor(moved) == PageFor(r.left);
    if moved.High? {
      forall k | 0 <= k < |moved.kids|
        ensures Reps(pages, moved.kids[k]) && !Has(moved.kids[k], |before|)
      {
        assert moved.kids[k] == r.left.kids[k];
        assert forall b: nat :: Has(r.left.kids[k], b) ==> Has(r.left, b);
        RepsFrame(before, pages, moved.kids[k]);
      }
    }
    assert forall b: nat :: Has(moved, b) ==> b == |before| || (b != 0 && Has(r.left, b));
  }
}
