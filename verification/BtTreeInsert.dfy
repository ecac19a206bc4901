/** Inserting a leaf separator into the directory, with page splits and a growing root. */
module BtTreeInsert {
  import opened DbTypes
  import opened BtPages
  import opened BtTrees

  /** The tree left in place, the tree split off to its right if any, and the next free block. */
  datatype Ins = Ins(left: DTree, right: Option<DTree>, next: nat)

  function FlatBoth(r: Ins): seq<Entry> {
    Flat(r.left) + if r.right.Some? then Flat(r.right.value) else []
  }

  /** insert_entry on a directory page whose records point to leaves. */
  function InsertLow(blk: nat, recs: seq<Entry>, e: Entry, full: int, next: nat): Ins {
    var r := InsertAt(recs, Pos(recs, e.key), e);
    if |r| < full then Ins(Low(blk, r), None, next)
    else Ins(Low(blk, r[..|r| / 2]), Some(Low(next, r[|r| / 2..])), next + 1)
  }

  /** insert_entry on a higher directory page: child becomes the child with the given key. */
  function InsertHigh(blk: nat, keys: seq<int>, kids: seq<DTree>, child: DTree, full: int, next: nat): Ins
    requires |keys| == |kids|
  {
    var slot := KeyPos(keys, FirstKey(child));
    var keys', kids' := InsertAt(keys, slot, FirstKey(child)), InsertAt(kids, slot, child);
    if |keys'| < full then Ins(High(blk, keys', kids'), None, next)
    else
      var p := |keys'| / 2;
      Ins(High(blk, keys'[..p], kids'[..p]), Some(High(next, keys'[p..], kids'[p..])), next + 1)
  }

  /** btree_dir::insert */
  function InsertTree(t: DTree, e: Entry, full: int, next: nat): Ins
    decreases t
  {
    match t
    case Low(blk, recs) => InsertLow(blk, recs, e, full, next)
    case High(blk, keys, kids) =>
      var i := ChildSlot(keys, e.key);
      if !(0 <= i < |kids| == |keys|) then Ins(t, None, next)
      else
        var sub := InsertTree(kids[i], e, full, next);
        var kids' := kids[i := sub.left];
        match sub.right
        case None => Ins(High(blk, keys, kids'), None, sub.next)
        case Some(child) => InsertHigh(blk, keys, kids', child, full, sub.next)
  }

  /** make_new_root: the old root's records move to a new page, the root points to both halves. */
  function NewRoot(r: Ins): DTree
    requires r.right.Some?
  {
    var moved := match r.left case Low(_, recs) => Low(r.next, recs) case High(_, keys, kids) => High(r.next, keys, kids);
    High(r.left.blk, [FirstKey(r.left), FirstKey(r.right.value)], [moved, r.right.value])
  }

  ghost predicate Absent(s: seq<Entry>, key: int) {
    forall k :: 0 <= k < |s| ==> s[k].key != key
  }

  lemma PosIsUpto(s: seq<Entry>, key: int)
    requires Increasing(s) && Absent(s, key)
    ensures Pos(s, key) == Upto(s, key)
  {
    PosUnique(s, key, Upto(s, key));
  }

  lemma InsertIncreasing(s: seq<Entry>, e: Entry)
    requires Increasing(s) && Absent(s, e.key)
    ensures Increasing(InsertAt(s, Upto(s, e.key), e))
  {
    var n := Upto(s, e.key);
    assert forall k :: n <= k < |s| ==> s[k].key >= s[n].key;
    assert forall k :: 0 <= k < n ==> s[k].key < e.key;
  }

  /** The pages stay in shape; a page split off is of the same height. */
  ghost predicate ShapeKept(t: DTree, full: int, r: Ins) {
    && Shaped(r.left, full) && Height(r.left) == Height(t) && FirstKey(r.left) == FirstKey(t)
    && (r.right.Some? ==> Shaped(r.right.value, full) && Height(r.right.value) == Height(t))
  }

  /** The separators are the old ones and the new one, in its place. */
  ghost predicate FlatGrew(t: DTree, e: Entry, r: Ins) {
    FlatBoth(r) == InsertAt(Flat(t), Upto(Flat(t), e.key), e)
  }

  /** What inserting must achieve. */
  ghost predicate Inserted(t: DTree, e: Entry, full: int, r: Ins) {
    ShapeKept(t, full, r) && FlatGrew(t, e, r)
  }

  lemma InsertLowOk(blk: nat, recs: seq<Entry>, e: Entry, full: int, next: nat)
    requires Shaped(Low(blk, recs), full) && Increasing(recs) && full >= 3
    requires recs[0].key <= e.key && Absent(recs, e.key)
    ensures Inserted(Low(blk, recs), e, full, InsertLow(blk, recs, e, full, next))
  {
    PosIsUpto(recs, e.key);
    var r := InsertAt(recs, Pos(recs, e.key), e);
    assert r == r[..|r| / 2] + r[|r| / 2..];
    assert Flat(Low(blk, recs)) == recs;
  }

  /** Splitting the record list of a higher page keeps shape and separators. */
  lemma SplitHigh(blk: nat, keys: seq<int>, kids: seq<DTree>, full: int, next: nat, p: nat)
    requires 0 < p < |keys| == |kids| && p < full && |keys| - p < full
    requires forall i :: 0 <= i < |kids| ==> Shaped(kids[i], full) && Height(kids[i]) == Height(kids[0])
    requires forall i :: 0 <= i < |kids| ==> keys[i] == FirstKey(kids[i])
    ensures Shaped(High(blk, keys[..p], kids[..p]), full) && Shaped(High(next, keys[p..], kids[p..]), full)
    ensures Height(High(next, keys[p..], kids[p..])) == 1 + Height(kids[0]) == Height(High(blk, keys[..p], kids[..p]))
  {
    forall i | 0 <= i < |kids| - p
      ensures Shaped(kids[p..][i], full) && Height(kids[p..][i]) == Height(kids[p..][0])
      ensures keys[p..][i] == FirstKey(kids[p..][i])
    {
      assert kids[p..][i] == kids[p + i] && kids[p..][0] == kids[p];
    }
  }

  /** The page with a child put right behind child i. */
  lemma WidenedPage(t: DTree, child: DTree, full: int, i: nat)
    requires t.High? && Shaped(t, full) && i < |t.keys|
    requires Shaped(child, full) && Height(child) + 1 == Height(t)
    ensures
      var keys2, kids2 := InsertAt(t.keys, i + 1, FirstKey(child)), InsertAt(t.kids, i + 1, child);
      && (forall k :: 0 <= k < |kids2| ==> Shaped(kids2[k], full) && Height(kids2[k]) == Height(kids2[0]))
      && (forall k :: 0 <= k < |kids2| ==> keys2[k] == FirstKey(kids2[k]))
      && Height(kids2[0]) + 1 == Height(t)
  {
    var keys2, kids2 := InsertAt(t.keys, i + 1, FirstKey(child)), InsertAt(t.kids, i + 1, child);
    forall k | 0 <= k < |kids2|
      ensures Shaped(kids2[k], full) && Height(kids2[k]) == Height(kids2[0]) && keys2[k] == FirstKey(kids2[k])
    {
      if k > i + 1 {
        assert kids2[k] == t.kids[k - 1] && keys2[k] == t.keys[k - 1];
      } else if k <= i {
        assert kids2[k] == t.kids[k] && keys2[k] == t.keys[k];
      }
    }
  }

  lemma WidenedFlat(kids: seq<DTree>, left: DTree, child: DTree, i: nat)
    requires i < |kids|
    ensures FlatAll(InsertAt(kids[i := left], i + 1, child)) ==
            FlatAll(kids[..i]) + (Flat(left) + Flat(child)) + FlatAll(kids[i + 1..])
  {
    assert InsertAt(kids[i := left], i + 1, child) == kids[..i] + ([left, child] + kids[i + 1..]);
    FlatAllConcat(kids[..i], [left, child] + kids[i + 1..]);
    FlatAllConcat([left, child], kids[i + 1..]);
    FlatAllTwo(left, child);
  }

  lemma FlatAllTwo(a: DTree, b: DTree)
    ensures FlatAll([a, b]) == Flat(a) + Flat(b)
  {
    assert [a, b][1..] == [b];
    FlatAllOne(b);
  }

  lemma InsertHighShape(t: DTree, child: DTree, full: int, next: nat, i: nat)
    requires t.High? && full >= 3 && Shaped(t, full) && i < |t.keys|
    requires Shaped(child, full) && Height(child) + 1 == Height(t)
    requires KeyPos(t.keys, FirstKey(child)) == i + 1
    ensures ShapeKept(t, full, InsertHigh(t.blk, t.keys, t.kids, child, full, next))
  {
    var keys2, kids2 := InsertAt(t.keys, i + 1, FirstKey(child)), InsertAt(t.kids, i + 1, child);
    WidenedPage(t, child, full, i);
    if |keys2| >= full {
      SplitHigh(t.blk, keys2, kids2, full, next, |keys2| / 2);
    }
  }

  lemma InsertHighFlat(blk: nat, keys: seq<int>, kids: seq<DTree>, child: DTree, full: int, next: nat, i: nat)
    requires |keys| == |kids| && i < |kids| && KeyPos(keys, FirstKey(child)) == i + 1
    ensures FlatBoth(InsertHigh(blk, keys, kids, child, full, next)) == FlatAll(InsertAt(kids, i + 1, child))
  {
    var kids2 := InsertAt(kids, i + 1, child);
    var p := |kids2| / 2;
    assert kids2 == kids2[..p] + kids2[p..];
    FlatAllConcat(kids2[..p], kids2[p..]);
  }

  /** The tree with child i replaced by what stayed of it. */
  function Replace(t: DTree, i: nat, left: DTree): DTree
    requires t.High? && i < |t.kids|
  {
    High(t.blk, t.keys, t.kids[i := left])
  }

  lemma ReplacedShape(t: DTree, full: int, i: nat, sub: Ins)
    requires t.High? && Shaped(t, full) && i < |t.kids| && ShapeKept(t.kids[i], full, sub)
    ensures
      var t' := Replace(t, i, sub.left);
      Shaped(t', full) && Height(t') == Height(t) && FirstKey(t') == FirstKey(t)
  {
    var kids' := t.kids[i := sub.left];
    forall k | 0 <= k < |kids'|
      ensures Shaped(kids'[k], full) && Height(kids'[k]) == Height(t.kids[0]) && t.keys[k] == FirstKey(kids'[k])
    {
      assert k != i ==> kids'[k] == t.kids[k];
    }
  }

  lemma ReplacedFlat(kids: seq<DTree>, i: nat, left: DTree)
    requires i < |kids|
    ensures FlatAll(kids[i := left]) == FlatAll(kids[..i]) + Flat(left) + FlatAll(kids[i + 1..])
  {
    var kids' := kids[i := left];
    FlatAround(kids', i);
    assert kids'[..i] == kids[..i] && kids'[i + 1..] == kids[i + 1..];
  }

  /** Inserting between left and right neighbours is inserting into the whole. */
  lemma InsertWithin(left: seq<Entry>, mid: seq<Entry>, right: seq<Entry>, n: nat, e: Entry)
    requires n <= |mid|
    ensures left + InsertAt(mid, n, e) + right == InsertAt(left + mid + right, |left| + n, e)
  {
  }

  /** The split-off tree's first key lies strictly between the child's and its right neighbour's. */
  lemma SplitKeyPlace(t: DTree, full: int, i: nat, sub: Ins)
    requires t.High? && Shaped(t, full) && i < |t.kids| && ShapeKept(t.kids[i], full, sub) && sub.right.Some?
    requires Increasing(FlatAll(t.kids[..i]) + FlatBoth(sub) + FlatAll(t.kids[i + 1..]))
    requires Increasing(Flat(t))
    ensures KeyPos(t.keys, FirstKey(sub.right.value)) == i + 1
  {
    var child := sub.right.value;
    var l, r := Flat(sub.left), Flat(child);
    var left, right := FlatAll(t.kids[..i]), FlatAll(t.kids[i + 1..]);
    IncreasingParts(left, l + r, right);
    FirstKeyIsFirst(sub.left, full);
    FirstKeyIsFirst(child, full);
    assert (l + r)[0] == l[0] && (l + r)[|l|] == r[0];
    assert FirstKey(sub.left) < FirstKey(child);
    if i + 1 < |t.kids| {
      FirstKeyIsFirst(t.kids[i + 1], full);
      assert right[0] == Flat(t.kids[i + 1])[0];
    }
    KeysIncreasing(t, full);
    KeyPosUnique(t.keys, FirstKey(child), i + 1);
  }

  lemma AbsentParts(a: seq<Entry>, b: seq<Entry>, c: seq<Entry>, key: int)
    requires Absent(a + b + c, key)
    ensures Absent(b, key)
  {
    assert forall k :: 0 <= k < |b| ==> b[k] == (a + b + c)[|a| + k];
  }

  /** Child i took the separator in: the whole sequence did. */
  lemma FlatBelow(t: DTree, e: Entry, i: nat, sub: Ins)
    requires t.High? && i < |t.kids| && FlatGrew(t.kids[i], e, sub)
    requires Upto(Flat(t), e.key) == |FlatAll(t.kids[..i])| + Upto(Flat(t.kids[i]), e.key)
    ensures FlatAll(t.kids[..i]) + FlatBoth(sub) + FlatAll(t.kids[i + 1..]) ==
            InsertAt(Flat(t), Upto(Flat(t), e.key), e)
  {
    FlatAround(t.kids, i);
    InsertWithin(FlatAll(t.kids[..i]), Flat(t.kids[i]), FlatAll(t.kids[i + 1..]), Upto(Flat(t.kids[i]), e.key), e);
  }

  lemma FlatBelowWhole(t: DTree, e: Entry, i: nat, sub: Ins, next: nat)
    requires t.High? && i < |t.kids| && FlatGrew(t.kids[i], e, sub) && sub.right.None?
    requires Upto(Flat(t), e.key) == |FlatAll(t.kids[..i])| + Upto(Flat(t.kids[i]), e.key)
    ensures FlatGrew(t, e, Ins(Replace(t, i, sub.left), None, next))
  {
    FlatBelow(t, e, i, sub);
    ReplacedFlat(t.kids, i, sub.left);
    assert FlatBoth(sub) == Flat(sub.left);
  }

  lemma FlatBelowSplit(t: DTree, e: Entry, i: nat, sub: Ins, r: Ins)
    requires t.High? && i < |t.kids| && FlatGrew(t.kids[i], e, sub) && sub.right.Some?
    requires Upto(Flat(t), e.key) == |FlatAll(t.kids[..i])| + Upto(Flat(t.kids[i]), e.key)
    requires FlatBoth(r) == FlatAll(InsertAt(t.kids[i := sub.left], i + 1, sub.right.value))
    ensures FlatGrew(t, e, r)
  {
    FlatBelow(t, e, i, sub);
    WidenedFlat(t.kids, sub.left, sub.right.value, i);
    assert FlatBoth(sub) == Flat(sub.left) + Flat(sub.right.value);
  }

  /** The step of the induction: child i took the separator in. */
  lemma InsertBelow(t: DTree, e: Entry, full: int, i: nat, sub: Ins)
    requires t.High? && Shaped(t, full) && Increasing(Flat(t)) && full >= 3
    requires Absent(Flat(t), e.key) && i < |t.kids| && Inserted(t.kids[i], e, full, sub)
    requires Upto(Flat(t), e.key) == |FlatAll(t.kids[..i])| + Upto(Flat(t.kids[i]), e.key)
    ensures Inserted(t, e, full, match sub.right
              case None => Ins(Replace(t, i, sub.left), None, sub.next)
              case Some(child) => InsertHigh(t.blk, t.keys, t.kids[i := sub.left], child, full, sub.next))
  {
    var t' := Replace(t, i, sub.left);
    ReplacedShape(t, full, i, sub);
    if sub.right.None? {
      FlatBelowWhole(t, e, i, sub, sub.next);
    } else {
      FlatBelow(t, e, i, sub);
      InsertIncreasing(Flat(t), e);
      SplitKeyPlace(t, full, i, sub);
      InsertHighShape(t', sub.right.value, full, sub.next, i);
      InsertHighFlat(t.blk, t.keys, t'.kids, sub.right.value, full, sub.next, i);
      FlatBelowSplit(t, e, i, sub, InsertHigh(t.blk, t.keys, t'.kids, sub.right.value, full, sub.next));
    }
  }

  lemma {:induction false} InsertTreeOk(t: DTree, e: Entry, full: int, next: nat)
    requires Shaped(t, full) && Increasing(Flat(t)) && full >= 3
    requires FirstKey(t) <= e.key && Absent(Flat(t), e.key)
    ensures Inserted(t, e, full, InsertTree(t, e, full, next))
    decreases t
  {
    match t
    case Low(blk, recs) => InsertLowOk(blk, recs, e, full, next);
    case High(blk, keys, kids) =>
      var i := ChildForInsert(t, e, full);
      InsertTreeOk(kids[i], e, full, next);
      InsertBelow(t, e, full, i, InsertTree(kids[i], e, full, next));
  }

  lemma ChildForInsert(t: DTree, e: Entry, full: int) returns (i: nat)
    requires t.High? && Shaped(t, full) && Increasing(Flat(t))
    requires FirstKey(t) <= e.key && Absent(Flat(t), e.key)
    ensures i == ChildSlot(t.keys, e.key) && i < |t.kids|
    ensures Increasing(Flat(t.kids[i])) && FirstKey(t.kids[i]) <= e.key && Absent(Flat(t.kids[i]), e.key)
    ensures Upto(Flat(t), e.key) == |FlatAll(t.kids[..i])| + Upto(Flat(t.kids[i]), e.key)
  {
    i := ChildOfKey(t, full, e.key);
    FlatAround(t.kids, i);
    AbsentParts(FlatAll(t.kids[..i]), Flat(t.kids[i]), FlatAll(t.kids[i + 1..]), e.key);
  }

  lemma NewRootOk(t: DTree, e: Entry, full: int, r: Ins)
    requires Inserted(t, e, full, r) && r.right.Some? && full >= 3
    ensures Shaped(NewRoot(r), full) && FirstKey(NewRoot(r)) == FirstKey(t)
    ensures Flat(NewRoot(r)) == FlatBoth(r)
  {
    var root := NewRoot(r);
    FlatAllTwo(root.kids[0], root.kids[1]);
    assert Flat(root.kids[0]) == Flat(r.left);
  }
}
