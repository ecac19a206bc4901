/**
 The directory of a B-tree as a value: which pages it consists of, what searching and
 inserting compute on it, and what both mean for the sequence of leaf separators it stands
 for.
 */
module BtTrees {
  import opened DbTypes
  import opened BtPages

  /** A level-0 directory page points to leaves, a higher one to directory pages. */
  datatype DTree =
    | Low(blk: nat, recs: seq<Entry>)
    | High(blk: nat, keys: seq<int>, kids: seq<DTree>)

  /** The separators and leaf blocks below t, from left to right. */
  function Flat(t: DTree): seq<Entry>
    decreases t, 1
  {
    match t
    case Low(_, recs) => recs
    case High(_, _, kids) => FlatAll(kids)
  }

  function FlatAll(kids: seq<DTree>): seq<Entry>
    decreases kids, 0
  {
    if kids == [] then [] else Flat(kids[0]) + FlatAll(kids[1..])
  }

  function FirstKey(t: DTree): int {
    match t
    case Low(_, recs) => if recs == [] then 0 else recs[0].key
    case High(_, keys, _) => if keys == [] then 0 else keys[0]
  }

  function Height(t: DTree): nat
    decreases t
  {
    match t
    case Low(_, _) => 0
    case High(_, _, kids) => if kids == [] then 1 else 1 + Height(kids[0])
  }

  function Size(t: DTree): nat {
    match t
    case Low(_, recs) => |recs|
    case High(_, keys, _) => |keys|
  }

  /** All leaves at one depth, every key the first key of its child, no page full. */
  ghost predicate Shaped(t: DTree, full: int)
    decreases t
  {
    match t
    case Low(_, recs) => 1 <= |recs| < full
    case High(_, keys, kids) =>
      && 1 <= |keys| < full && |kids| == |keys|
      && (forall i :: 0 <= i < |kids| ==> Shaped(kids[i], full) && Height(kids[i]) == Height(kids[0]))
      && (forall i :: 0 <= i < |kids| ==> keys[i] == FirstKey(kids[i]))
  }

  ghost predicate Increasing(s: seq<Entry>) {
    forall i, j :: 0 <= i < j < |s| ==> s[i].key < s[j].key
  }

  ghost predicate AllAbove(s: seq<Entry>, key: int) {
    forall k :: 0 <= k < |s| ==> s[k].key > key
  }

  // ---------- flat sequences ----------

  lemma {:induction false} FlatAllConcat(a: seq<DTree>, b: seq<DTree>)
    ensures FlatAll(a + b) == FlatAll(a) + FlatAll(b)
    decreases |a|
  {
    if a == [] {
      assert a + b == b;
    } else {
      assert (a + b)[1..] == a[1..] + b;
      FlatAllConcat(a[1..], b);
    }
  }

  lemma FlatAllOne(t: DTree)
    ensures FlatAll([t]) == Flat(t)
  {
    assert [t][1..] == [];
  }

  /** Child i's separators sit between those of its left and right neighbours. */
  lemma FlatAround(kids: seq<DTree>, i: nat)
    requires i < |kids|
    ensures FlatAll(kids) == FlatAll(kids[..i]) + Flat(kids[i]) + FlatAll(kids[i + 1..])
  {
    assert kids == kids[..i] + kids[i..];
    FlatAllConcat(kids[..i], kids[i..]);
  }

  lemma {:induction false} FirstKeyIsFirst(t: DTree, full: int)
    requires Shaped(t, full)
    ensures Flat(t) != [] && Flat(t)[0].key == FirstKey(t)
    decreases t
  {
    if t.High? {
      FirstKeyIsFirst(t.kids[0], full);
    }
  }

  // ---------- searching ----------

  /** How many keys of an increasing sequence do not exceed key. */
  function Upto(s: seq<Entry>, key: int): (n: nat)
    ensures n <= |s|
    ensures forall k :: 0 <= k < n ==> s[k].key <= key
    ensures n < |s| ==> s[n].key > key
  {
    if s == [] || s[0].key > key then 0 else 1 + Upto(s[1..], key)
  }

  lemma UptoUnique(s: seq<Entry>, key: int, n: nat)
    requires n <= |s| && Increasing(s)
    requires n > 0 ==> s[n - 1].key <= key
    requires n < |s| ==> s[n].key > key
    ensures Upto(s, key) == n
  {
    var m := Upto(s, key);
    forall k | 0 <= k < n - 1
      ensures s[k].key < s[n - 1].key
    {
    }
  }

  /** The first position whose key is not smaller than key, over plain keys. */
  function KeyPos(keys: seq<int>, key: int): (i: nat)
    ensures i <= |keys|
    ensures forall k :: 0 <= k < i ==> keys[k] < key
    ensures i < |keys| ==> keys[i] >= key
  {
    if keys == [] || keys[0] >= key then 0 else 1 + KeyPos(keys[1..], key)
  }

  function KeysOf(recs: seq<Entry>): (keys: seq<int>)
    ensures |keys| == |recs|
    ensures forall i :: 0 <= i < |recs| ==> keys[i] == recs[i].key
  {
    seq(|recs|, i requires 0 <= i < |recs| => recs[i].key)
  }

  lemma KeyPosUnique(keys: seq<int>, key: int, i: nat)
    requires i <= |keys|
    requires forall k :: 0 <= k < i ==> keys[k] < key
    requires i < |keys| ==> keys[i] >= key
    ensures KeyPos(keys, key) == i
  {
  }

  /** find_child_block: the slot before key, or the next one if it holds key itself. */
  function ChildSlot(keys: seq<int>, key: int): int {
    var slot := KeyPos(keys, key) - 1;
    if slot + 1 < |keys| && keys[slot + 1] == key then slot + 1 else slot
  }

  lemma ChildSlotBounds(keys: seq<int>, key: int)
    requires keys != [] && keys[0] <= key
    requires forall i, j :: 0 <= i < j < |keys| ==> keys[i] < keys[j]
    ensures 0 <= ChildSlot(keys, key) < |keys|
    ensures keys[ChildSlot(keys, key)] <= key
    ensures forall i :: ChildSlot(keys, key) < i < |keys| ==> keys[i] > key
  {
  }

  /** The leaf block a search ends at, following child pointers from page to page. */
  function SearchTree(t: DTree, key: int): Option<int>
    decreases t
  {
    match t
    case Low(_, recs) =>
      var i := ChildSlot(KeysOf(recs), key);
      if 0 <= i < |recs| then Some(recs[i].blk) else None
    case High(_, keys, kids) =>
      var i := ChildSlot(keys, key);
      if 0 <= i < |kids| then SearchTree(kids[i], key) else None
  }

  lemma IncreasingParts(a: seq<Entry>, b: seq<Entry>, c: seq<Entry>)
    requires Increasing(a + b + c)
    ensures Increasing(a) && Increasing(b) && Increasing(c)
    ensures forall i, j :: 0 <= i < |a| && 0 <= j < |b| ==> a[i].key < b[j].key
    ensures forall i, j :: 0 <= i < |b| && 0 <= j < |c| ==> b[i].key < c[j].key
    ensures forall i, j :: 0 <= i < |a| && 0 <= j < |c| ==> a[i].key < c[j].key
  {
    var s := a + b + c;
    assert forall i :: 0 <= i < |a| ==> a[i] == s[i];
    assert forall i :: 0 <= i < |b| ==> b[i] == s[|a| + i];
    assert forall i :: 0 <= i < |c| ==> c[i] == s[|a| + |b| + i];
  }

  /** Separators of a directory page are increasing when those of its leaves are. */
  lemma KeysIncreasing(t: DTree, full: int)
    requires t.High? && Shaped(t, full) && Increasing(Flat(t))
    ensures forall i, j :: 0 <= i < j < |t.keys| ==> t.keys[i] < t.keys[j]
  {
    forall i, j | 0 <= i < j < |t.keys|
      ensures t.keys[i] < t.keys[j]
    {
      var kids := t.kids;
      FlatAround(kids, j);
      IncreasingParts(FlatAll(kids[..j]), Flat(kids[j]), FlatAll(kids[j + 1..]));
      FlatAround(kids[..j], i);
      FirstKeyIsFirst(kids[i], full);
      FirstKeyIsFirst(kids[j], full);
      var k := |FlatAll(kids[..j][..i])|;
      assert FlatAll(kids[..j])[k] == Flat(kids[i])[0];
    }
  }

  /** Everything right of the child a key belongs to is larger than the key. */
  lemma RightOfChild(t: DTree, full: int, key: int, i: nat)
    requires t.High? && Shaped(t, full) && Increasing(Flat(t)) && i < |t.keys|
    requires forall j :: i < j < |t.keys| ==> t.keys[j] > key
    ensures AllAbove(FlatAll(t.kids[i + 1..]), key)
  {
    var kids := t.kids;
    var right := FlatAll(kids[i + 1..]);
    FlatAround(kids, i);
    IncreasingParts(FlatAll(kids[..i]), Flat(kids[i]), right);
    if i + 1 < |kids| {
      FirstKeyIsFirst(kids[i + 1], full);
      assert right[0] == Flat(kids[i + 1])[0];
    }
  }

  /** The child a key belongs to, and where its separators lie among all. */
  lemma ChildOfKey(t: DTree, full: int, key: int) returns (i: nat)
    requires t.High? && Shaped(t, full) && Increasing(Flat(t)) && FirstKey(t) <= key
    ensures i == ChildSlot(t.keys, key) && i < |t.kids|
    ensures Increasing(Flat(t.kids[i])) && FirstKey(t.kids[i]) <= key
    ensures Upto(Flat(t), key) == |FlatAll(t.kids[..i])| + Upto(Flat(t.kids[i]), key)
    ensures Upto(Flat(t.kids[i]), key) > 0
  {
    KeysIncreasing(t, full);
    ChildSlotBounds(t.keys, key);
    i := ChildSlot(t.keys, key);
    var left, mid, right := FlatAll(t.kids[..i]), Flat(t.kids[i]), FlatAll(t.kids[i + 1..]);
    FlatAround(t.kids, i);
    IncreasingParts(left, mid, right);
    RightOfChild(t, full, key, i);
    FirstKeyIsFirst(t.kids[i], full);
    UptoWithin(left, mid, right, key);
  }

  /** Where a key belongs among left + mid + right when right lies above it. */
  lemma UptoWithin(left: seq<Entry>, mid: seq<Entry>, right: seq<Entry>, key: int)
    requires Increasing(left + mid + right) && AllAbove(right, key) && Upto(mid, key) > 0
    ensures Upto(left + mid + right, key) == |left| + Upto(mid, key)
  {
    var n := Upto(mid, key);
    assert (left + mid + right)[|left| + n - 1] == mid[n - 1];
    assert |left| + n < |left + mid + right| ==>
        (left + mid + right)[|left| + n] == if n < |mid| then mid[n] else right[n - |mid|];
    UptoUnique(left + mid + right, key, |left| + n);
  }

  /** A search ends at the leaf whose separator is the largest that does not exceed the key. */
  lemma {:induction false} SearchFinds(t: DTree, full: int, key: int)
    requires Shaped(t, full) && Increasing(Flat(t)) && FirstKey(t) <= key
    ensures Upto(Flat(t), key) > 0
    ensures SearchTree(t, key) == Some(Flat(t)[Upto(Flat(t), key) - 1].blk)
    decreases t
  {
    match t
    case Low(_, recs) =>
      ChildSlotBounds(KeysOf(recs), key);
      UptoUnique(recs, key, ChildSlot(KeysOf(recs), key) + 1);
    case High(_, _, kids) =>
      var i := ChildOfKey(t, full, key);
      SearchFinds(kids[i], full, key);
      FlatAround(kids, i);
      IndexWithin(FlatAll(kids[..i]), Flat(kids[i]), FlatAll(kids[i + 1..]), Upto(Flat(kids[i]), key) - 1);
  }

  /** How many directory pages a search passes. */
  function SearchDepth(t: DTree, key: int): nat
    decreases t
  {
    match t
    case Low(_, _) => 1
    case High(_, keys, kids) =>
      var i := ChildSlot(keys, key);
      if 0 <= i < |kids| then 1 + SearchDepth(kids[i], key) else 1
  }

  /** All leaves are at one depth, whatever key is looked for. */
  lemma {:induction false} OneDepth(t: DTree, full: int, key: int)
    requires Shaped(t, full) && Increasing(Flat(t)) && FirstKey(t) <= key
    ensures SearchDepth(t, key) == Height(t) + 1
    decreases t
  {
    if t.High? {
      var i := ChildOfKey(t, full, key);
      OneDepth(t.kids[i], full, key);
    }
  }

  lemma IndexWithin<T>(left: seq<T>, mid: seq<T>, right: seq<T>, k: nat)
    requires k < |mid|
    ensures (left + mid + right)[|left| + k] == mid[k]
  {
  }
}
