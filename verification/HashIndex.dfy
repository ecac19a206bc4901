/**
 The static hash index: a fixed number of buckets, each a heap file of (value, record id)
 entries. The hash code itself is a parameter.
 */
module HashIndexes {
  import opened DbTypes
  import opened HeapFiles

  datatype IdxEntry<V> = IdxEntry(val: V, rid: Rid)

  type Bucket<V> = seq<Slots<IdxEntry<V>>>

  /** The entries a bucket holds. */
  ghost function Bag<V>(bucket: Bucket<V>): multiset<IdxEntry<V>> {
    multiset(UsedRows(bucket))
  }

  // ---------- the record ids found under a key ----------

  function RidsOf<V(==)>(entries: seq<IdxEntry<V>>, key: V): seq<Rid> {
    if entries == [] then []
    else RidsOf(entries[..|entries| - 1], key) + (var e := entries[|entries| - 1]; if e.val == key then [e.rid] else [])
  }

  lemma RidsMore<V>(entries: seq<IdxEntry<V>>, e: IdxEntry<V>, key: V)
    ensures RidsOf(entries + [e], key) == RidsOf(entries, key) + if e.val == key then [e.rid] else []
  {
    assert (entries + [e])[..|entries|] == entries;
  }

  /** Each record id is found as often as its entry is stored. */
  lemma {:induction false} RidsCount<V>(entries: seq<IdxEntry<V>>, key: V, rid: Rid)
    ensures multiset(RidsOf(entries, key))[rid] == multiset(entries)[IdxEntry(key, rid)]
    decreases |entries|
  {
    if entries != [] {
      var init, last := entries[..|entries| - 1], entries[|entries| - 1];
      assert entries == init + [last];
      RidsCount(init, key, rid);
    }
  }

  lemma NotThere<V>(entries: seq<IdxEntry<V>>, key: V, rid: Rid)
    requires rid !in RidsOf(entries, key)
    ensures multiset(entries) - multiset{IdxEntry(key, rid)} == multiset(entries)
  {
    RidsCount(entries, key, rid);
  }

  lemma {:induction false} RidsPrefix<V>(entries: seq<IdxEntry<V>>, n: nat, key: V)
    requires n <= |entries|
    ensures IsPrefix(RidsOf(entries[..n], key), RidsOf(entries, key))
    decreases |entries| - n
  {
    if n < |entries| {
      RidsPrefix(entries, n + 1, key);
      RidsMore(entries[..n], entries[n], key);
      assert entries[..n + 1] == entries[..n] + [entries[n]];
    } else {
      assert entries[..n] == entries;
    }
  }

  // ---------- the index ----------

  class HashIndex<V(==)> {
    const hash: V -> nat
    const perBlock: nat
    const empty: IdxEntry<V>
    var buckets: seq<Bucket<V>>
    var searchKey: V
    var ts: TableScan<IdxEntry<V>>

    function BucketOf(val: V): nat
      requires |buckets| > 0
      reads this
    {
      hash(val) % |buckets|
    }

    ghost predicate Valid()
      reads this
    {
      perBlock > 0 && |buckets| > 0 && forall b :: 0 <= b < |buckets| ==> BucketOk(buckets[b], perBlock)
    }

    /** The cursor is in the bucket of the search key. */
    ghost predicate Open()
      reads this, ts
    {
      Valid() && ts.Valid() && UsedRows(ts.blocks) == UsedRows(buckets[BucketOf(searchKey)])
    }

    /** The record ids stored under key, in the order the cursor shows them. */
    ghost function Stored(key: V): seq<Rid>
      requires |buckets| > 0
      reads this
    {
      RidsOf(UsedRows(buckets[BucketOf(key)]), key)
    }

    /** What the cursor has shown. */
    ghost function Shown(): seq<Rid>
      requires ts.Valid()
      reads this, ts
    {
      RidsOf(Passed(ts.blocks, ts.currBlk, ts.currSlot), searchKey)
    }

    constructor (hash: V -> nat, buckets: seq<Bucket<V>>, perBlock: nat, empty: IdxEntry<V>)
      requires perBlock > 0 && |buckets| > 0 && forall b :: 0 <= b < |buckets| ==> BucketOk(buckets[b], perBlock)
      ensures Valid() && fresh(ts) && this.buckets == buckets && this.hash == hash && this.perBlock == perBlock
      ensures this.empty == empty
    {
      this.hash, this.buckets, this.perBlock, this.empty := hash, buckets, perBlock, empty;
      searchKey := empty.val;
      ts := new TableScan([], perBlock, empty);
    }

    method BeforeFirst(key: V)
      requires Valid()
      modifies this`searchKey, this`ts
      ensures Open() && fresh(ts) && searchKey == key && Shown() == [] && ts.perBlock == perBlock
    {
      searchKey := key;
      ts := new TableScan(buckets[BucketOf(key)], perBlock, empty);
      assert ts.blocks[..0] == [] && ts.blocks[0][..0] == [];
    }

    /** On to the next entry of the search key; past others. */
    method Next() returns (found: bool)
      requires Open()
      modifies ts
      ensures Open() && ts.blocks == old(ts.blocks)
      ensures found ==> ts.OnRecord() && RowAt(ts.blocks, ts.Here()).val == searchKey
      ensures found ==> Shown() == old(Shown()) + [RowAt(ts.blocks, ts.Here()).rid]
      ensures found ==> Behind(old(ts.currBlk), old(ts.currSlot), ts.currBlk, ts.currSlot)
      ensures !found ==> old(Shown()) == Stored(searchKey)
    {
      ghost var passed := Passed(ts.blocks, ts.currBlk, ts.currSlot);
      found := ts.Next();
      while found
        invariant Open() && ts.blocks == old(ts.blocks) && RidsOf(passed, searchKey) == old(Shown())
        invariant found ==> ts.OnRecord() && Behind(old(ts.currBlk), old(ts.currSlot), ts.currBlk, ts.currSlot)
        invariant found ==> Passed(ts.blocks, ts.currBlk, ts.currSlot) == passed + [RowAt(ts.blocks, ts.Here())]
        invariant !found ==> passed == UsedRows(ts.blocks)
        decreases found, |ts.blocks| - ts.currBlk, ts.perBlock - ts.currSlot
      {
        var e := ts.Get();
        RidsMore(passed, e, searchKey);
        if e.val == searchKey {
          return;
        }
        passed := passed + [e];
        found := ts.Next();
      }
    }

    lemma ShownIsStored(rid: Rid)
      requires Open() && rid in Shown()
      ensures rid in Stored(searchKey)
    {
      PassedIsPrefix(ts.blocks, ts.currBlk, ts.currSlot);
      RidsPrefix(UsedRows(ts.blocks), |Passed(ts.blocks, ts.currBlk, ts.currSlot)|, searchKey);
    }

    method GetDataRid() returns (rid: Rid)
      requires Open() && ts.OnRecord()
      ensures rid == RowAt(ts.blocks, ts.Here()).rid
    {
      var e := ts.Get();
      rid := e.rid;
    }

    /** Everything stored under a key. */
    method ReadAll(key: V) returns (rids: seq<Rid>)
      requires Valid()
      modifies this`searchKey, this`ts
      ensures rids == Stored(key)
    {
      BeforeFirst(key);
      rids := [];
      var found := Next();
      while found
        invariant Open() && fresh(ts) && searchKey == key
        invariant found ==> ts.OnRecord() && Shown() == rids + [RowAt(ts.blocks, ts.Here()).rid]
        invariant !found ==> rids == Stored(key)
        decreases found, |ts.blocks| - ts.currBlk, ts.perBlock - ts.currSlot
      {
        var rid := GetDataRid();
        rids := rids + [rid];
        found := Next();
      }
    }

    /** Add an entry to the open bucket. */
    method AddEntry(e: IdxEntry<V>)
      requires ts.Valid()
      modifies ts
      ensures ts.Valid() && Bag(ts.blocks) == Bag(old(ts.blocks)) + multiset{e}
    {
      ghost var before := Bag(ts.blocks);
      ts.Insert();
      ghost var stale := RowAt(ts.blocks, ts.Here());
      ts.Set(e);
      Replaced(before, stale, e, Bag(ts.blocks));
    }

    lemma Replaced(before: multiset<IdxEntry<V>>, stale: IdxEntry<V>, e: IdxEntry<V>, after: multiset<IdxEntry<V>>)
      requires after + multiset{stale} == before + multiset{stale} + multiset{e}
      ensures after == before + multiset{e}
    {
      assert (after + multiset{stale}) - multiset{stale} == after;
      assert ((before + multiset{e}) + multiset{stale}) - multiset{stale} == before + multiset{e};
    }

    /** Remove the first entry of the search key with this record id from the open bucket, if there is one. */
    method RemoveEntry(rid: Rid)
      requires Open() && Shown() == []
      modifies ts
      ensures ts.Valid() && ts.perBlock == old(ts.perBlock)
      ensures Bag(ts.blocks) == Bag(old(ts.blocks)) - multiset{IdxEntry(searchKey, rid)}
    {
      ghost var shown := Shown();
      var found := Next();
      while found
        invariant Open() && ts.blocks == old(ts.blocks) && rid !in shown
        invariant found ==> ts.OnRecord() && RowAt(ts.blocks, ts.Here()).val == searchKey
        invariant found ==> Shown() == shown + [RowAt(ts.blocks, ts.Here()).rid]
        invariant !found ==> shown == Stored(searchKey)
        decreases found, |ts.blocks| - ts.currBlk, ts.perBlock - ts.currSlot
      {
        var r := GetDataRid();
        if r == rid {
          TakeOut(rid);
          return;
        }
        shown := Shown();
        found := Next();
      }
      NotThere(UsedRows(ts.blocks), searchKey, rid);
    }

    method TakeOut(rid: Rid)
      requires ts.OnRecord() && RowAt(ts.blocks, ts.Here()) == IdxEntry(searchKey, rid)
      modifies ts
      ensures ts.Valid() && Bag(ts.blocks) == Bag(old(ts.blocks)) - multiset{IdxEntry(searchKey, rid)}
    {
      ghost var before, e := Bag(ts.blocks), RowAt(ts.blocks, ts.Here());
      ts.DeleteRecord();
      assert (Bag(ts.blocks) + multiset{e}) - multiset{e} == Bag(ts.blocks);
    }

    /** One entry more, in the bucket of its value; every other bucket stays. */
    method Insert(val: V, rid: Rid)
      requires Valid()
      modifies this
      ensures Valid() && |buckets| == |old(buckets)| && buckets == old(buckets)[BucketOf(val) := buckets[BucketOf(val)]]
      ensures Bag(buckets[BucketOf(val)]) == Bag(old(buckets)[BucketOf(val)]) + multiset{IdxEntry(val, rid)}
    {
      BeforeFirst(val);
      AddEntry(IdxEntry(val, rid));
      buckets := buckets[BucketOf(val) := ts.blocks];
    }

    /** The first such entry goes, if there is one; every other bucket stays. */
    method DeleteRecord(val: V, rid: Rid)
      requires Valid()
      modifies this
      ensures Valid() && |buckets| == |old(buckets)| && buckets == old(buckets)[BucketOf(val) := buckets[BucketOf(val)]]
      ensures Bag(buckets[BucketOf(val)]) == Bag(old(buckets)[BucketOf(val)]) - multiset{IdxEntry(val, rid)}
    {
      BeforeFirst(val);
      RemoveEntry(rid);
      buckets := buckets[BucketOf(val) := ts.blocks];
    }
  }

  predicate BucketOk<V>(bucket: Bucket<V>, perBlock: nat) {
    bucket == [] || FileOk(bucket, perBlock)
  }
}
