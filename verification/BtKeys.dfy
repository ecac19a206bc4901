/**
 Keys of any ordered type. A B-tree does nothing with keys but compare them, and a run meets finitely
 many: their ranks, counted from the smallest integer on, compare as they do, and the multimap of a
 run over ranks is that of the run over the keys.
 */
module BtKeys {
  import opened DbTypes
  import opened BtDirs
  import opened BtCovers
  import opened BtMultimap

  /** less orders all keys strictly. */
  ghost predicate TotalOrder<K(!new)>(less: (K, K) -> bool) {
    && (forall a :: !less(a, a))
    && (forall a, b :: a != b ==> less(a, b) || less(b, a))
    && (forall a, b, c :: less(a, b) && less(b, c) ==> less(a, c))
  }

  function Smaller<K>(less: (K, K) -> bool, keys: set<K>, k: K): set<K> {
    set x | x in keys && less(x, k)
  }

  function Rank<K>(less: (K, K) -> bool, keys: set<K>, k: K): (r: int)
    ensures r >= MIN_KEY
  {
    MIN_KEY + |Smaller(less, keys, k)|
  }

  lemma {:induction false} FewerElements<K>(a: set<K>, b: set<K>)
    requires a <= b
    ensures |a| <= |b| && (a != b ==> |a| < |b|)
    decreases a
  {
    if a != {} {
      var x :| x in a;
      FewerElements(a - {x}, b - {x});
    }
  }

  lemma RankLess<K(!new)>(less: (K, K) -> bool, keys: set<K>, a: K, b: K)
    requires TotalOrder(less) && a in keys && less(a, b)
    ensures Rank(less, keys, a) < Rank(less, keys, b)
  {
    assert a in Smaller(less, keys, b) && a !in Smaller(less, keys, a);
    FewerElements(Smaller(less, keys, a), Smaller(less, keys, b));
  }

  /** Ranks compare as the keys do, and the least key has the least rank. */
  lemma RankKeepsOrder<K(!new)>(less: (K, K) -> bool, keys: set<K>, a: K, b: K)
    requires TotalOrder(less) && a in keys && b in keys
    ensures less(a, b) <==> Rank(less, keys, a) < Rank(less, keys, b)
    ensures a == b <==> Rank(less, keys, a) == Rank(less, keys, b)
    ensures (forall x :: x in keys ==> !less(x, a)) <==> Rank(less, keys, a) == MIN_KEY
  {
    if less(a, b) {
      RankLess(less, keys, a, b);
    } else if less(b, a) {
      RankLess(less, keys, b, a);
    }
    if Rank(less, keys, a) == MIN_KEY {
      forall x | x in keys
        ensures !less(x, a)
      {
        assert x !in Smaller(less, keys, a);
      }
    }
  }

  // ---------- runs over such keys ----------

  datatype KeyOp<K> = Adds(key: K, rid: Rid) | Removes(key: K, rid: Rid)

  function Ranked<K>(less: (K, K) -> bool, keys: set<K>, ops: seq<KeyOp<K>>): seq<Op> {
    if ops == [] then []
    else
      var r := Rank(less, keys, ops[0].key);
      [if ops[0].Adds? then Put(r, ops[0].rid) else Del(r, ops[0].rid)] + Ranked(less, keys, ops[1..])
  }

  /** The multimap the run makes of m. */
  function KeyMapEnd<K(==)>(m: multiset<(K, Rid)>, ops: seq<KeyOp<K>>): multiset<(K, Rid)>
    decreases |ops|
  {
    if ops == [] then m
    else
      var pair := multiset{(ops[0].key, ops[0].rid)};
      KeyMapEnd(if ops[0].Adds? then m + pair else m - pair, ops[1..])
  }

  /** n holds under every rank what m holds under the key. */
  ghost predicate SameMap<K(!new)>(less: (K, K) -> bool, keys: set<K>, m: multiset<(K, Rid)>, n: multiset<(int, Rid)>) {
    forall k, rid :: k in keys ==> n[(Rank(less, keys, k), rid)] == m[(k, rid)]
  }

  lemma {:induction false} MapsStaySame<K(!new)>(less: (K, K) -> bool, keys: set<K>, m: multiset<(K, Rid)>,
                                                 n: multiset<(int, Rid)>, ops: seq<KeyOp<K>>)
    requires TotalOrder(less) && SameMap(less, keys, m, n) && forall i :: 0 <= i < |ops| ==> ops[i].key in keys
    ensures SameMap(less, keys, KeyMapEnd(m, ops), MapEnd(n, Ranked(less, keys, ops)))
    decreases |ops|
  {
    if ops != [] {
      var op, r := ops[0], Rank(less, keys, ops[0].key);
      var m' := if op.Adds? then m + multiset{(op.key, op.rid)} else m - multiset{(op.key, op.rid)};
      var n' := OnMap(n, if op.Adds? then Put(r, op.rid) else Del(r, op.rid));
      forall k, rid | k in keys
        ensures n'[(Rank(less, keys, k), rid)] == m'[(k, rid)]
      {
        RankKeepsOrder(less, keys, k, op.key);
        assert n[(Rank(less, keys, k), rid)] == m[(k, rid)];
      }
      MapsStaySame(less, keys, m', n', ops[1..]);
      assert Ranked(less, keys, ops)[1..] == Ranked(less, keys, ops[1..]);
    }
  }

  /** An index over the ranks finds, for every key of the run, exactly the record ids that the run leaves under that key. */
  lemma AnyKeys<K(!new)>(less: (K, K) -> bool, keys: set<K>, c: Cover, full: int, ops: seq<KeyOp<K>>, k: K, rid: Rid)
    requires TotalOrder(less) && k in keys && forall i :: 0 <= i < |ops| ==> ops[i].key in keys
    requires Agrees(c, full, multiset{}) && Runs(c, full, Ranked(less, keys, ops))
    ensures Covered(RunEnd(c, full, Ranked(less, keys, ops)), full)
    ensures multiset(Lookup(RunEnd(c, full, Ranked(less, keys, ops)), full, Rank(less, keys, k)))[rid] ==
            KeyMapEnd(multiset{}, ops)[(k, rid)]
  {
    RunAgrees(c, full, multiset{}, Ranked(less, keys, ops));
    MapsStaySame(less, keys, multiset{}, multiset{}, ops);
  }
}
