/** The order of constants: integers before strings, each among themselves as usual. */
module Constants {
  import opened DbTypes
  import opened BtKeys
  import opened MergeJoins

  /** Character by character; a proper prefix is smaller. */
  predicate TextLess(a: string, b: string) {
    if b == "" then false
    else if a == "" then true
    else a[0] < b[0] || (a[0] == b[0] && TextLess(a[1..], b[1..]))
  }

  /** operator< */
  predicate Less(a: Value, b: Value) {
    match (a, b)
    case (IntVal(i), IntVal(j)) => i < j
    case (IntVal(_), StrVal(_)) => true
    case (StrVal(_), IntVal(_)) => false
    case (StrVal(s), StrVal(t)) => TextLess(s, t)
  }

  function CompareTo(a: Value, b: Value): int {
    if Less(a, b) then -1 else if Less(b, a) then 1 else 0
  }

  /** b goes on where a ends, or is larger where they first differ. */
  ghost predicate LessAt(a: string, b: string, k: int) {
    && 0 <= k <= |a| && k < |b| && (forall j :: 0 <= j < k ==> a[j] == b[j])
    && (k == |a| || a[k] as int < b[k] as int)
  }

  lemma {:induction false} TextLessIs(a: string, b: string)
    ensures TextLess(a, b) <==> exists k :: LessAt(a, b, k)
    decreases |a|
  {
    if a == "" {
      assert b != "" ==> LessAt(a, b, 0);
    } else if b != "" {
      TextLessIs(a[1..], b[1..]);
      assert a[0] < b[0] ==> LessAt(a, b, 0);
      if a[0] == b[0] {
        FirstSame(a, b);
      } else {
        DifferAtOnce(a, b);
      }
    }
  }

  lemma DifferAtOnce(a: string, b: string)
    requires a != "" && b != "" && a[0] != b[0]
    ensures forall k :: LessAt(a, b, k) ==> k == 0
  {
  }

  lemma FirstSame(a: string, b: string)
    requires a != "" && b != "" && a[0] == b[0]
    ensures (exists k :: LessAt(a, b, k)) <==> exists k :: LessAt(a[1..], b[1..], k)
  {
    forall k
      ensures LessAt(a, b, k) <==> k > 0 && LessAt(a[1..], b[1..], k - 1)
    {
      if k > 0 && LessAt(a[1..], b[1..], k - 1) {
        assert forall j :: 0 < j < k ==> a[1..][j - 1] == a[j] && b[1..][j - 1] == b[j];
      }
    }
    assert forall k :: LessAt(a[1..], b[1..], k) ==> LessAt(a, b, k + 1);
  }

  /** Integers by size, in front of all strings; strings by their first difference, a prefix before what goes on behind it. */
  lemma LessIs(i: int, j: int, s: string, t: string)
    ensures Less(IntVal(i), IntVal(j)) <==> i < j
    ensures Less(IntVal(i), StrVal(s)) && !Less(StrVal(s), IntVal(i))
    ensures Less(StrVal(s), StrVal(t)) <==> exists k :: LessAt(s, t, k)
  {
    TextLessIs(s, t);
  }

  /** compare_to is negative, zero or positive as its first argument is smaller, equal or larger. */
  lemma CompareIs(a: Value, b: Value)
    ensures CompareTo(a, b) < 0 <==> Less(a, b)
    ensures CompareTo(a, b) == 0 <==> a == b
    ensures CompareTo(a, b) > 0 <==> Less(b, a)
  {
    ConstantsOrdered();
    LessOneWay(a, b);
  }

  lemma {:induction false} TextTotal(a: string, b: string)
    ensures !TextLess(a, a)
    ensures a != b ==> TextLess(a, b) || TextLess(b, a)
    ensures !(TextLess(a, b) && TextLess(b, a))
    decreases |a|
  {
    if a != "" && b != "" {
      TextTotal(a[1..], b[1..]);
      assert a == [a[0]] + a[1..] && b == [b[0]] + b[1..];
    } else if a != "" {
      TextTotal(a[1..], b);
    }
  }

  lemma {:induction false} TextTransitive(a: string, b: string, c: string)
    requires TextLess(a, b) && TextLess(b, c)
    ensures TextLess(a, c)
    decreases |a|
  {
    if a != "" && a[0] == b[0] == c[0] {
      TextTransitive(a[1..], b[1..], c[1..]);
    }
  }

  /** It orders all constants, so that a B-tree can index any field. */
  lemma ConstantsOrdered()
    ensures TotalOrder(Less)
  {
    forall a: Value, b: Value
      ensures !Less(a, a) && (a != b ==> Less(a, b) || Less(b, a)) && !(Less(a, b) && Less(b, a))
    {
      if a.StrVal? && b.StrVal? {
        TextTotal(a.s, b.s);
      } else if a.StrVal? {
        TextTotal(a.s, a.s);
      }
    }
    forall a: Value, b: Value, c: Value | Less(a, b) && Less(b, c)
      ensures Less(a, c)
    {
      if a.StrVal? {
        TextTransitive(a.s, b.s, c.s);
      }
    }
  }

  /** compare_to is what a merge join asks of its comparison. */
  lemma CompareOrders()
    ensures Orders(CompareTo)
  {
    ConstantsOrdered();
    forall a: Value, b: Value
      ensures Antisymmetric(CompareTo, a, b)
    {
      LessOneWay(a, b);
    }
    forall a: Value, b: Value, c: Value
      ensures Transitive(CompareTo, a, b, c)
    {
      LessOneWay(a, b);
      LessOneWay(b, c);
      LessOneWay(a, c);
    }
  }

  lemma LessOneWay(a: Value, b: Value)
    requires TotalOrder(Less)
    ensures !(Less(a, b) && Less(b, a)) && (CompareTo(a, b) == 0 <==> a == b)
  {
    assert !Less(a, a) && (Less(a, b) && Less(b, a) ==> Less(a, a));
  }
}
