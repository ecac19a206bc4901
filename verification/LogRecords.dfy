/**
 The byte form of log records. The operation code is stored as it is; log_ops.h:16-19 rounds
 it down to a multiple of four, which would make four of the six kinds indistinguishable.
 */
module LogRecords {
  import opened DbTypes
  import opened PageBytes
  import opened Recovery

  type Bytes = seq<Byte>

  const CHECKPOINT := 0
  const START := 1
  const COMMIT := 2
  const ROLLBACK := 3
  const SET_INT := 4
  const SET_STR := 5

  predicate Is32Bit(n: int) {
    -INT_LIMIT <= n < INT_LIMIT
  }

  /** A C++ string is a sequence of bytes. */
  predicate IsByteString(s: string) {
    (forall i :: 0 <= i < |s| ==> s[i] as int < 256) && |s| < INT_LIMIT
  }

  function ToBytes(s: string): (bs: Bytes)
    requires IsByteString(s)
    ensures |bs| == |s|
  {
    seq(|s|, i requires 0 <= i < |s| => s[i] as int)
  }

  function ToChars(bs: Bytes): (s: string)
    ensures |s| == |bs|
  {
    seq(|bs|, i requires 0 <= i < |bs| => bs[i] as char)
  }

  /** The record's numbers fit an int and its strings are byte strings. */
  predicate Storable(r: Rec) {
    match r
    case Checkpoint => true
    case SetVal(t, l, was) =>
      && Is32Bit(t) && IsByteString(l.blk.file) && Is32Bit(l.blk.num) && Is32Bit(l.off)
      && (match was case IntVal(i) => Is32Bit(i) case StrVal(s) => IsByteString(s))
    case _ => Is32Bit(r.tx)
  }

  function EncStr(s: string): Bytes
    requires IsByteString(s)
  {
    Enc(|s|) + ToBytes(s)
  }

  /** None stands for the exception a misaligned set_int throws. */
  function Encode(r: Rec): Option<Bytes>
    requires Storable(r)
  {
    match r
    case Checkpoint => Some(Enc(CHECKPOINT))
    case Start(t) => Some(Enc(START) + Enc(t))
    case Commit(t) => Some(Enc(COMMIT) + Enc(t))
    case Rollback(t) => Some(Enc(ROLLBACK) + Enc(t))
    case SetVal(t, l, was) =>
      var bpos := 2 * INT_SIZE + INT_SIZE + |l.blk.file|;
      if bpos % INT_SIZE != 0 then None
      else
        var op := if was.IntVal? then SET_INT else SET_STR;
        var val := match was case IntVal(i) => Enc(i) case StrVal(s) => EncStr(s);
        Some(Enc(op) + Enc(t) + EncStr(l.blk.file) + Enc(l.blk.num) + Enc(l.off) + val)
  }

  /** page::get_int; None stands for its exceptions. */
  function GetInt(s: Bytes, off: nat): Option<int> {
    if off % INT_SIZE == 0 && off + INT_SIZE <= |s| then Some(IntAt(s, off)) else None
  }

  /** page::get_string */
  function GetStr(s: Bytes, off: nat): Option<string> {
    match GetInt(s, off)
    case None => None
    case Some(len) =>
      if 0 <= len <= |s| - off - INT_SIZE
      then Some(ToChars(s[off + INT_SIZE..off + INT_SIZE + len])) else None
  }

  /** create_log_record; None stands for an exception or an unknown operation code. */
  function Decode(s: Bytes): Option<Rec> {
    var op, t := GetInt(s, 0), GetInt(s, INT_SIZE);
    if op == Some(CHECKPOINT) then Some(Checkpoint)
    else if op.None? || t.None? then None
    else if op.value == START then Some(Start(t.value))
    else if op.value == COMMIT then Some(Commit(t.value))
    else if op.value == ROLLBACK then Some(Rollback(t.value))
    else if op.value == SET_INT || op.value == SET_STR then DecodeSet(s, op.value, t.value)
    else None
  }

  function DecodeSet(s: Bytes, op: int, t: int): Option<Rec> {
    var file := GetStr(s, 2 * INT_SIZE);
    if file.None? then None
    else
      var bpos := 2 * INT_SIZE + INT_SIZE + |file.value|;
      var num, off := GetInt(s, bpos), GetInt(s, bpos + INT_SIZE);
      var vpos := bpos + 2 * INT_SIZE;
      var val := if op == SET_INT
                 then (match GetInt(s, vpos) case None => None case Some(i) => Some(IntVal(i)))
                 else (match GetStr(s, vpos) case None => None case Some(v) => Some(StrVal(v)));
      if num.None? || off.None? || val.None? then None
      else Some(SetVal(t, Loc(Block(file.value, num.value), off.value), val.value))
  }

  /** An integer in the middle of a byte string is read back. */
  lemma IntInside(pre: Bytes, n: int, post: Bytes)
    requires Is32Bit(n)
    ensures |pre| % INT_SIZE == 0 ==> GetInt(pre + Enc(n) + post, |pre|) == Some(n)
    ensures |pre| % INT_SIZE != 0 ==> GetInt(pre + Enc(n) + post, |pre|) == None
  {
    var s := pre + Enc(n) + post;
    assert s[|pre|..|pre| + INT_SIZE] == Enc(n);
    IntRoundTrip(n);
  }

  lemma StrInside(pre: Bytes, v: string, post: Bytes)
    requires IsByteString(v) && |pre| % INT_SIZE == 0
    ensures GetStr(pre + EncStr(v) + post, |pre|) == Some(v)
  {
    var s := pre + EncStr(v) + post;
    assert s == pre + Enc(|v|) + (ToBytes(v) + post);
    IntInside(pre, |v|, ToBytes(v) + post);
    var from := |pre| + INT_SIZE;
    assert s[from..from + |v|] == ToBytes(v);
    assert ToChars(ToBytes(v)) == v;
  }

  /** A logged write can be encoded exactly when its file name keeps the next field aligned. */
  lemma EncodableIff(r: Rec)
    requires Storable(r)
    ensures Encode(r).Some? <==> (r.SetVal? ==> |r.loc.blk.file| % INT_SIZE == 0)
  {
  }

  lemma EncodedLength(r: Rec)
    requires Storable(r) && Encode(r).Some?
    ensures |Encode(r).value| ==
            if r.Checkpoint? then INT_SIZE
            else if !r.SetVal? then 2 * INT_SIZE
            else |r.loc.blk.file| + 6 * INT_SIZE + if r.was.IntVal? then 0 else |r.was.s|
  {
  }

  /** The log takes the encoded record exactly when it is no string of an odd length. */
  lemma AppendableIff(r: Rec)
    requires Storable(r) && Encode(r).Some?
    ensures |Encode(r).value| % INT_SIZE == 0 <==>
            (r.SetVal? && r.was.StrVal? ==> |r.was.s| % INT_SIZE == 0)
  {
    EncodedLength(r);
    EncodableIff(r);
    if r.SetVal? {
      var k := |r.loc.blk.file| / INT_SIZE;
      assert |r.loc.blk.file| == INT_SIZE * k;
    }
  }

  function SetBytes(op: int, t: int, f: string, num: int, off: int, val: Bytes): Bytes
    requires Is32Bit(op) && Is32Bit(t) && IsByteString(f) && Is32Bit(num) && Is32Bit(off)
  {
    Enc(op) + Enc(t) + EncStr(f) + Enc(num) + Enc(off) + val
  }

  lemma SetHead(op: int, t: int, f: string, num: int, off: int, val: Bytes)
    requires Is32Bit(op) && Is32Bit(t) && IsByteString(f) && Is32Bit(num) && Is32Bit(off)
    ensures
      var s := SetBytes(op, t, f, num, off, val);
      GetInt(s, 0) == Some(op) && GetInt(s, INT_SIZE) == Some(t)
  {
    var s := SetBytes(op, t, f, num, off, val);
    var rest := EncStr(f) + Enc(num) + Enc(off) + val;
    assert s == [] + Enc(op) + (Enc(t) + rest);
    IntInside([], op, Enc(t) + rest);
    assert s == Enc(op) + Enc(t) + rest;
    IntInside(Enc(op), t, rest);
  }

  lemma SetFile(op: int, t: int, f: string, num: int, off: int, val: Bytes)
    requires Is32Bit(op) && Is32Bit(t) && IsByteString(f) && Is32Bit(num) && Is32Bit(off)
    ensures GetStr(SetBytes(op, t, f, num, off, val), 2 * INT_SIZE) == Some(f)
  {
    var rest := Enc(num) + Enc(off) + val;
    assert SetBytes(op, t, f, num, off, val) == (Enc(op) + Enc(t)) + EncStr(f) + rest;
    StrInside(Enc(op) + Enc(t), f, rest);
  }

  lemma SetTail(op: int, t: int, f: string, num: int, off: int, val: Bytes)
    requires Is32Bit(op) && Is32Bit(t) && IsByteString(f) && Is32Bit(num) && Is32Bit(off)
    requires |f| % INT_SIZE == 0
    ensures
      var s, bpos := SetBytes(op, t, f, num, off, val), 3 * INT_SIZE + |f|;
      GetInt(s, bpos) == Some(num) && GetInt(s, bpos + INT_SIZE) == Some(off)
  {
    var s := SetBytes(op, t, f, num, off, val);
    var pre := Enc(op) + Enc(t) + EncStr(f);
    assert s == pre + Enc(num) + (Enc(off) + val);
    IntInside(pre, num, Enc(off) + val);
    assert s == (pre + Enc(num)) + Enc(off) + val;
    IntInside(pre + Enc(num), off, val);
  }

  lemma SetIntValue(op: int, t: int, f: string, num: int, off: int, i: int)
    requires Is32Bit(op) && Is32Bit(t) && IsByteString(f) && Is32Bit(num) && Is32Bit(off) && Is32Bit(i)
    requires |f| % INT_SIZE == 0
    ensures GetInt(SetBytes(op, t, f, num, off, Enc(i)), 5 * INT_SIZE + |f|) == Some(i)
  {
    var pre := Enc(op) + Enc(t) + EncStr(f) + Enc(num) + Enc(off);
    var s := pre + Enc(i);
    assert |pre| == 5 * INT_SIZE + |f|;
    assert s == s + [];
    IntInside(pre, i, []);
  }

  lemma SetStrValue(op: int, t: int, f: string, num: int, off: int, v: string)
    requires Is32Bit(op) && Is32Bit(t) && IsByteString(f) && Is32Bit(num) && Is32Bit(off) && IsByteString(v)
    requires |f| % INT_SIZE == 0
    ensures GetStr(SetBytes(op, t, f, num, off, EncStr(v)), 5 * INT_SIZE + |f|) == Some(v)
  {
    var pre := Enc(op) + Enc(t) + EncStr(f) + Enc(num) + Enc(off);
    var s := pre + EncStr(v);
    assert |pre| == 5 * INT_SIZE + |f|;
    assert s == s + [];
    StrInside(pre, v, []);
  }

  /** Bytes whose fields read like that decode to the record. */
  lemma DecodeFields(s: Bytes, t: int, l: Loc, was: Value)
    requires GetInt(s, 0) == Some(if was.IntVal? then SET_INT else SET_STR)
    requires GetInt(s, INT_SIZE) == Some(t) && GetStr(s, 2 * INT_SIZE) == Some(l.blk.file)
    requires GetInt(s, 3 * INT_SIZE + |l.blk.file|) == Some(l.blk.num)
    requires GetInt(s, 4 * INT_SIZE + |l.blk.file|) == Some(l.off)
    requires match was
      case IntVal(i) => GetInt(s, 5 * INT_SIZE + |l.blk.file|) == Some(i)
      case StrVal(v) => GetStr(s, 5 * INT_SIZE + |l.blk.file|) == Some(v)
    ensures Decode(s) == Some(SetVal(t, l, was))
  {
  }

  /** Where the parts of a logged write lie: code, number, file name with its length, block, offset, value. */
  lemma SetLayout(t: int, l: Loc, was: Value)
    requires Storable(SetVal(t, l, was)) && |l.blk.file| % INT_SIZE == 0
    ensures
      var s, n := Encode(SetVal(t, l, was)).value, |l.blk.file|;
      && GetInt(s, 0) == Some(if was.IntVal? then 4 else 5) && GetInt(s, 4) == Some(t)
      && GetStr(s, 8) == Some(l.blk.file) && GetInt(s, 12 + n) == Some(l.blk.num) && GetInt(s, 16 + n) == Some(l.off)
      && match was case IntVal(i) => GetInt(s, 20 + n) == Some(i) case StrVal(v) => GetStr(s, 20 + n) == Some(v)
  {
    var op := if was.IntVal? then SET_INT else SET_STR;
    var val := match was case IntVal(i) => Enc(i) case StrVal(s) => EncStr(s);
    SetHead(op, t, l.blk.file, l.blk.num, l.off, val);
    SetFile(op, t, l.blk.file, l.blk.num, l.off, val);
    SetTail(op, t, l.blk.file, l.blk.num, l.off, val);
    match was {
      case IntVal(i) => SetIntValue(op, t, l.blk.file, l.blk.num, l.off, i);
      case StrVal(v) => SetStrValue(op, t, l.blk.file, l.blk.num, l.off, v);
    }
  }

  lemma SetRoundTrip(t: int, l: Loc, was: Value)
    requires Storable(SetVal(t, l, was)) && |l.blk.file| % INT_SIZE == 0
    ensures Decode(Encode(SetVal(t, l, was)).value) == Some(SetVal(t, l, was))
  {
    SetLayout(t, l, was);
    DecodeFields(Encode(SetVal(t, l, was)).value, t, l, was);
  }

  /** Every record that can be written is read back as it was. */
  lemma RecordRoundTrip(r: Rec)
    requires Storable(r) && Encode(r).Some?
    ensures Decode(Encode(r).value) == Some(r)
  {
    match r
    case Checkpoint =>
      assert Enc(CHECKPOINT) == [] + Enc(CHECKPOINT) + [];
      IntInside([], CHECKPOINT, []);
    case SetVal(t, l, was) => SetRoundTrip(t, l, was);
    case Start(t) => ShortRoundTrip(START, t);
    case Commit(t) => ShortRoundTrip(COMMIT, t);
    case Rollback(t) => ShortRoundTrip(ROLLBACK, t);
  }

  lemma ShortRoundTrip(op: int, t: int)
    requires Is32Bit(op) && Is32Bit(t)
    ensures GetInt(Enc(op) + Enc(t), 0) == Some(op) && GetInt(Enc(op) + Enc(t), INT_SIZE) == Some(t)
  {
    assert Enc(op) + Enc(t) == [] + Enc(op) + Enc(t);
    IntInside([], op, Enc(t));
    assert Enc(op) + Enc(t) == Enc(op) + Enc(t) + [];
    IntInside(Enc(op), t, []);
  }
}
