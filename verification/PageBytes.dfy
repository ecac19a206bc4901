/** Typed access to the bytes of a page: 32-bit integers and length-prefixed byte strings. */
module PageBytes {
  import opened DbTypes

  type Byte = b: int | 0 <= b < 256

  const INT_SIZE := 4
  const INT_LIMIT := 0x8000_0000

  /** The four bytes of a 32-bit integer, least significant first. */
  function Enc(n: int): (bs: seq<Byte>)
    requires -INT_LIMIT <= n < INT_LIMIT
    ensures |bs| == INT_SIZE
  {
    var u := if n < 0 then n + 2 * INT_LIMIT else n;
    [u % 256, u / 256 % 256, u / 65536 % 256, u / 16777216]
  }

  function Dec(bs: seq<Byte>): (n: int)
    requires |bs| == INT_SIZE
    ensures -INT_LIMIT <= n < INT_LIMIT
  {
    var b0: int, b1: int, b2: int, b3: int := bs[0], bs[1], bs[2], bs[3];
    var u := b0 + 256 * b1 + 65536 * b2 + 16777216 * b3;
    if u >= INT_LIMIT then u - 2 * INT_LIMIT else u
  }

  lemma IntRoundTrip(n: int)
    requires -INT_LIMIT <= n < INT_LIMIT
    ensures Dec(Enc(n)) == n
  {
    var u := if n < 0 then n + 2 * INT_LIMIT else n;
    var q1 := u / 256;
    var q2 := q1 / 256;
    var q3 := q2 / 256;
    assert u / 65536 == q2 && u / 16777216 == q3;
    assert u == q1 * 256 + u % 256 && q1 == q2 * 256 + q1 % 256 && q2 == q3 * 256 + q2 % 256;
  }

  function IntAt(s: seq<Byte>, off: nat): int
    requires off + INT_SIZE <= |s|
  {
    Dec(s[off..off + INT_SIZE])
  }

  /** The page after writing bytes at off. */
  function Put(s: seq<Byte>, off: nat, bs: seq<Byte>): (s': seq<Byte>)
    requires off + |bs| <= |s|
    ensures |s'| == |s|
  {
    s[..off] + bs + s[off + |bs|..]
  }

  lemma PutAt(s: seq<Byte>, off: nat, bs: seq<Byte>)
    requires off + |bs| <= |s|
    ensures Put(s, off, bs)[off..off + |bs|] == bs
  {
  }

  /** A stretch that does not overlap the written bytes keeps its bytes. */
  lemma PutElsewhere(s: seq<Byte>, off: nat, bs: seq<Byte>, a: nat, b: nat)
    requires off + |bs| <= |s| && a <= b <= |s|
    requires b <= off || off + |bs| <= a
    ensures Put(s, off, bs)[a..b] == s[a..b]
  {
  }

  /** What is written inside a stretch is written in that stretch. */
  lemma PutInside(s: seq<Byte>, off: nat, bs: seq<Byte>, a: nat, b: nat)
    requires a <= off && off + |bs| <= b <= |s|
    ensures Put(s, off, bs)[a..b] == Put(s[a..b], off - a, bs)
  {
  }

  /** A length-prefixed byte string can be read back, and its neighbours stay as they were. */
  lemma BytesRoundTrip(s: seq<Byte>, off: nat, bs: seq<Byte>)
    requires off + INT_SIZE + |bs| <= |s| < INT_LIMIT
    ensures
      var s' := Put(s, off, Enc(|bs|) + bs);
      && IntAt(s', off) == |bs|
      && s'[off + INT_SIZE..off + INT_SIZE + |bs|] == bs
      && s'[..off] == s[..off]
      && s'[off + INT_SIZE + |bs|..] == s[off + INT_SIZE + |bs|..]
  {
    var s' := Put(s, off, Enc(|bs|) + bs);
    PutAt(s, off, Enc(|bs|) + bs);
    assert s'[off..off + INT_SIZE] == (Enc(|bs|) + bs)[..INT_SIZE] == Enc(|bs|);
    IntRoundTrip(|bs|);
  }

  class BytePage {
    const buffer: array<Byte>

    constructor (size: nat)
      ensures fresh(buffer) && buffer.Length == size
      ensures forall i :: 0 <= i < size ==> buffer[i] == 0
    {
      buffer := new Byte[size](_ => 0);
    }

    /** None stands for the exception on a misaligned or out-of-range offset. */
    method GetInt(offset: nat) returns (r: Option<int>)
      ensures r == if offset % INT_SIZE == 0 && offset + INT_SIZE <= buffer.Length
                   then Some(IntAt(buffer[..], offset)) else None
    {
      if offset % INT_SIZE != 0 || offset + INT_SIZE > buffer.Length {
        return None;
      }
      assert buffer[..][offset..offset + INT_SIZE] == buffer[offset..offset + INT_SIZE];
      r := Some(Dec(buffer[offset..offset + INT_SIZE]));
    }

    method SetInt(offset: nat, num: int) returns (ok: bool)
      requires -INT_LIMIT <= num < INT_LIMIT
      modifies buffer
      ensures ok <==> offset % INT_SIZE == 0 && offset + INT_SIZE <= buffer.Length
      ensures buffer[..] == if ok then Put(old(buffer[..]), offset, Enc(num)) else old(buffer[..])
    {
      if offset % INT_SIZE != 0 || offset + INT_SIZE > buffer.Length {
        return false;
      }
      var bs := Enc(num);
      buffer[offset] := bs[0];
      buffer[offset + 1] := bs[1];
      buffer[offset + 2] := bs[2];
      buffer[offset + 3] := bs[3];
      ok := true;
    }

    method GetBytes(offset: nat) returns (r: Option<seq<Byte>>)
      ensures
        var s := buffer[..];
        r == if offset % INT_SIZE == 0 && offset + INT_SIZE <= |s| && 0 <= IntAt(s, offset) <= |s| - offset - INT_SIZE
             then Some(s[offset + INT_SIZE..offset + INT_SIZE + IntAt(s, offset)]) else None
    {
      var len := GetInt(offset);
      if len.None? || len.value < 0 || offset + len.value + INT_SIZE > buffer.Length {
        return None;
      }
      r := Some(buffer[offset + INT_SIZE..offset + INT_SIZE + len.value]);
    }

    method SetBytes(offset: nat, bs: seq<Byte>) returns (ok: bool)
      requires |bs| < INT_LIMIT
      modifies buffer
      ensures ok <==> offset % INT_SIZE == 0 && offset + INT_SIZE + |bs| <= buffer.Length
      ensures buffer[..] == if ok then Put(old(buffer[..]), offset, Enc(|bs|) + bs) else old(buffer[..])
    {
      if offset + INT_SIZE + |bs| > buffer.Length {
        return false;
      }
      ok := SetInt(offset, |bs|);
      if ok {
        CopyIn(offset + INT_SIZE, bs);
        assert Put(Put(old(buffer[..]), offset, Enc(|bs|)), offset + INT_SIZE, bs)
            == Put(old(buffer[..]), offset, Enc(|bs|) + bs);
      }
    }

    method CopyIn(from: nat, bs: seq<Byte>)
      requires from + |bs| <= buffer.Length
      modifies buffer
      ensures buffer[..] == Put(old(buffer[..]), from, bs)
    {
      forall i | 0 <= i < |bs| {
        buffer[from + i] := bs[i];
      }
    }
  }
}
