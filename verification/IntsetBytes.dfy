/** Integers packed into bytes (intset.c): two's complement, little endian, in two, four or eight
    bytes each. */
module IntsetBytes {
  import opened Buffers

  /** INTSET_ENC_INT16, INTSET_ENC_INT32, INTSET_ENC_INT64 */
  predicate IsEncoding(enc: int) {
    enc == 2 || enc == 4 || enc == 8
  }

  /** The number of values of an encoding. */
  function Full(enc: int): nat
    requires IsEncoding(enc)
  {
    if enc == 2 then 0x1_0000 else if enc == 4 then 0x1_0000_0000 else 0x1_0000_0000_0000_0000
  }

  predicate InRange(v: int, enc: int)
    requires IsEncoding(enc)
  {
    -(Full(enc) / 2) <= v < Full(enc) / 2
  }

  predicate IsInt64(v: int) {
    InRange(v, 8)
  }

  /** _intsetValueEncoding */
  function ValueEncoding(v: int): (enc: int)
    ensures IsEncoding(enc) && (IsInt64(v) ==> InRange(v, enc))
    ensures forall e | IsEncoding(e) && IsInt64(v) :: InRange(v, e) <==> e >= enc
  {
    if v < -0x8000_0000 || v > 0x7FFF_FFFF then 8
    else if v < -0x8000 || v > 0x7FFF then 4
    else 2
  }

  // ---- two's complement ---------------------------------------------------------------------------

  lemma FullIsPow256(enc: int)
    requires IsEncoding(enc)
    ensures Pow256(enc) == Full(enc)
  {
    assert Pow256(2) == 0x1_0000;
    assert Pow256(4) == 0x1_0000_0000;
  }

  function Decode(b: Bytes, enc: int): (v: int)
    requires IsEncoding(enc) && |b| == enc
    ensures InRange(v, enc)
  {
    FullIsPow256(enc);
    var u := FromLE(b);
    if u >= Full(enc) / 2 then u - Full(enc) else u
  }

  function Encode(v: int, enc: int): (b: Bytes)
    requires IsEncoding(enc) && InRange(v, enc)
    ensures |b| == enc
  {
    ToLE(if v < 0 then v + Full(enc) else v, enc)
  }

  lemma DecodeEncode(v: int, enc: int)
    requires IsEncoding(enc) && InRange(v, enc)
    ensures Decode(Encode(v, enc), enc) == v
  {
    FullIsPow256(enc);
    ToFromLE(if v < 0 then v + Full(enc) else v, enc);
  }

  lemma Front(a: Byte, rest: Bytes)
    ensures FromLE([a] + rest) == a + 256 * FromLE(rest) && FromLE([]) == 0
  {
    assert ([a] + rest)[1..] == rest;
  }

  lemma LittleEndian(a: Byte, b: Byte, c: Byte, d: Byte, high: Bytes)
    ensures FromLE([a] + high) == a + 256 * FromLE(high)
    ensures FromLE([a, b]) == a + 256 * b && FromLE([a, b, c, d]) == a + 256 * b + 65536 * c + 16777216 * d
  {
    assert ([a] + high)[1..] == high;
    Front(a, [b]);
    Front(b, []);
    Front(a, [b, c, d]);
    Front(b, [c, d]);
    Front(c, [d]);
    Front(d, []);
  }

  /** The bytes of the three encodings, the lowest first; the highest bit is the sign. */
  lemma EncodingBytes(a: Byte, b: Byte, c: Byte, d: Byte)
    ensures Decode([a, b], 2) == a + 256 * b - if b >= 128 then 0x1_0000 else 0
    ensures Decode([a, b, c, d], 4) == a + 256 * b + 65536 * c + 16777216 * d - if d >= 128 then 0x1_0000_0000 else 0
    ensures Encode(-2, 8) == [254, 255, 255, 255, 255, 255, 255, 255] && Encode(259, 8) == [3, 1, 0, 0, 0, 0, 0, 0]
  {
    LittleEndian(a, b, c, d, []);
    WideBytes();
  }

  lemma LEStep(n: nat, k: nat, q: nat, r: nat)
    requires k > 0 && n == 256 * q + r && r < 256
    ensures ToLE(n, k) == [r] + ToLE(q, k - 1) && ToLE(0, 0) == []
  {
  }

  /** A number whose bytes are all 255. */
  lemma {:induction false} AllOnes(n: nat, k: nat)
    requires n + 1 == Pow256(k)
    ensures ToLE(n, k) == seq(k, _ => 255)
  {
    if k > 0 {
      hide ToLE;
      var q := Pow256(k - 1) - 1;
      LEStep(n, k, q, 255);
      AllOnes(q, k - 1);
    }
  }

  lemma {:induction false} AllZeros(k: nat)
    ensures ToLE(0, k) == seq(k, _ => 0)
  {
    if k > 0 {
      hide ToLE;
      LEStep(0, k, 0, 0);
      AllZeros(k - 1);
    }
  }

  lemma WideBytes()
    ensures ToLE(0x1_0000_0000_0000_0000 - 2, 8) == [254, 255, 255, 255, 255, 255, 255, 255]
    ensures ToLE(259, 8) == [3, 1, 0, 0, 0, 0, 0, 0]
  {
    hide ToLE;
    SevenBytes();
    AllOnes(0xFF_FFFF_FFFF_FFFF, 7);
    LEStep(0x1_0000_0000_0000_0000 - 2, 8, 0xFF_FFFF_FFFF_FFFF, 254);
    AllZeros(6);
    LEStep(1, 7, 0, 1);
    LEStep(259, 8, 1, 3);
  }

  lemma SevenBytes()
    ensures Pow256(7) == 0x100_0000_0000_0000
  {
    assert Pow256(4) == 0x1_0000_0000;
  }

  // ---- positions -----------------------------------------------------------------------------------

  /** pos * enc */
  function Off(pos: nat, enc: int): nat
    requires IsEncoding(enc)
  {
    if enc == 2 then 2 * pos else if enc == 4 then 4 * pos else 8 * pos
  }

  /** _intsetGetEncoded */
  function Get(c: Bytes, pos: nat, enc: int): (v: int)
    requires IsEncoding(enc) && Off(pos + 1, enc) <= |c|
    ensures InRange(v, enc)
  {
    Decode(c[Off(pos, enc)..Off(pos + 1, enc)], enc)
  }

  /** _intsetSet */
  function Set(c: Bytes, pos: nat, v: int, enc: int): (r: Bytes)
    requires IsEncoding(enc) && Off(pos + 1, enc) <= |c| && InRange(v, enc)
    ensures |r| == |c|
  {
    MemCpy(c, Off(pos, enc), Encode(v, enc))
  }

  lemma GetSet(c: Bytes, pos: nat, v: int, enc: int)
    requires IsEncoding(enc) && Off(pos + 1, enc) <= |c| && InRange(v, enc)
    ensures Get(Set(c, pos, v, enc), pos, enc) == v
  {
    hide Encode, Decode, MemCpy;
    MemCpyInside(c, Off(pos, enc), Encode(v, enc));
    DecodeEncode(v, enc);
  }

  /** Writing one value leaves every value alone that occupies other bytes, whatever the two
      encodings are. */
  lemma GetSetOther(c: Bytes, pos: nat, v: int, enc: int, q: nat, e: int)
    requires IsEncoding(enc) && Off(pos + 1, enc) <= |c| && InRange(v, enc)
    requires IsEncoding(e) && Off(q + 1, e) <= |c|
    requires Off(q + 1, e) <= Off(pos, enc) || Off(pos + 1, enc) <= Off(q, e)
    ensures Get(Set(c, pos, v, enc), q, e) == Get(c, q, e)
  {
    hide Encode, Decode, MemCpy;
    MemCpyOutside(c, Off(pos, enc), Encode(v, enc), Off(q, e), Off(q + 1, e));
  }

  /** intsetMoveTail on the bytes: n values from position from to position to. */
  function MoveTail(c: Bytes, from: nat, to: nat, n: nat, enc: int): (r: Bytes)
    requires IsEncoding(enc) && Off(from + n, enc) <= |c| && Off(to + n, enc) <= |c|
    ensures |r| == |c|
  {
    MemMove(c, Off(to, enc), Off(from, enc), Off(n, enc))
  }

  lemma GetMoved(c: Bytes, from: nat, to: nat, n: nat, enc: int, q: nat)
    requires IsEncoding(enc) && Off(from + n, enc) <= |c| && Off(to + n, enc) <= |c| && Off(q + 1, enc) <= |c|
    ensures Get(MoveTail(c, from, to, n, enc), q, enc)
            == if to <= q < to + n then Get(c, from + (q - to), enc) else Get(c, q, enc)
  {
    hide Decode, MemMove;
    if to <= q < to + n {
      MemMoveInside(c, Off(to, enc), Off(from, enc), Off(n, enc), Off(q, enc), Off(q + 1, enc));
    } else {
      MemMoveOutside(c, Off(to, enc), Off(from, enc), Off(n, enc), Off(q, enc), Off(q + 1, enc));
    }
  }

  /** The values held in the first n positions. */
  ghost function Values(c: Bytes, n: nat, enc: int): (s: seq<int>)
    requires IsEncoding(enc) && Off(n, enc) <= |c|
    ensures |s| == n
  {
    seq(n, i requires 0 <= i < n => Get(c, i, enc))
  }

  /** intsetResize keeps what fits. */
  function Resize(c: Bytes, size: nat): (r: Bytes)
    ensures |r| == size
  {
    if size <= |c| then c[..size] else c + seq(size - |c|, _ => 0)
  }

  lemma GetResized(c: Bytes, size: nat, q: nat, e: int)
    requires IsEncoding(e) && Off(q + 1, e) <= |c| && Off(q + 1, e) <= size
    ensures Get(Resize(c, size), q, e) == Get(c, q, e)
  {
    hide Decode;
    assert Resize(c, size)[Off(q, e)..Off(q + 1, e)] == c[Off(q, e)..Off(q + 1, e)];
  }
}
