/** Byte buffers and the memory primitives used on them. */
module Buffers {

  type Byte = b: int | 0 <= b < 256

  type Bytes = seq<Byte>

  /** memmove within one buffer. */
  function MemMove<T>(b: seq<T>, dst: nat, src: nat, n: nat): (r: seq<T>)
    requires dst + n <= |b| && src + n <= |b|
    ensures |r| == |b|
    ensures r == b[..dst] + b[src..src + n] + b[dst + n..]
  {
    seq(|b|, i requires 0 <= i < |b| => if dst <= i < dst + n then b[src + i - dst] else b[i])
  }

  /** memcpy of other bytes into a buffer. */
  function MemCpy<T>(b: seq<T>, dst: nat, s: seq<T>): (r: seq<T>)
    requires dst + |s| <= |b|
    ensures |r| == |b|
  {
    b[..dst] + s + b[dst + |s|..]
  }

  /** memcpy leaves the bytes outside its target alone. */
  lemma MemCpyOutside<T>(b: seq<T>, dst: nat, s: seq<T>, i: nat, j: nat)
    requires dst + |s| <= |b| && i <= j <= |b| && (j <= dst || dst + |s| <= i)
    ensures MemCpy(b, dst, s)[i..j] == b[i..j]
  {
    var r := MemCpy(b, dst, s);
    forall k | i <= k < j ensures r[k] == b[k] {
    }
  }

  lemma MemCpyInside<T>(b: seq<T>, dst: nat, s: seq<T>)
    requires dst + |s| <= |b|
    ensures MemCpy(b, dst, s)[dst..dst + |s|] == s
  {
  }

  lemma MemMoveOutside<T>(b: seq<T>, dst: nat, src: nat, n: nat, i: nat, j: nat)
    requires dst + n <= |b| && src + n <= |b| && i <= j <= |b| && (j <= dst || dst + n <= i)
    ensures MemMove(b, dst, src, n)[i..j] == b[i..j]
  {
    var r := MemMove(b, dst, src, n);
    forall k | i <= k < j ensures r[k] == b[k] {
    }
  }

  lemma MemMoveInside<T>(b: seq<T>, dst: nat, src: nat, n: nat, i: nat, j: nat)
    requires dst + n <= |b| && src + n <= |b| && dst <= i <= j <= dst + n
    ensures MemMove(b, dst, src, n)[i..j] == b[src + (i - dst)..src + (j - dst)]
  {
    var r := MemMove(b, dst, src, n);
    forall k | i <= k < j ensures r[k] == b[src + (k - dst)] {
    }
  }

  // ---- little endian numbers -------------------------------------------------------------------

  function Pow256(k: nat): nat {
    if k == 0 then 1 else 256 * Pow256(k - 1)
  }

  function FromLE(b: seq<Byte>): (n: nat)
    ensures n < Pow256(|b|)
  {
    if b == [] then 0 else b[0] + 256 * FromLE(b[1..])
  }

  function ToLE(n: nat, k: nat): (b: seq<Byte>)
    ensures |b| == k
  {
    if k == 0 then [] else [n % 256] + ToLE(n / 256, k - 1)
  }

  lemma {:induction false} ToFromLE(n: nat, k: nat)
    requires n < Pow256(k)
    ensures FromLE(ToLE(n, k)) == n
  {
    if k != 0 {
      ToFromLE(n / 256, k - 1);
      assert ToLE(n, k)[1..] == ToLE(n / 256, k - 1);
    }
  }
}
