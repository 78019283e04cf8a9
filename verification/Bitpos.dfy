/** redisBitpos (bitops.c): the first bit of a string with a given value, skipping whole words. */
module Bitpos {
  import opened Words
  import opened ReverseBits
  import opened Buffers
  import opened Popcount

  /** sizeof(unsigned long) */
  const WORD: nat := 8

  /** pos is the first position holding the value; the string is padded with zeros. */
  ghost predicate IsFirst(s: seq<Byte>, bit: bool, pos: nat) {
    StringBit(s, pos) == bit && NoneBefore(s, bit, pos)
  }

  ghost predicate NoneBefore(s: seq<Byte>, bit: bool, pos: nat) {
    forall k | 0 <= k < pos :: StringBit(s, k) != bit
  }

  function SkipByte(bit: bool): Byte {
    if bit then 0 else 255
  }

  lemma BitOf255(i: nat)
    requires i < 8
    ensures Bit(255, i)
  {
    assert Pow2(8) == 256;
    assert Not(8, 0) == 255;
    BitNot(8, 0, i);
    BitZero(i);
  }

  /** A byte is to be skipped exactly when none of its bits has the value. */
  lemma SkippedBits(bit: bool, i: nat)
    requires i < 8
    ensures Bit(SkipByte(bit), i) != bit
  {
    if bit { BitZero(i); } else { BitOf255(i); }
  }

  lemma NotSkipped(b: Byte, bit: bool) returns (i: nat)
    requires b != SkipByte(bit)
    ensures i < 8 && Bit(b, i) == bit
  {
    hide Bit, Pow2;
    ByteFits(b);
    ByteFits(SkipByte(bit));
    i := 0;
    while i < 8 && Bit(b, i) != bit
      invariant i <= 8 && forall j | 0 <= j < i :: Bit(b, j) == Bit(SkipByte(bit), j)
    {
      SkippedBits(bit, i);
      i := i + 1;
    }
    if i == 8 { SameBits(8, b, SkipByte(bit)); }
  }

  lemma ByteFits(b: Byte)
    ensures b < Pow2(8)
  {
    assert Pow2(4) == 16;
  }

  lemma SkipOne(s: seq<Byte>, bit: bool, c: nat)
    requires c < |s| && s[c] == SkipByte(bit) && NoneBefore(s, bit, 8 * c)
    ensures NoneBefore(s, bit, 8 * (c + 1))
  {
    hide Bit;
    forall k | 0 <= k < 8 * (c + 1) ensures StringBit(s, k) != bit {
      if k >= 8 * c {
        assert k / 8 == c;
        SkippedBits(bit, 7 - k % 8);
      }
    }
  }

  lemma {:induction false} SkipMany(s: seq<Byte>, bit: bool, c: nat, n: nat)
    requires c + n <= |s| && NoneBefore(s, bit, 8 * c) && forall i | c <= i < c + n :: s[i] == SkipByte(bit)
    ensures NoneBefore(s, bit, 8 * (c + n))
  {
    hide NoneBefore;
    if n > 0 {
      SkipMany(s, bit, c, n - 1);
      SkipOne(s, bit, c + n - 1);
    }
  }

  /** Comparing a word with all zeros or all ones compares its bytes. */
  function SkipWord(bit: bool, n: nat): nat {
    if n == 0 then 0 else (if bit then 0 else 255) + 256 * SkipWord(bit, n - 1)
  }

  lemma {:induction false} WordCompare(b: seq<Byte>, bit: bool)
    ensures FromLE(b) == SkipWord(bit, |b|) <==> forall i | 0 <= i < |b| :: b[i] == SkipByte(bit)
  {
    if b != [] {
      WordCompare(b[1..], bit);
      assert forall i | 1 <= i < |b| :: b[i] == b[1..][i - 1];
    }
  }

  lemma AllOnes()
    ensures SkipWord(false, 8) == 0xFFFF_FFFF_FFFF_FFFF && SkipWord(true, 8) == 0
  {
    assert SkipWord(false, 4) == 0xFFFF_FFFF;
    assert SkipWord(true, 4) == 0;
  }

  /** Bit k after the first c bytes. */
  function Ahead(s: seq<Byte>, c: nat, k: nat): bool {
    StringBit(s, 8 * c + k)
  }

  /** Some byte is not to be skipped, so it has a bit with the value. */
  lemma HasTarget(s: seq<Byte>, bit: bool, c: nat, i: nat) returns (k: nat)
    requires c <= i < c + 8 && i < |s| && s[i] != SkipByte(bit)
    ensures k < 64 && Ahead(s, c, k) == bit
  {
    hide Bit;
    var j := NotSkipped(s[i], bit);
    k := 8 * (i - c) + (7 - j);
    assert (8 * c + k) / 8 == i && (8 * c + k) % 8 == 7 - j;
  }

  // ---- loading the last word -------------------------------------------------------------------------

  /** The first j bytes from c on, the first one most significant. */
  ghost predicate LoadedBits(s: seq<Byte>, c: nat, j: nat, word: nat) {
    word < Pow2(8 * j) && forall k | 0 <= k < 8 * j :: Ahead(s, c, k) == Bit(word, 8 * j - 1 - k)
  }

  lemma LoadStep(s: seq<Byte>, c: nat, j: nat, word: nat, b: nat)
    requires LoadedBits(s, c, j, word) && b == if c + j < |s| then s[c + j] else 0
    ensures Double(word, 8) < Pow2(8 * (j + 1))
    ensures LoadedBits(s, c, j + 1, Or(Double(word, 8), b))
  {
    hide Bit, Or, Double, Pow2, Ahead;
    var w := Or(Double(word, 8), b);
    ShiftBoundBy(word, 8 * j, 8);
    assert 8 * (j + 1) == 8 * j + 8;
    ByteFits(b);
    Pow2Monotone(8, 8 * (j + 1));
    OrBound(Double(word, 8), b, 8 * (j + 1));
    forall k | 0 <= k < 8 * (j + 1) ensures Ahead(s, c, k) == Bit(w, 8 * (j + 1) - 1 - k) {
      LoadBit(s, c, j, word, b, k);
    }
  }

  lemma LoadBit(s: seq<Byte>, c: nat, j: nat, word: nat, b: nat, k: nat)
    requires LoadedBits(s, c, j, word) && b == (if c + j < |s| then s[c + j] else 0) && k < 8 * (j + 1)
    ensures Ahead(s, c, k) == Bit(Or(Double(word, 8), b), 8 * (j + 1) - 1 - k)
  {
    hide Bit, Or, Double, Pow2;
    var i := 8 * (j + 1) - 1 - k;
    BitOr(Double(word, 8), b, i);
    BitDouble(word, 8, i);
    ByteFits(b);
    if i >= 8 {
      HighBitsZero(b, 8, i);
      assert i - 8 == 8 * j - 1 - k;
      assert Ahead(s, c, k) == Bit(word, 8 * j - 1 - k);
    } else {
      assert (8 * c + k) / 8 == c + j && (8 * c + k) % 8 == 7 - i;
      if c + j >= |s| { BitZero(i); }
    }
  }

  lemma {:induction false} ShiftBoundBy(v: nat, w: nat, n: nat)
    requires v < Pow2(w)
    ensures Double(v, n) < Pow2(w + n)
    decreases n
  {
    if n > 0 { ShiftBoundBy(2 * v, w + 1, n - 1); }
  }

  method LoadWord(s: seq<Byte>, c: nat) returns (word: nat)
    ensures LoadedBits(s, c, WORD, word)
  {
    hide LoadedBits, Pow2, Or, Double, Low;
    word := 0;
    NothingLoaded(s, c);
    for j: nat := 0 to WORD
      invariant LoadedBits(s, c, j, word)
    {
      ghost var before := word;
      LoadStep(s, c, j, before, if c + j < |s| then s[c + j] else 0);
      Pow2Monotone(8 * (j + 1), 64);
      LowId(Double(before, 8), 64);
      word := Low(Double(word, 8), 64);
      if c + j < |s| {
        word := Or(word, s[c + j]);
      } else {
        OrZero(word);
      }
    }
  }

  lemma NothingLoaded(s: seq<Byte>, c: nat)
    ensures LoadedBits(s, c, 0, 0)
  {
  }

  // ---- scanning ------------------------------------------------------------------------------------------

  /** The bit by bit scan of the loaded word; the end of the word is never reached. */
  method ScanWord(s: seq<Byte>, c: nat, word: nat, bit: bool, ghost target: nat) returns (pos: nat)
    requires LoadedBits(s, c, WORD, word) && NoneBefore(s, bit, 8 * c)
    requires target < 64 && Ahead(s, c, target) == bit
    ensures IsFirst(s, bit, pos)
  {
    hide Pow2, And, Bit, StringBit;
    pos := 8 * c;
    TopBit();
    var one := Not(64, Shr(0xFFFF_FFFF_FFFF_FFFF, 1));
    ghost var k: nat := 0;
    while one != 0
      invariant k <= 64 && pos == 8 * c + k && one == (if k < 64 then Pow2(63 - k) else 0)
      invariant NoneBefore(s, bit, pos)
      decreases one
    {
      AndPow2(word, 63 - k);
      Pow2Half(63 - k);
      assert Ahead(s, c, k) == Bit(word, 63 - k);
      if (And(word, one) != 0) == bit { return; }
      pos := pos + 1;
      one := one / 2;
      k := k + 1;
    }
    assert false;
  }

  lemma TopBit()
    ensures Pow2(64) == 0x1_0000_0000_0000_0000 && Shr(0xFFFF_FFFF_FFFF_FFFF, 1) < Pow2(64)
    ensures Not(64, Shr(0xFFFF_FFFF_FFFF_FFFF, 1)) == Pow2(63)
  {
    Pow2Of32();
    Add8(32);
    Add8(40);
    Add8(48);
    Add8(56);
    assert Pow2(64) == 2 * Pow2(63);
    assert Shr(0xFFFF_FFFF_FFFF_FFFF, 1) == Shr(0x7FFF_FFFF_FFFF_FFFF, 0);
  }

  lemma Add8(n: nat)
    ensures Pow2(n + 8) == 256 * Pow2(n)
  {
    assert Pow2(n + 2) == 4 * Pow2(n);
    assert Pow2(n + 4) == 4 * Pow2(n + 2);
    assert Pow2(n + 6) == 4 * Pow2(n + 4);
    assert Pow2(n + 8) == 4 * Pow2(n + 6);
  }

  lemma Pow2Half(n: nat)
    ensures Pow2(n) / 2 == (if n == 0 then 0 else Pow2(n - 1)) && Pow2(n) > 0
  {
  }

  /** A loaded word is zero exactly when no bit of it is set. */
  lemma LoadedZero(s: seq<Byte>, c: nat, word: nat)
    requires LoadedBits(s, c, WORD, word)
    ensures word == 0 <==> forall k | 0 <= k < 64 :: !Ahead(s, c, k)
  {
    hide Pow2, Bit, Ahead;
    if word == 0 {
      forall k | 0 <= k < 64 ensures !Ahead(s, c, k) {
        BitZero(63 - k);
      }
    }
    if forall k | 0 <= k < 64 :: !Ahead(s, c, k) {
      forall i | 0 <= i < 64 ensures Bit(word, i) == Bit(0, i) {
        assert Ahead(s, c, 63 - i) == Bit(word, 63 - (63 - i));
        BitZero(i);
      }
      SameBits(64, word, 0);
    }
  }

  /** The two skipping loops: whole bytes up to an aligned address, then whole words. */
  method Skip(s: seq<Byte>, address: nat, bit: bool) returns (c: nat)
    ensures c <= |s| && NoneBefore(s, bit, 8 * c)
    ensures |s| - c >= WORD ==> exists i :: c <= i < c + WORD && s[i] != SkipByte(bit)
  {
    hide NoneBefore;
    NoneYet(s, bit);
    c := 0;
    while (address + c) % WORD != 0 && c < |s|
      invariant c <= |s| && NoneBefore(s, bit, 8 * c)
      decreases |s| - c
    {
      if s[c] != SkipByte(bit) { break; }
      SkipOne(s, bit, c);
      c := c + 1;
    }
    AllOnes();
    while |s| - c >= WORD
      invariant c <= |s| && NoneBefore(s, bit, 8 * c)
      decreases |s| - c
    {
      var l := FromLE(s[c..c + WORD]);
      WordCompare(s[c..c + WORD], bit);
      if l != (if bit then 0 else 0xFFFF_FFFF_FFFF_FFFF) {
        var i :| 0 <= i < WORD && s[c..c + WORD][i] != SkipByte(bit);
        assert s[c + i] != SkipByte(bit);
        return;
      }
      assert forall i | c <= i < c + WORD :: s[i] == s[c..c + WORD][i - c];
      SkipMany(s, bit, c, WORD);
      c := c + WORD;
    }
  }

  lemma NoneYet(s: seq<Byte>, bit: bool)
    ensures NoneBefore(s, bit, 0)
  {
  }

  /** redisBitpos of a string that starts at this address, for any alignment. */
  method Bitpos(s: seq<Byte>, address: nat, bit: bool) returns (pos: int)
    ensures pos == -1 <==> bit && forall k: nat :: !StringBit(s, k)
    ensures pos != -1 ==> pos >= 0 && IsFirst(s, bit, pos)
  {
    hide StringBit, LoadedBits, Ahead;
    var c := Skip(s, address, bit);
    var word := LoadWord(s, c);
    LoadedZero(s, c, word);
    if bit && word == 0 {
      NoTarget(s, c);
      return -1;
    }
    ghost var target := Target(s, c, bit, word);
    pos := ScanWord(s, c, word, bit, target);
  }

  /** After the last word there are only padding bits. */
  lemma NoTarget(s: seq<Byte>, c: nat)
    requires NoneBefore(s, true, 8 * c) && c <= |s| && forall k | 0 <= k < 64 :: !Ahead(s, c, k)
    requires |s| - c >= WORD ==> exists i :: c <= i < c + WORD && s[i] != SkipByte(true)
    ensures forall k: nat :: !StringBit(s, k)
  {
    hide Bit;
    assert |s| - c < WORD by {
      if |s| - c >= WORD {
        var i :| c <= i < c + WORD && s[i] != SkipByte(true);
        var k := HasTarget(s, true, c, i);
        assert false;
      }
    }
    forall k: nat ensures !StringBit(s, k) {
      if 8 * c <= k < 8 * c + 64 { assert !Ahead(s, c, k - 8 * c); }
    }
  }

  lemma Target(s: seq<Byte>, c: nat, bit: bool, word: nat) returns (k: nat)
    requires c <= |s| && (bit ==> !forall k | 0 <= k < 64 :: !Ahead(s, c, k))
    requires |s| - c >= WORD ==> exists i :: c <= i < c + WORD && s[i] != SkipByte(bit)
    ensures k < 64 && Ahead(s, c, k) == bit
  {
    hide Bit;
    if bit {
      k :| 0 <= k < 64 && Ahead(s, c, k);
    } else if |s| - c >= WORD {
      var i :| c <= i < c + WORD && s[i] != SkipByte(bit);
      k := HasTarget(s, bit, c, i);
    } else {
      k := 8 * (|s| - c);
      assert (8 * c + k) / 8 == |s|;
    }
  }
}
