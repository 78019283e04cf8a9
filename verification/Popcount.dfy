/** redisPopcount (bitops.c): counting the one bits of a string seven words at a time. */
module Popcount {
  import opened Words
  import opened ReverseBits
  import opened Buffers

  /** One bits among the low n bits of x. */
  function Ones(n: nat, x: nat): (c: nat)
    ensures c <= n
  {
    if n == 0 then 0 else x % 2 + Ones(n - 1, x / 2)
  }

  /** The sum of the bitsinbyte table over a string. */
  function OnesIn(s: seq<Byte>): nat {
    if s == [] then 0 else Ones(8, s[0]) + OnesIn(s[1..])
  }

  // ---- the masks --------------------------------------------------------------------------------------

  /** 0x55..., 0x33... and 0x0F0F... with n digits in base 4, 16 and 256. */
  function M55(n: nat): nat {
    if n == 0 then 0 else 1 + 4 * M55(n - 1)
  }

  function M33(n: nat): nat {
    if n == 0 then 0 else 3 + 16 * M33(n - 1)
  }

  function M0F(n: nat): nat {
    if n == 0 then 0 else 15 + 256 * M0F(n - 1)
  }

  lemma Masks()
    ensures M55(16) == 0x5555_5555 && M33(8) == 0x3333_3333 && M0F(4) == 0x0F0F_0F0F
  {
    assert M55(4) == 0x55;
    assert M55(8) == 0x5555;
    assert M55(12) == 0x55_5555;
    assert M33(4) == 0x3333;
  }

  lemma And1(x: nat, m: nat)
    ensures And(x, 1 + 4 * m) == x % 2 + 4 * And(x / 4, m)
  {
    hide And;
    AndHalf(x, 1 + 4 * m);
    AndHalf(x / 2, 2 * m);
    assert (1 + 4 * m) / 2 == 2 * m && x / 2 / 2 == x / 4;
  }

  lemma AndSkip(x: nat, m: nat)
    ensures And(x, 4 * m) == 4 * And(x / 4, m)
  {
    hide And;
    AndHalf(x, 4 * m);
    AndHalf(x / 2, 2 * m);
    assert x / 2 / 2 == x / 4;
  }

  lemma AndLow(x: nat, m: nat)
    ensures And(x, 3 + 4 * m) == x % 4 + 4 * And(x / 4, m)
  {
    hide And;
    AndHalf(x, 3 + 4 * m);
    AndHalf(x / 2, 1 + 2 * m);
    assert (3 + 4 * m) / 2 == 1 + 2 * m && x / 2 / 2 == x / 4;
  }

  lemma And3(x: nat, m: nat)
    ensures And(x, 3 + 16 * m) == x % 4 + 16 * And(x / 16, m)
  {
    hide And;
    AndLow(x, 4 * m);
    AndSkip(x / 4, m);
  }

  lemma And15(x: nat, m: nat)
    ensures And(x, 15 + 256 * m) == x % 16 + 256 * And(x / 256, m)
  {
    hide And;
    AndLow(x, 3 + 64 * m);
    And3(x / 4, 4 * m);
    AndSkip(x / 64, m);
    Sixteenths(x);
    assert And(x / 4, 3 + 64 * m) == x / 4 % 4 + 16 * (4 * And(x / 256, m));
  }

  lemma Sixteenths(x: nat)
    ensures x / 4 / 16 == x / 64 && x / 64 / 4 == x / 256 && x % 16 == x % 4 + 4 * (x / 4 % 4)
  {
  }

  // ---- the three steps on one word ------------------------------------------------------------------------

  /** Counts of pairs, nibbles and bytes of x as digits of one number. */
  function Pairs(n: nat, x: nat): nat {
    if n == 0 then 0 else Ones(2, x) + 4 * Pairs(n - 1, x / 4)
  }

  function Nibbles(n: nat, x: nat): nat {
    if n == 0 then 0 else Ones(4, x) + 16 * Nibbles(n - 1, x / 16)
  }

  function ByteCounts(n: nat, x: nat): nat {
    if n == 0 then 0 else Ones(8, x) + 256 * ByteCounts(n - 1, x / 256)
  }

  lemma Ones2(x: nat)
    ensures Ones(2, x) == x % 2 + x / 2 % 2
  {
    assert Ones(1, x / 2) == x / 2 % 2 + Ones(0, x / 4);
  }

  lemma {:induction false} OnesSplit(a: nat, b: nat, x: nat)
    ensures Ones(a + b, x) == Ones(a, x) + Ones(b, Shr(x, a))
  {
    if a != 0 { OnesSplit(a - 1, b, x / 2); }
  }

  lemma Ones4(x: nat)
    ensures Ones(4, x) == Ones(2, x) + Ones(2, x / 4)
  {
    hide Ones;
    OnesSplit(2, 2, x);
    assert Shr(x / 2, 1) == Shr(x / 4, 0);
  }

  lemma Ones8(x: nat)
    ensures Ones(8, x) == Ones(4, x) + Ones(4, x / 16)
  {
    hide Ones;
    OnesSplit(4, 4, x);
    assert Shr(x, 4) == Shr(x / 4, 2);
    assert Shr(x / 4, 2) == Shr(x / 4 / 2, 1);
    assert Shr(x / 8, 1) == Shr(x / 16, 0);
  }

  lemma {:induction false} PairStep(n: nat, x: nat)
    requires x < Pow2(2 * n)
    ensures And(x / 2, M55(n)) + Pairs(n, x) == x
  {
    hide And, Ones, Pow2;
    if n == 0 {
      NoBitsLeft(x);
      AndZero(0);
    } else {
      QuarterFits(x, 2 * n - 2);
      PairStep(n - 1, x / 4);
      And1(x / 2, M55(n - 1));
      Ones2(x);
      Quarters(x);
    }
  }

  lemma NoBitsLeft(x: nat)
    requires x < Pow2(0)
    ensures x == 0
  {
  }

  lemma QuarterFits(x: nat, k: nat)
    requires x < Pow2(k + 2)
    ensures x / 4 < Pow2(k)
  {
    var p := Pow2(k);
    assert Pow2(k + 2) == 4 * p;
    hide Pow2;
  }

  lemma Quarters(x: nat)
    ensures x / 2 / 4 == x / 4 / 2 && x == x % 2 + 2 * (x / 2 % 2) + 4 * (x / 4)
  {
  }

  lemma {:induction false} NibbleStep(n: nat, x: nat)
    ensures And(Pairs(2 * n, x), M33(n)) + And(Pairs(2 * n, x) / 4, M33(n)) == Nibbles(n, x)
  {
    hide And, Ones;
    if n == 0 {
      AndZero(0);
    } else {
      PairsUnfold(2 * n, x);
      NibbleStep(n - 1, x / 16);
      Ones4(x);
      FirstNibble(Ones(2, x), Ones(2, x / 4), Pairs(2 * n - 2, x / 16), M33(n - 1));
    }
  }

  /** The mask step on the first nibble, made of the pair counts a and b. */
  lemma FirstNibble(a: nat, b: nat, rest: nat, m: nat)
    requires a < 4 && b < 4
    ensures var y := a + 4 * b + 16 * rest;
            And(y, 3 + 16 * m) + And(y / 4, 3 + 16 * m) == a + b + 16 * (And(rest, m) + And(rest / 4, m))
  {
    hide And;
    var y := a + 4 * b + 16 * rest;
    PairDigits(a, b, rest);
    And3(y, m);
    And3(y / 4, m);
  }

  lemma PairDigits(a: nat, b: nat, rest: nat)
    requires a < 4 && b < 4
    ensures var y := a + 4 * b + 16 * rest;
            y % 4 == a && y / 4 % 4 == b && y / 16 == rest && y / 4 / 16 == rest / 4
  {
    var y := a + 4 * b + 16 * rest;
    assert y / 4 == b + 4 * rest;
  }

  lemma PairsUnfold(n: nat, x: nat)
    requires n >= 2
    ensures Pairs(n, x) == Ones(2, x) + 4 * Ones(2, x / 4) + 16 * Pairs(n - 2, x / 16)
  {
    assert Pairs(n, x) == Ones(2, x) + 4 * Pairs(n - 1, x / 4);
    assert Pairs(n - 1, x / 4) == Ones(2, x / 4) + 4 * Pairs(n - 2, x / 4 / 4);
    assert x / 4 / 4 == x / 16;
  }

  lemma {:induction false} ByteStep(n: nat, x: nat)
    ensures And(Nibbles(2 * n, x) + Nibbles(2 * n, x) / 16, M0F(n)) == ByteCounts(n, x)
  {
    hide And, Ones;
    if n == 0 {
      AndZero(0);
    } else {
      NibblesUnfold(2 * n, x);
      ByteStep(n - 1, x / 256);
      Ones8(x);
      FirstByte(Ones(4, x), Ones(4, x / 16), 2 * n - 2, x / 256, M0F(n - 1));
    }
  }

  /** The mask step on the first byte, made of the nibble counts a and b. */
  lemma FirstByte(a: nat, b: nat, n: nat, x: nat, m: nat)
    requires a <= 4 && b <= 4
    ensures var rest := Nibbles(n, x);
            var z := a + 16 * b + 256 * rest;
            And(z + z / 16, 15 + 256 * m) == a + b + 256 * And(rest + rest / 16, m)
  {
    hide And, Nibbles;
    var rest := Nibbles(n, x);
    var z := a + 16 * b + 256 * rest;
    SixteenthOf(a, b, rest);
    NoCarry(a, b, rest, n, x);
    And15(z + z / 16, m);
  }

  lemma SixteenthOf(a: nat, b: nat, rest: nat)
    requires a < 16
    ensures (a + 16 * b + 256 * rest) / 16 == b + 16 * rest
  {
  }

  lemma NibblesUnfold(n: nat, x: nat)
    requires n >= 2
    ensures Nibbles(n, x) == Ones(4, x) + 16 * Ones(4, x / 16) + 256 * Nibbles(n - 2, x / 256)
  {
    assert Nibbles(n, x) == Ones(4, x) + 16 * Nibbles(n - 1, x / 16);
    assert Nibbles(n - 1, x / 16) == Ones(4, x / 16) + 16 * Nibbles(n - 2, x / 16 / 16);
    assert x / 16 / 16 == x / 256;
  }

  /** Nibble counts are at most 4, so adding neighbours does not carry into the next byte. */
  lemma NoCarry(a: nat, b: nat, rest: nat, n: nat, x: nat)
    requires a <= 4 && b <= 4 && rest == Nibbles(n, x)
    ensures var w := a + 16 * b + 256 * rest + (b + 16 * rest);
            w % 16 == a + b && w / 256 == rest + rest / 16
  {
    hide Ones;
    assert rest % 16 <= 4 by {
      if n > 0 { assert rest == Ones(4, x) + 16 * Nibbles(n - 1, x / 16); }
    }
    var lo, hi := rest % 16, rest / 16;
    assert rest == lo + 16 * hi;
    assert a + 16 * b + 256 * rest + (b + 16 * rest) == (a + b) + 16 * (b + lo) + 256 * (rest + hi);
    HexDigits(a + b, b + lo, rest + hi);
  }

  lemma HexDigits(x: nat, y: nat, z: nat)
    requires x < 16 && y < 16
    ensures (x + 16 * y + 256 * z) % 16 == x && (x + 16 * y + 256 * z) / 256 == z
  {
  }

  // ---- one word --------------------------------------------------------------------------------------

  /** Unsigned 32-bit arithmetic. */
  function Wrap(v: int): (r: nat)
    ensures r < 0x1_0000_0000 && (0 <= v < 0x1_0000_0000 ==> r == v)
  {
    v % 0x1_0000_0000
  }

  /** The parallel count: each byte of the result is the number of one bits of that byte. */
  function WordCounts(x: nat): nat {
    var a := Wrap(x - And(x / 2, 0x5555_5555));
    var b := Wrap(And(a, 0x3333_3333) + And(a / 4, 0x3333_3333));
    And(Wrap(b + b / 16), 0x0F0F_0F0F)
  }

  function NibbleMax(n: nat): nat {
    if n == 0 then 0 else 4 + 16 * NibbleMax(n - 1)
  }

  lemma {:induction false} NibblesBound(n: nat, x: nat)
    ensures Nibbles(n, x) <= NibbleMax(n)
  {
    if n != 0 { NibblesBound(n - 1, x / 16); }
  }

  lemma NibbleMax8()
    ensures NibbleMax(8) == 0x4444_4444
  {
    assert NibbleMax(4) == 0x4444;
  }

  lemma Pow2Of32()
    ensures Pow2(32) == 0x1_0000_0000
  {
    assert Pow2(8) == 0x100;
    assert Pow2(16) == 0x1_0000;
    assert Pow2(24) == 0x100_0000;
  }

  lemma WordCountsMeaning(x: nat)
    requires x < 0x1_0000_0000
    ensures WordCounts(x) == ByteCounts(4, x)
  {
    hide And, Pairs, Nibbles, ByteCounts, M55, M33, M0F, NibbleMax, Pow2;
    Masks();
    Pow2Of32();
    PairStep(16, x);
    NibbleStep(8, x);
    NibblesBound(8, x);
    NibbleMax8();
    ByteStep(4, x);
  }

  lemma {:induction false} OnesLow(n: nat, b: nat, r: nat)
    ensures Ones(n, b + Double(r, n)) == Ones(n, b)
  {
    if n != 0 {
      OnesLow(n - 1, b / 2, r);
      DoubleUnfold(r, n);
    }
  }

  lemma {:induction false} DoubleUnfold(r: nat, n: nat)
    requires n > 0
    ensures Double(r, n) == 2 * Double(r, n - 1)
    decreases n
  {
    if n > 1 { DoubleUnfold(2 * r, n - 1); }
  }

  lemma Ones8Low(b: nat, r: nat)
    ensures Ones(8, b + 256 * r) == Ones(8, b)
  {
    OnesLow(8, b, r);
    assert Double(r, 4) == 16 * r;
    assert Double(r, 8) == 256 * r;
  }

  /** The four bytes of a word, counted separately. */
  lemma WordOfBytes(b: seq<Byte>)
    requires |b| == 4
    ensures FromLE(b) < 0x1_0000_0000
    ensures WordCounts(FromLE(b))
            == Ones(8, b[0]) + 256 * Ones(8, b[1]) + 65536 * Ones(8, b[2]) + 16777216 * Ones(8, b[3])
  {
    hide Ones, WordCounts;
    var x1, x2, x3 := FromLE(b[1..]), FromLE(b[1..][1..]), FromLE(b[1..][1..][1..]);
    assert x3 == b[3] && x2 == b[2] + 256 * x3 && x1 == b[1] + 256 * x2;
    var x := FromLE(b);
    assert x == b[0] + 256 * x1;
    WordCountsMeaning(x);
    Ones8Low(b[0], x1);
    Ones8Low(b[1], x2);
    Ones8Low(b[2], x3);
    assert x / 256 == x1 && x1 / 256 == x2 && x2 / 256 == x3;
    CountsUnfold(x);
  }

  lemma CountsUnfold(x: nat)
    ensures var x1 := x / 256; var x2 := x1 / 256; var x3 := x2 / 256;
            ByteCounts(4, x) == Ones(8, x) + 256 * Ones(8, x1) + 65536 * Ones(8, x2) + 16777216 * Ones(8, x3)
  {
    hide Ones;
    var x1 := x / 256;
    var x2 := x1 / 256;
    assert ByteCounts(4, x) == Ones(8, x) + 256 * ByteCounts(3, x1);
    assert ByteCounts(3, x1) == Ones(8, x1) + 256 * ByteCounts(2, x2);
  }

  // ---- a block of words ----------------------------------------------------------------------------------

  /** Byte counts summed over the first k words, one sum for each byte of a word. */
  function Columns(s: seq<Byte>, k: nat): (c: (nat, nat, nat, nat))
    requires 4 * k <= |s|
    ensures c.0 <= 8 * k && c.1 <= 8 * k && c.2 <= 8 * k && c.3 <= 8 * k
  {
    if k == 0 then (0, 0, 0, 0)
    else
      var c := Columns(s, k - 1);
      (c.0 + Ones(8, s[4 * k - 4]), c.1 + Ones(8, s[4 * k - 3]), c.2 + Ones(8, s[4 * k - 2]), c.3 + Ones(8, s[4 * k - 1]))
  }

  function Spread(c: (nat, nat, nat, nat)): nat {
    c.0 + 256 * c.1 + 65536 * c.2 + 16777216 * c.3
  }

  lemma {:induction false} OnesInAppend(a: seq<Byte>, b: seq<Byte>)
    ensures OnesIn(a + b) == OnesIn(a) + OnesIn(b)
    decreases |a|
  {
    hide Ones;
    if a == [] {
      assert a + b == b;
    } else {
      assert (a + b)[1..] == a[1..] + b;
      OnesInAppend(a[1..], b);
    }
  }

  lemma OnesInFour(b: seq<Byte>)
    requires |b| == 4
    ensures OnesIn(b) == Ones(8, b[0]) + Ones(8, b[1]) + Ones(8, b[2]) + Ones(8, b[3])
  {
    hide Ones;
    assert OnesIn(b[1..]) == Ones(8, b[1]) + OnesIn(b[1..][1..]);
    assert OnesIn(b[1..][1..]) == Ones(8, b[2]) + OnesIn(b[1..][1..][1..]);
    assert OnesIn(b[1..][1..][1..]) == Ones(8, b[3]) + OnesIn([]);
  }

  lemma {:induction false} ColumnsTotal(s: seq<Byte>, k: nat)
    requires 4 * k <= |s|
    ensures var c := Columns(s, k); c.0 + c.1 + c.2 + c.3 == OnesIn(s[..4 * k])
  {
    hide Ones, OnesIn;
    if k == 0 {
      NoOnes();
      assert s[..0] == [];
    } else {
      ColumnsTotal(s, k - 1);
      var w := s[4 * k - 4..4 * k];
      assert s[..4 * k] == s[..4 * k - 4] + w;
      OnesInAppend(s[..4 * k - 4], w);
      OnesInFour(w);
    }
  }

  lemma NoOnes()
    ensures OnesIn([]) == 0
  {
  }

  /** With seven words each byte sum is at most 56 and their total at most 224: the multiplication
      adds the four bytes in the top byte without overflow. */
  lemma TopByte(c: (nat, nat, nat, nat))
    requires c.0 <= 56 && c.1 <= 56 && c.2 <= 56 && c.3 <= 56
    ensures Spread(c) < 0x1_0000_0000
    ensures Wrap(Spread(c) * 0x0101_0101) / 16777216 == c.0 + c.1 + c.2 + c.3
  {
    var low := c.0 + 256 * (c.0 + c.1) + 65536 * (c.0 + c.1 + c.2);
    var top := c.0 + c.1 + c.2 + c.3;
    var high := (c.1 + c.2 + c.3) + 256 * (c.2 + c.3) + 65536 * c.3;
    assert Spread(c) * 0x0101_0101 == low + 16777216 * top + 0x1_0000_0000 * high;
    TopByteOf(low, top, high);
  }

  lemma TopByteOf(low: nat, top: nat, high: nat)
    requires low < 16777216 && top <= 224
    ensures Wrap(low + 16777216 * top + 0x1_0000_0000 * high) / 16777216 == top
  {
    var v := low + 16777216 * top;
    assert v < 0x1_0000_0000;
    assert (v + 0x1_0000_0000 * high) % 0x1_0000_0000 == v;
  }

  // ---- redisPopcount -------------------------------------------------------------------------------------

  /** Seven words of 32 bits at once. */
  method CountBlock(s: seq<Byte>) returns (bits: nat)
    requires |s| == 28
    ensures bits == OnesIn(s)
  {
    hide WordCounts, Columns, Ones, OnesIn;
    var sum: nat := 0;
    NoColumns(s);
    for i: nat := 0 to 7
      invariant sum == Spread(Columns(s, i))
    {
      var aux := FromLE(s[4 * i..4 * i + 4]);
      WordOfBytes(s[4 * i..4 * i + 4]);
      ColumnStep(s, i);
      sum := sum + WordCounts(aux);
    }
    TopByte(Columns(s, 7));
    ColumnsTotal(s, 7);
    assert s[..28] == s;
    bits := Wrap(Wrap(sum) * 0x0101_0101) / 16777216;
  }

  lemma NoColumns(s: seq<Byte>)
    ensures Columns(s, 0) == (0, 0, 0, 0)
  {
  }

  lemma ColumnStep(s: seq<Byte>, i: nat)
    requires 4 * i + 4 <= |s|
    ensures Spread(Columns(s, i + 1))
            == Spread(Columns(s, i)) + Ones(8, s[4 * i]) + 256 * Ones(8, s[4 * i + 1]) + 65536 * Ones(8, s[4 * i + 2])
               + 16777216 * Ones(8, s[4 * i + 3])
  {
    hide Ones;
  }

  /** redisPopcount of a string that starts at this address. */
  method Popcount(s: seq<Byte>, address: nat) returns (bits: nat)
    ensures bits == OnesIn(s)
  {
    hide Ones, OnesIn;
    NoOnes();
    bits := 0;
    var p: nat := 0;
    assert s[..0] == [];
    while (address + p) % 4 != 0 && p < |s|
      invariant p <= |s| && bits == OnesIn(s[..p])
      decreases |s| - p
    {
      OnesInNext(s, p, 1);
      OnesInOne(s[p]);
      assert s[p..p + 1] == [s[p]];
      bits := bits + Ones(8, s[p]);
      p := p + 1;
    }
    while |s| - p >= 28
      invariant p <= |s| && bits == OnesIn(s[..p])
      decreases |s| - p
    {
      OnesInNext(s, p, 28);
      var block := CountBlock(s[p..p + 28]);
      bits := bits + block;
      p := p + 28;
    }
    while p < |s|
      invariant p <= |s| && bits == OnesIn(s[..p])
      decreases |s| - p
    {
      OnesInNext(s, p, 1);
      OnesInOne(s[p]);
      assert s[p..p + 1] == [s[p]];
      bits := bits + Ones(8, s[p]);
      p := p + 1;
    }
    assert s[..p] == s;
  }

  lemma OnesInNext(s: seq<Byte>, p: nat, n: nat)
    requires p + n <= |s|
    ensures OnesIn(s[..p + n]) == OnesIn(s[..p]) + OnesIn(s[p..p + n])
  {
    OnesInAppend(s[..p], s[p..p + n]);
    assert s[..p + n] == s[..p] + s[p..p + n];
  }

  lemma OnesInOne(b: Byte)
    ensures OnesIn([b]) == Ones(8, b)
  {
    hide Ones;
    assert OnesIn([b][1..]) == 0;
  }

  // ---- bit by bit -------------------------------------------------------------------------------------------

  /** Bit k of the string; the first bit is the most significant one of the first byte. Beyond the
      end all bits are zero. */
  function StringBit(s: seq<Byte>, k: nat): bool {
    k / 8 < |s| && Bit(s[k / 8], 7 - k % 8)
  }

  /** The same as a binary digit: position 0 is the digit 128 of the first byte. */
  lemma StringBitDigit(s: seq<Byte>, k: nat)
    ensures StringBit(s, k) <==> k / 8 < |s| && s[k / 8] / Pow2(7 - k % 8) % 2 == 1
  {
    hide Bit, Pow2;
    if k / 8 < |s| { BitIsDigit(s[k / 8], 7 - k % 8); }
  }

  /** The set positions among the first n. */
  ghost function SetPositions(s: seq<Byte>, n: nat): set<nat> {
    set k | 0 <= k < n && StringBit(s, k)
  }

  /** One bits of a byte as positions from the front. */
  lemma {:induction false} ByteOnes(s: seq<Byte>, i: nat, n: nat)
    requires i < |s| && n <= 8
    ensures |SetPositions(s, 8 * i + n)| == |SetPositions(s, 8 * i)| + Ones(n, Shr(s[i], 8 - n))
  {
    hide Bit;
    if n > 0 {
      var k := 8 * i + n - 1;
      ByteOnes(s, i, n - 1);
      ShrStep(s[i], 8 - n);
      assert k / 8 == i && k % 8 == n - 1;
      if StringBit(s, k) {
        assert SetPositions(s, k + 1) == SetPositions(s, k) + {k};
      } else {
        assert SetPositions(s, k + 1) == SetPositions(s, k);
      }
    }
  }

  lemma {:induction false} ShrStep(v: nat, k: nat)
    ensures Shr(v, k) / 2 == Shr(v, k + 1) && (Shr(v, k) % 2 == 1 <==> Bit(v, k))
  {
    if k > 0 { ShrStep(v / 2, k - 1); }
  }

  /** The count is the number of positions holding a one. */
  lemma {:induction false} OnesInIsCount(s: seq<Byte>, i: nat)
    requires i <= |s|
    ensures OnesIn(s[..i]) == |SetPositions(s, 8 * i)|
  {
    hide Ones, StringBit;
    if i == 0 {
      assert s[..0] == [] && SetPositions(s, 0) == {};
    } else {
      OnesInIsCount(s, i - 1);
      ByteOnes(s, i - 1, 8);
      assert Shr(s[i - 1], 0) == s[i - 1];
      OnesInNext(s, i - 1, 1);
      assert s[i - 1..i] == [s[i - 1]];
      OnesInOne(s[i - 1]);
    }
  }
}
