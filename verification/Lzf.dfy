/** LZF decompression (lzf_d.c): literal runs and back references that may overlap the bytes they
    produce. */
module Lzf {
  import opened Basics
  import opened Buffers

  // ---- tokens and what they stand for --------------------------------------------------------------

  /** A run of literal bytes, or a copy of length bytes from distance back. */
  datatype Token = Literal(bytes: Bytes) | Ref(distance: nat, length: nat)

  predicate TokenOk(t: Token) {
    match t
    case Literal(b) => 1 <= |b| <= 32
    case Ref(d, n) => 1 <= d <= 8192 && 3 <= n <= 264
  }

  function Size(t: Token): nat {
    if t.Literal? then |t.bytes| else t.length
  }

  /** Copying byte by byte from distance back. */
  function Copy(out: Bytes, distance: nat, n: nat): (r: Bytes)
    requires 1 <= distance <= |out|
    ensures |r| == |out| + n && r[..|out|] == out
    decreases n
  {
    if n == 0 then out else var r := Copy(out, distance, n - 1); r + [r[|r| - distance]]
  }

  /** The copied bytes repeat with the period of the distance. */
  lemma {:induction false} CopyIsPeriodic(out: Bytes, distance: nat, n: nat, k: nat)
    requires 1 <= distance <= |out| && |out| <= k < |out| + n
    ensures Copy(out, distance, n)[k] == Copy(out, distance, n)[k - distance]
  {
    if k < |out| + n - 1 { CopyIsPeriodic(out, distance, n - 1, k); }
  }

  /** The reference stays within what was produced so far. */
  predicate Reachable(t: Token, out: Bytes) {
    t.Ref? ==> t.distance <= |out|
  }

  function Apply(out: Bytes, t: Token): (r: Bytes)
    requires TokenOk(t) && Reachable(t, out)
    ensures |r| == |out| + Size(t)
  {
    if t.Literal? then out + t.bytes else Copy(out, t.distance, t.length)
  }

  predicate TokensOk(ts: seq<Token>) {
    forall i | 0 <= i < |ts| :: TokenOk(ts[i])
  }

  /** The expansion of a token list behind `out`; None when some reference reaches too far. */
  function Expand(ts: seq<Token>, out: Bytes): Option<Bytes>
    requires TokensOk(ts)
  {
    if ts == [] then Some(out)
    else if !Reachable(ts[0], out) then None
    else Expand(ts[1..], Apply(out, ts[0]))
  }

  // ---- the compressed form ----------------------------------------------------------------------------

  function EncodeToken(t: Token): (b: Bytes)
    requires TokenOk(t)
    ensures |b| >= 2
  {
    match t
    case Literal(bytes) => [|bytes| - 1] + bytes
    case Ref(d, n) =>
      var hi, lo := (d - 1) / 256, (d - 1) % 256;
      if n < 9 then [(n - 2) * 32 + hi, lo] else [224 + hi, n - 9, lo]
  }

  function Encode(ts: seq<Token>): Bytes
    requires TokensOk(ts)
  {
    if ts == [] then [] else EncodeToken(ts[0]) + Encode(ts[1..])
  }

  /** The first token and the number of bytes it takes; None when the input ends within it. */
  function ParseToken(s: Bytes): (r: Option<(Token, nat)>)
    requires s != []
    ensures r.Some? ==> TokenOk(r.value.0) && 2 <= r.value.1 <= |s|
  {
    var ctrl: int := s[0];
    if ctrl < 32 then
      if |s| < ctrl + 2 then None else Some((Literal(s[1..ctrl + 2]), ctrl + 2))
    else
      var len, hi := ctrl / 32, ctrl % 32 * 256;
      if len < 7 then
        if |s| < 2 then None else var lo: int := s[1]; Some((Ref(hi + lo + 1, len + 2), 2))
      else
        if |s| < 3 then None else var more: int, lo: int := s[1], s[2]; Some((Ref(hi + lo + 1, len + more + 2), 3))
  }

  lemma ParseEncoded(t: Token, rest: Bytes)
    requires TokenOk(t)
    ensures ParseToken(EncodeToken(t) + rest) == Some((t, |EncodeToken(t)|))
  {
    if t.Literal? {
      assert (EncodeToken(t) + rest)[1..|t.bytes| + 1] == t.bytes;
    } else {
      var d := t.distance - 1;
      assert d / 256 < 32 && d / 256 * 256 + d % 256 == d;
      var ctrl := (EncodeToken(t) + rest)[0];
      if t.length < 9 {
        assert ctrl / 32 == t.length - 2 && ctrl % 32 == d / 256;
      } else {
        assert ctrl / 32 == 7 && ctrl % 32 == d / 256;
      }
    }
  }

  lemma EncodeParsed(s: Bytes)
    requires s != [] && ParseToken(s).Some?
    ensures var p := ParseToken(s).value; EncodeToken(p.0) == s[..p.1]
  {
    var p := ParseToken(s).value;
    if p.0.Literal? {
      assert s[..p.1] == [s[0]] + s[1..p.1];
    } else {
      var ctrl: int := s[0];
      var lo: int := s[p.1 - 1];
      assert p.0.distance - 1 == ctrl % 32 * 256 + lo;
      assert (p.0.distance - 1) / 256 == ctrl % 32 && (p.0.distance - 1) % 256 == lo;
      assert ctrl == ctrl / 32 * 32 + ctrl % 32;
    }
  }

  /** The control bytes: below 32 a literal run, else three bits of length and the high bits of the
      distance; length bits 111 announce another length byte. */
  lemma ControlBytes(lo: Byte, more: Byte)
    ensures ParseToken([2, 97, 98, 99]) == Some((Literal([97, 98, 99]), 4))
    ensures ParseToken([0x20, lo]) == Some((Ref(lo + 1, 3), 2)) && ParseToken([0xDF, lo]) == Some((Ref(7937 + lo, 8), 2))
    ensures ParseToken([0xE0, more, lo]) == Some((Ref(lo + 1, 9 + more), 3))
    ensures ParseToken([0xFF, more, lo]) == Some((Ref(7937 + lo, 9 + more), 3))
  {
    var s: Bytes := [2, 97, 98, 99];
    assert s[1..4] == [97, 98, 99];
  }

  // ---- what lzf_decompress computes ----------------------------------------------------------------------

  /** Decoding behind `out` into a buffer of max bytes; None is the error return. */
  function Decode(s: Bytes, out: Bytes, max: nat): (r: Option<Bytes>)
    requires s != []
    ensures r.Some? ==> |out| < |r.value| <= max
    decreases |s|
  {
    var p := ParseToken(s);
    if p.None? then None
    else
      var (t, n) := p.value;
      if |out| + Size(t) > max || !Reachable(t, out) then None
      else if n == |s| then Some(Apply(out, t))
      else Decode(s[n..], Apply(out, t), max)
  }

  /** The encoding of a nonempty token list decodes to its expansion, if that exists and fits;
      otherwise decoding fails. */
  lemma {:induction false} DecodeEncoded(ts: seq<Token>, out: Bytes, max: nat)
    requires TokensOk(ts) && ts != []
    ensures Encode(ts) != []
    ensures Decode(Encode(ts), out, max)
            == match Expand(ts, out)
               case None => None
               case Some(r) => if |r| <= max then Some(r) else None
    decreases |ts|
  {
    hide ParseToken, EncodeToken, Apply;
    var t, rest := ts[0], ts[1..];
    var e := EncodeToken(t);
    assert Encode(ts) == e + Encode(rest);
    ParseEncoded(t, Encode(rest));
    assert (e + Encode(rest))[|e|..] == Encode(rest);
    if Reachable(t, out) {
      ExpandGrows(rest, Apply(out, t));
      if rest != [] { DecodeEncoded(rest, Apply(out, t), max); }
    }
  }

  lemma {:induction false} ExpandGrows(ts: seq<Token>, out: Bytes)
    requires TokensOk(ts)
    ensures Expand(ts, out).Some? ==> |Expand(ts, out).value| >= |out|
    decreases |ts|
  {
    hide Apply;
    if ts != [] && Reachable(ts[0], out) { ExpandGrows(ts[1..], Apply(out, ts[0])); }
  }

  /** Every input that decodes is the encoding of a token list. */
  lemma {:induction false} DecodedTokens(s: Bytes, out: Bytes, max: nat) returns (ts: seq<Token>)
    requires s != [] && Decode(s, out, max).Some?
    ensures TokensOk(ts) && ts != [] && Encode(ts) == s && Expand(ts, out) == Decode(s, out, max)
    decreases |s|
  {
    hide ParseToken, EncodeToken, Apply;
    var (t, n) := ParseToken(s).value;
    EncodeParsed(s);
    var rest: seq<Token> := [];
    if n < |s| {
      rest := DecodedTokens(s[n..], Apply(out, t), max);
    }
    ts := [t] + rest;
    assert ts[1..] == rest;
    assert s == s[..n] + s[n..];
  }

  /** Token lists are determined by their encoding. */
  lemma {:induction false} EncodeInjective(a: seq<Token>, b: seq<Token>)
    requires TokensOk(a) && TokensOk(b) && Encode(a) == Encode(b)
    ensures a == b
    decreases |a|
  {
    hide ParseToken, EncodeToken;
    if a != [] && b != [] {
      ParseEncoded(a[0], Encode(a[1..]));
      ParseEncoded(b[0], Encode(b[1..]));
      assert a[0] == b[0];
      var n := |EncodeToken(a[0])|;
      assert Encode(a)[n..] == Encode(a[1..]) && Encode(b)[n..] == Encode(b[1..]);
      EncodeInjective(a[1..], b[1..]);
      assert a == [a[0]] + a[1..] && b == [b[0]] + b[1..];
    }
  }

  // ---- lzf_decompress -----------------------------------------------------------------------------------

  /** The literal copy loop. */
  method CopyLiterals(input: Bytes, ip: nat, out: array<Byte>, op: nat, n: nat)
    requires ip + n <= |input| && op + n <= out.Length
    modifies out
    ensures out[..op + n] == old(out[..op]) + input[ip..ip + n]
  {
    for i := 0 to n
      invariant out[..op + i] == old(out[..op]) + input[ip..ip + i]
    {
      out[op + i] := input[ip + i];
      assert out[..op + (i + 1)] == out[..op + i] + [input[ip + i]];
    }
  }

  /** The back reference loop; source and target may overlap. */
  method CopyBack(out: array<Byte>, op: nat, distance: nat, n: nat)
    requires 1 <= distance <= op && op + n <= out.Length
    modifies out
    ensures out[..op + n] == Copy(old(out[..op]), distance, n)
  {
    for i := 0 to n
      invariant out[..op + i] == Copy(old(out[..op]), distance, i)
    {
      ghost var before := out[..op + i];
      out[op + i] := out[op + i - distance];
      assert out[..op + (i + 1)] == before + [before[|before| - distance]];
    }
  }

  /** The conditions under which the token at the front of s is decoded behind out. */
  ghost predicate Decodes(s: Bytes, out: Bytes, max: nat)
    requires s != []
  {
    var p := ParseToken(s);
    p.Some? && |out| + Size(p.value.0) <= max && Reachable(p.value.0, out)
  }

  /** A literal run whose control byte was read. */
  method LiteralRun(input: Bytes, start: nat, out: array<Byte>, op: nat) returns (ip: nat, op': nat, ok: bool)
    requires start < |input| && input[start] < 32 && op <= out.Length
    modifies out
    ensures ok <==> Decodes(input[start..], old(out[..op]), out.Length)
    ensures ok ==> var (t, n) := ParseToken(input[start..]).value;
                   ip == start + n && op' <= out.Length && out[..op'] == Apply(old(out[..op]), t)
  {
    ghost var s := input[start..];
    var ctrl: int := input[start] + 1;
    ip, op' := start + 1, op;
    if op + ctrl > out.Length { return ip, op', false; }
    if ip + ctrl > |input| { return ip, op', false; }
    CopyLiterals(input, ip, out, op, ctrl);
    assert s[1..ctrl + 1] == input[ip..ip + ctrl];
    return ip + ctrl, op + ctrl, true;
  }

  /** A back reference whose control byte was read. */
  method BackReference(input: Bytes, start: nat, out: array<Byte>, op: nat) returns (ip: nat, op': nat, ok: bool)
    requires start < |input| && input[start] >= 32 && op <= out.Length
    modifies out
    ensures ok <==> Decodes(input[start..], old(out[..op]), out.Length)
    ensures ok ==> var (t, n) := ParseToken(input[start..]).value;
                   ip == start + n && op' <= out.Length && out[..op'] == Apply(old(out[..op]), t)
  {
    hide Copy;
    ghost var s := input[start..];
    var ctrl: int := input[start];
    ip, op' := start + 1, op;
    var len: int, distance: int := ctrl / 32, ctrl % 32 * 256 + 1;
    if ip >= |input| { return ip, op', false; }
    if len == 7 {
      len := len + input[ip];
      ip := ip + 1;
      if ip >= |input| { return ip, op', false; }
    }
    distance := distance + input[ip];
    ip := ip + 1;
    assert ParseToken(s) == Some((Ref(distance, len + 2), ip - start));
    if op + len + 2 > out.Length { return ip, op', false; }
    if op < distance { return ip, op', false; }
    CopyBack(out, op, distance, len + 2);
    return ip, op + len + 2, true;
  }

  /** lzf_decompress. All reads and writes are within the two buffers. */
  method Decompress(input: Bytes, out: array<Byte>) returns (r: nat)
    requires input != []
    modifies out
    ensures r != 0 <==> Decode(input, [], out.Length).Some?
    ensures r != 0 ==> r <= out.Length && Some(out[..r]) == Decode(input, [], out.Length)
  {
    hide Apply, ParseToken, Reachable, Size;
    var ip: nat, op: nat := 0, 0;
    assert input[0..] == input && out[..0] == [];
    while true
      invariant ip < |input| && op <= out.Length
      invariant Decode(input[ip..], out[..op], out.Length) == Decode(input, [], out.Length)
      decreases |input| - ip
    {
      ghost var s := input[ip..];
      ghost var start := ip;
      var ok;
      if input[ip] < 32 {
        ip, op, ok := LiteralRun(input, ip, out, op);
      } else {
        ip, op, ok := BackReference(input, ip, out, op);
      }
      if !ok { return 0; }
      assert s[ip - start..] == input[ip..];
      if ip >= |input| { return op; }
    }
  }

  /** A nonzero result means exactly that the input is the encoding of a valid token list whose
      expansion fits the output buffer; the expansion is then what the buffer holds. */
  lemma DecodeMeaning(input: Bytes, max: nat, r: Bytes)
    requires input != []
    ensures Decode(input, [], max) == Some(r)
            <==> |r| <= max && exists ts :: TokensOk(ts) && Encode(ts) == input && Expand(ts, []) == Some(r)
  {
    if Decode(input, [], max) == Some(r) {
      var ts := DecodedTokens(input, [], max);
    }
    if |r| <= max && exists ts :: TokensOk(ts) && Encode(ts) == input && Expand(ts, []) == Some(r) {
      var ts :| TokensOk(ts) && Encode(ts) == input && Expand(ts, []) == Some(r);
      DecodeEncoded(ts, [], max);
    }
  }
}
