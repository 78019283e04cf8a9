/** Loading damaged files (aof.c): what a foreign byte does, what a cut-off file becomes, and the
    bytes themselves. */
module AofDamage {
  import opened Buffers
  import opened AofFormat
  import opened AofRoundTrip
  import opened AofReplay

  // ---- foreign bytes ---------------------------------------------------------------------------

  lemma FirstByteKept(s: Bytes)
    requires s != []
    ensures LineLen(s, LINE_MAX) > 0 && s[..LineLen(s, LINE_MAX)][0] == s[0]
  {
  }

  /** Something that does not start with '*' where a command should is a format error: loading exits
      whatever aof-load-truncated says, and the file stays as it is. */
  lemma JunkIsFatal(cmds: seq<Command>, junk: Bytes, flag: bool)
    requires AllRepresentable(cmds) && NoneEmpty(cmds) && junk != [] && junk[0] != 42
    ensures Load(Print(cmds) + junk, flag) == Exit(cmds)
  {
    hide LineLen, Print, Atoi, ParseArgs;
    FirstByteKept(junk);
    LoadPrinted(cmds, junk, [], 0, flag);
    assert [] + cmds == cmds;
  }

  lemma BadArg(junk: Bytes)
    requires junk != [] && junk[0] != 36
    ensures ParseArg(junk) == ArgBad
  {
    hide LineLen, StrToL;
    FirstByteKept(junk);
  }

  /** Something that does not start with '$' where an argument should. */
  lemma {:induction false} BadArgs(args: Command, junk: Bytes, n: nat)
    requires (forall i | 0 <= i < |args| :: |args[i]| < UINT_LIMIT) && junk != [] && junk[0] != 36 && |args| < n
    ensures ParseArgs(PrintArgs(args) + junk, n) == ArgsBad
    decreases |args|
  {
    hide ParseArg, PrintArg;
    if args == [] {
      assert PrintArgs(args) + junk == junk;
      BadArg(junk);
    } else {
      var after := PrintArgs(args[1..]) + junk;
      assert PrintArgs(args) + junk == PrintArg(args[0]) + after;
      ArgReadBack(args[0], after);
      BadArgs(args[1..], junk, n - 1);
    }
  }

  lemma JunkArgumentIsFatal(cmds: seq<Command>, n: nat, args: Command, junk: Bytes, flag: bool)
    requires AllRepresentable(cmds) && NoneEmpty(cmds) && Representable(args) && |args| < n < INT_LIMIT
    requires junk != [] && junk[0] != 36
    ensures Load(Print(cmds) + (Line(42, n) + (PrintArgs(args) + junk)), flag) == Exit(cmds)
  {
    hide Print, ParseCommand, PrintArgs, Line;
    var after := PrintArgs(args) + junk;
    BadCommand(n, args, junk);
    LineKind(42, n);
    LoadPrinted(cmds, Line(42, n) + after, [], 0, flag);
    assert [] + cmds == cmds;
  }

  lemma BadCommand(n: nat, args: Command, junk: Bytes)
    requires Representable(args) && |args| < n < INT_LIMIT && junk != [] && junk[0] != 36
    ensures ParseCommand(Line(42, n) + (PrintArgs(args) + junk)) == FmtErr
  {
    hide LineLen, Atoi, ParseArgs, PrintArgs, Line, StrToL;
    LineRead(42, n, PrintArgs(args) + junk);
    LineKind(42, n);
    AtoiSmall(Line(42, n)[1..], n);
    BadArgs(args, junk, n);
  }

  // ---- any file at all -------------------------------------------------------------------------

  lemma {:induction false} LinePrefix(s: Bytes, max: nat, k: nat)
    requires LineLen(s, max) <= k <= |s|
    ensures LineLen(s[..k], max) == LineLen(s, max)
  {
    if max != 0 && s != [] && s[0] != LF && k > 0 {
      assert s[..k][1..] == s[1..][..k - 1];
      LinePrefix(s[1..], max - 1, k - 1);
    }
  }

  /** The bytes of an argument are read from the front of the text only. */
  lemma ArgPrefix(s: Bytes, k: nat)
    requires ParseArg(s).Arg? && |s| - |ParseArg(s).rest| <= k <= |s|
    ensures ParseArg(s[..k]) == Arg(ParseArg(s).arg, ParseArg(s).rest[..k - (|s| - |ParseArg(s).rest|)])
  {
    hide LineLen, StrToL;
    var n := LineLen(s, LINE_MAX);
    LinePrefix(s, LINE_MAX, k);
    var line := s[..n];
    assert s[..k][..n] == line && s[..k][n..] == s[n..][..k - n];
    var len := StrToL(line[1..]) % (2 * LONG_LIMIT);
    assert s[n..][..k - n][..len] == s[n..][..len];
    assert s[n..][..k - n][len + 2..] == s[n..][len + 2..][..k - n - len - 2];
  }

  lemma {:induction false} ArgsPrefix(s: Bytes, n: nat, k: nat)
    requires ParseArgs(s, n).Args? && |s| - |ParseArgs(s, n).rest| <= k <= |s|
    ensures ParseArgs(s[..k], n) == Args(ParseArgs(s, n).args, ParseArgs(s, n).rest[..k - (|s| - |ParseArgs(s, n).rest|)])
    decreases n
  {
    hide ParseArg;
    if n == 0 {
    } else {
      var rest := ParseArg(s).rest;
      ArgPrefix(s, k);
      ArgsPrefix(rest, n - 1, k - (|s| - |rest|));
    }
  }

  /** So are those of a command. */
  lemma CommandPrefix(s: Bytes, k: nat)
    requires ParseCommand(s).Cmd? && |s| - |ParseCommand(s).rest| <= k <= |s|
    ensures ParseCommand(s[..k]) == Cmd(ParseCommand(s).argv, ParseCommand(s).rest[..k - (|s| - |ParseCommand(s).rest|)])
  {
    hide LineLen, ParseArgs, Atoi;
    var n := LineLen(s, LINE_MAX);
    var line := s[..n];
    LinePrefix(s, LINE_MAX, k);
    assert s[..k][..n] == line && s[..k][n..] == s[n..][..k - n];
    ArgsPrefix(s[n..], Atoi(line[1..]), k - n);
  }

  lemma {:induction false} CutHeals(s: Bytes, prior: seq<Command>, valid: nat, flag: bool)
    requires LoadFrom(s, prior, valid, true).Loaded?
    ensures var r := LoadFrom(s, prior, valid, true);
            && valid <= r.size <= valid + |s|
            && LoadFrom(s[..r.size - valid], prior, valid, flag) == r
            && (r.size < valid + |s| ==> s[r.size - valid] == 42)
    decreases |s|
  {
    hide ParseCommand;
    var r := LoadFrom(s, prior, valid, true);
    match ParseCommand(s)
    case Cmd(argv, rest) =>
      var used := |s| - |rest|;
      CutHeals(rest, prior + [argv], valid + used, flag);
      CommandPrefix(s, r.size - valid);
      CommandRest(s);
      assert s[r.size - valid..] == rest[r.size - valid - used..];
    case End =>
      AofRoundTrip.EndOfFile();
      EndMeansEmpty(s);
    case ReadErr(eof) =>
      AofRoundTrip.EndOfFile();
      ErrorStarts(s);
    case FmtErr =>
  }

  lemma EndMeansEmpty(s: Bytes)
    requires ParseCommand(s).End?
    ensures s == []
  {
  }

  lemma ErrorStarts(s: Bytes)
    requires ParseCommand(s).ReadErr?
    ensures s != [] && s[0] == 42
  {
    FirstByteKept(s);
  }

  /** What is left after a command is the rest of the text. */
  lemma CommandRest(s: Bytes)
    requires ParseCommand(s).Cmd?
    ensures var rest := ParseCommand(s).rest; |rest| <= |s| && s[|s| - |rest|..] == rest
  {
    hide LineLen, ParseArgs, Atoi;
    var n := LineLen(s, LINE_MAX);
    ArgsRest(s[n..], Atoi(s[..n][1..]));
  }

  lemma {:induction false} ArgsRest(s: Bytes, n: nat)
    requires ParseArgs(s, n).Args?
    ensures var rest := ParseArgs(s, n).rest; |rest| <= |s| && s[|s| - |rest|..] == rest
    decreases n
  {
    hide ParseArg;
    if n > 0 {
      var rest := ParseArg(s).rest;
      ArgRest(s);
      ArgsRest(rest, n - 1);
    }
  }

  lemma ArgRest(s: Bytes)
    requires ParseArg(s).Arg?
    ensures var rest := ParseArg(s).rest; |rest| <= |s| && s[|s| - |rest|..] == rest
  {
    hide LineLen, StrToL;
  }

  /** Whatever bytes a file holds: if it loads with aof-load-truncated and is cut back, then only
      something that starts like a command was cut off, and what is left loads with the same commands
      under either setting. */
  lemma TruncationHeals(file: Bytes, flag: bool)
    requires Load(file, true).Loaded?
    ensures var r := Load(file, true);
            && r.size <= |file| && (r.size < |file| ==> file[r.size] == 42)
            && Load(file[..r.size], flag) == if r.size == 0 then Empty else r
  {
    hide LoadFrom, ParseCommand;
    CutHeals(file, [], 0, flag);
  }

  // ---- the bytes -------------------------------------------------------------------------------

  function Ascii(s: string): Bytes
    requires forall i | 0 <= i < |s| :: s[i] < 128 as char
  {
    seq(|s|, i requires 0 <= i < |s| => s[i] as int)
  }

  /** The names of the commands that a snapshot uses. */
  lemma Names()
    ensures SELECT == Ascii("SELECT") && SET == Ascii("SET")
    ensures KindName(Rpush) == Ascii("RPUSH") && KindName(Sadd) == Ascii("SADD")
    ensures KindName(Zadd) == Ascii("ZADD") && KindName(Hmset) == Ascii("HMSET")
  {
  }

  /** Numbers as strtol and atoi read them: signs, spaces, what follows the digits, and 32 bits. */
  lemma NegativeNumber()
    ensures StrToL(Ascii("-12")) == -12
  {
    DigitsOf("12", 12);
    assert Ascii("-12")[1..] == Ascii("12");
  }

  lemma SpacesAndSigns()
    ensures StrToL(Ascii(" +7x")) == 7 && StrToL(Ascii("x")) == 0
  {
    assert Ascii(" +7x")[1..] == Ascii("+7x") && Ascii("+7x")[1..] == Ascii("7x") && Ascii("7x")[1..] == Ascii("x");
  }

  lemma ThirtyTwoBits(s: Bytes)
    requires StrToL(s) == -1 || StrToL(s) == 0x1_0000_0003 || StrToL(s) == 0x8000_0000
    ensures Atoi(s) == if StrToL(s) == -1 then -1 else if StrToL(s) == 0x1_0000_0003 then 3 else -0x8000_0000
  {
  }

  lemma DigitsOf(s: string, n: nat)
    requires (forall i | 0 <= i < |s| :: s[i] < 128 as char) && Ascii(s) == Decimal(n)
    ensures Digits(Ascii(s), 0) == n
  {
    DecimalDigits(n, []);
    assert Decimal(n) + [] == Decimal(n);
  }

  /** A line is cut after 127 bytes. */
  lemma {:induction false} LongLine(s: Bytes, max: nat)
    requires |s| >= max && forall i | 0 <= i < max :: s[i] != 10
    ensures LineLen(s, max) == max && LINE_MAX == 127
  {
    if max > 0 { LongLine(s[1..], max - 1); }
  }

  /** Lines and arguments, byte by byte. */
  lemma SmallBytes(n: nat, a: Bytes)
    requires n < 10 && |a| < 10
    ensures Line(STAR, n) == Ascii("*") + [48 + n] + Ascii("\r\n")
    ensures PrintArg(a) == Ascii("$") + [48 + |a|] + Ascii("\r\n") + a + Ascii("\r\n")
    ensures Decimal(10) == Ascii("10") && Decimal(4096) == Ascii("4096")
  {
    assert Decimal(409) == Decimal(40) + [57];
  }

  /** A whole command, byte by byte: SET k v. */
  lemma SetBytes()
    ensures PrintCommand([SET, Ascii("k"), Ascii("v")]) == Ascii("*3\r\n$3\r\nSET\r\n$1\r\nk\r\n$1\r\nv\r\n")
  {
    hide PrintArg, Line, PrintArgs, Ascii;
    var k, v := Ascii("k"), Ascii("v");
    Pieces();
    Joined();
    SmallBytes(3, SET);
    SmallBytes(3, k);
    SmallBytes(3, v);
    PrintCons(SET, [k, v]);
    PrintCons(k, [v]);
    var none: Command := [];
    PrintCons(v, none);
    assert [SET] + [k, v] == [SET, k, v] && [k] + [v] == [k, v] && [v] + none == [v];
  }

  lemma PrintCons(a: Bytes, rest: Command)
    ensures PrintArgs([a] + rest) == PrintArg(a) + PrintArgs(rest) && PrintArgs([]) == []
  {
    assert ([a] + rest)[1..] == rest;
  }

  lemma Joined()
    ensures [42, 51, 13, 10] + ([36, 51, 13, 10, 83, 69, 84, 13, 10] + ([36, 49, 13, 10, 107, 13, 10] + ([36, 49, 13, 10, 118, 13, 10] + [])))
            == Ascii("*3\r\n$3\r\nSET\r\n$1\r\nk\r\n$1\r\nv\r\n")
  {
  }

  lemma Pieces()
    ensures Ascii("*") + [48 + 3] + Ascii("\r\n") == [42, 51, 13, 10]
    ensures Ascii("$") + [48 + 3] + Ascii("\r\n") + SET + Ascii("\r\n") == [36, 51, 13, 10, 83, 69, 84, 13, 10]
    ensures Ascii("$") + [48 + 1] + Ascii("\r\n") + Ascii("k") + Ascii("\r\n") == [36, 49, 13, 10, 107, 13, 10]
    ensures Ascii("$") + [48 + 1] + Ascii("\r\n") + Ascii("v") + Ascii("\r\n") == [36, 49, 13, 10, 118, 13, 10]
    ensures |SET| == 3 && |Ascii("k")| == |Ascii("v")| == 1
  {
  }
}
