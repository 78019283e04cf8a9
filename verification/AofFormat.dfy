/** The append only file as text (aof.c): the command printer, and the parser that
    loadAppendOnlyFile runs over a file. */
module AofFormat {
  import opened Buffers

  /** A command is its argument vector; arguments are binary safe. */
  type Command = seq<Bytes>

  const CR: Byte := 13
  const LF: Byte := 10
  const STAR: Byte := 42
  const DOLLAR: Byte := 36

  /** sizeof(buf) - 1 of the line buffer. */
  const LINE_MAX: nat := 127

  const INT_LIMIT: nat := 0x8000_0000
  const UINT_LIMIT: nat := 0x1_0000_0000
  const LONG_LIMIT: nat := 0x8000_0000_0000_0000

  // ---- numbers as text ---------------------------------------------------------------------

  predicate IsDigit(b: Byte) {
    48 <= b <= 57
  }

  /** ll2string of a number that is not negative. */
  function Decimal(n: nat): (s: Bytes)
    ensures |s| >= 1 && forall i | 0 <= i < |s| :: IsDigit(s[i])
  {
    if n < 10 then [48 + n] else Decimal(n / 10) + [48 + n % 10]
  }

  /** The digits at the front of s, continuing the number acc. */
  function Digits(s: Bytes, acc: nat): nat {
    if s == [] || !IsDigit(s[0]) then acc else Digits(s[1..], 10 * acc + (s[0] - 48))
  }

  predicate IsSpace(b: Byte) {
    b == 32 || 9 <= b <= 13
  }

  function SkipSpaces(s: Bytes): Bytes {
    if s != [] && IsSpace(s[0]) then SkipSpaces(s[1..]) else s
  }

  /** strtol in base 10, clamping to the range of a 64-bit long. */
  function StrToL(s: Bytes): int {
    var t := SkipSpaces(s);
    if t != [] && t[0] == 45 then
      var v := Digits(t[1..], 0);
      if v > LONG_LIMIT then 0 - LONG_LIMIT else 0 - v
    else
      var v := Digits(if t != [] && t[0] == 43 then t[1..] else t, 0);
      if v >= LONG_LIMIT then LONG_LIMIT - 1 else v
  }

  /** atoi: the long cut down to 32 bits. */
  function Atoi(s: Bytes): int {
    var v := StrToL(s) % UINT_LIMIT;
    if v >= INT_LIMIT then v - UINT_LIMIT else v
  }

  lemma {:induction false} DecimalDigits(n: nat, t: Bytes)
    ensures Digits(Decimal(n) + t, 0) == Digits(t, n)
  {
    if n < 10 {
      assert (Decimal(n) + t)[1..] == t;
    } else {
      DecimalDigits(n / 10, [48 + n % 10] + t);
      assert Decimal(n) + t == Decimal(n / 10) + ([48 + n % 10] + t);
      assert ([48 + n % 10] + t)[1..] == t;
    }
  }

  lemma StrToLDecimal(n: nat, t: Bytes)
    requires n < LONG_LIMIT && (t == [] || !IsDigit(t[0]))
    ensures StrToL(Decimal(n) + t) == n
  {
    var s := Decimal(n) + t;
    assert IsDigit(s[0]) && SkipSpaces(s) == s;
    DecimalDigits(n, t);
  }

  /** A leading part of the text of a positive number is a positive number, not larger. */
  lemma {:induction false} DecimalPrefix(n: nat, k: nat, t: Bytes)
    requires n >= 1 && 1 <= k <= |Decimal(n)| && (t == [] || !IsDigit(t[0]))
    ensures 1 <= Digits(Decimal(n)[..k] + t, 0) <= n
  {
    if k == |Decimal(n)| {
      assert Decimal(n)[..k] == Decimal(n);
      DecimalDigits(n, t);
    } else {
      DecimalPrefix(n / 10, k, t);
      assert Decimal(n)[..k] == Decimal(n / 10)[..k];
    }
  }

  function Pow10(k: nat): nat {
    if k == 0 then 1 else 10 * Pow10(k - 1)
  }

  lemma {:induction false} DecimalLength(n: nat, k: nat)
    requires n < Pow10(k) && k >= 1
    ensures |Decimal(n)| <= k
  {
    if n >= 10 { DecimalLength(n / 10, k - 1); }
  }

  lemma DecimalShort(n: nat)
    requires n < UINT_LIMIT
    ensures |Decimal(n)| <= 10
  {
    assert Pow10(5) == 100_000;
    assert Pow10(10) == 10_000_000_000;
    DecimalLength(n, 10);
  }

  // ---- catAppendOnlyGenericCommand -----------------------------------------------------------

  function Line(kind: Byte, n: nat): Bytes {
    [kind] + Decimal(n) + [CR, LF]
  }

  function PrintArg(a: Bytes): Bytes {
    Line(DOLLAR, |a|) + a + [CR, LF]
  }

  function PrintArgs(c: Command): Bytes {
    if c == [] then [] else PrintArg(c[0]) + PrintArgs(c[1..])
  }

  function PrintCommand(c: Command): Bytes {
    Line(STAR, |c|) + PrintArgs(c)
  }

  function Print(cmds: seq<Command>): Bytes {
    if cmds == [] then [] else PrintCommand(cmds[0]) + Print(cmds[1..])
  }

  method CatCommand(dst: Bytes, argv: Command) returns (r: Bytes)
    ensures r == dst + PrintCommand(argv)
  {
    r := dst + ([STAR] + Decimal(|argv|) + [CR, LF]);
    for j := 0 to |argv|
      invariant r + PrintArgs(argv[j..]) == dst + PrintCommand(argv)
    {
      var o := argv[j];
      assert argv[j..][0] == o && argv[j..][1..] == argv[j + 1..];
      ghost var before := r;
      r := r + ([DOLLAR] + Decimal(|o|) + [CR, LF]);
      r := r + o;
      r := r + [CR, LF];
      assert r == before + PrintArg(o);
    }
  }

  /** argc is an int and string lengths are unsigned ints. */
  ghost predicate Representable(c: Command) {
    |c| < INT_LIMIT && forall i | 0 <= i < |c| :: |c[i]| < UINT_LIMIT
  }

  // ---- reading lines -------------------------------------------------------------------------

  /** The bytes that fgets takes: up to a newline, the end of the file or max bytes. */
  function LineLen(s: Bytes, max: nat): (n: nat)
    ensures n <= |s| && n <= max
    ensures n == 0 <==> s == [] || max == 0
  {
    if max == 0 || s == [] then 0
    else if s[0] == LF then 1
    else 1 + LineLen(s[1..], max - 1)
  }

  /** Whether reading this line ran into the end of the file. */
  predicate HitEof(line: Bytes) {
    |line| < LINE_MAX && (line == [] || line[|line| - 1] != LF)
  }

  lemma {:induction false} LineLenNewline(head: Bytes, rest: Bytes, max: nat)
    requires LF !in head && |head| < max
    ensures LineLen(head + [LF] + rest, max) == |head| + 1
  {
    var s := head + [LF] + rest;
    if head != [] {
      assert s[1..] == head[1..] + [LF] + rest;
      LineLenNewline(head[1..], rest, max - 1);
    }
  }

  lemma {:induction false} LineLenEof(s: Bytes, max: nat)
    requires LF !in s && |s| <= max
    ensures LineLen(s, max) == |s|
  {
    if s != [] { LineLenEof(s[1..], max - 1); }
  }

  // ---- the parser ----------------------------------------------------------------------------

  datatype ReadArg = Arg(arg: Bytes, rest: Bytes) | ArgShort | ArgBad

  /** One argument: a $ line, the bytes, and two more bytes whatever they are. */
  function ParseArg(s: Bytes): (r: ReadArg)
    ensures r.Arg? ==> |r.rest| < |s|
  {
    if s == [] then ArgShort
    else
      var line := s[..LineLen(s, LINE_MAX)];
      if line[0] != DOLLAR then ArgBad
      else
        var len := StrToL(line[1..]) % (2 * LONG_LIMIT);
        var rest := s[|line|..];
        if len != 0 && |rest| < len then ArgShort
        else if |rest| < len + 2 then ArgShort
        else Arg(rest[..len], rest[len + 2..])
  }

  datatype ReadArgs = Args(args: Command, rest: Bytes) | ArgsShort | ArgsBad

  function ParseArgs(s: Bytes, n: nat): (r: ReadArgs)
    ensures r.Args? ==> |r.rest| <= |s| && |r.args| == n
    decreases n
  {
    if n == 0 then Args([], s)
    else match ParseArg(s)
      case ArgShort => ArgsShort
      case ArgBad => ArgsBad
      case Arg(a, rest) =>
        match ParseArgs(rest, n - 1)
        case Args(args, rest') => Args([a] + args, rest')
        case ArgsShort => ArgsShort
        case ArgsBad => ArgsBad
  }

  /** eof tells whether the read error was the end of the file. */
  datatype ReadCommand = Cmd(argv: Command, rest: Bytes) | End | ReadErr(eof: bool) | FmtErr

  function ParseCommand(s: Bytes): (r: ReadCommand)
    ensures r.Cmd? ==> |r.rest| < |s|
  {
    if s == [] then End
    else
      var line := s[..LineLen(s, LINE_MAX)];
      if line[0] != STAR then FmtErr
      else if |line| == 1 || line[1] == 0 then ReadErr(HitEof(line))
      else
        var argc := Atoi(line[1..]);
        if argc < 1 then FmtErr
        else match ParseArgs(s[|line|..], argc)
          case Args(args, rest) => Cmd(args, rest)
          case ArgsShort => ReadErr(true)
          case ArgsBad => FmtErr
  }

  /** Empty is the non-fatal error for a zero-length file. Loaded gives the executed commands
      and the length the file is left with. Exit is the fatal exit, after these commands. */
  datatype LoadResult = Empty | Loaded(cmds: seq<Command>, size: nat) | Exit(cmds: seq<Command>)

  /** What is executed from s on, after the commands `done`, which end at offset valid. */
  function LoadFrom(s: Bytes, done: seq<Command>, valid: nat, loadTruncated: bool): LoadResult
    decreases |s|
  {
    match ParseCommand(s)
    case Cmd(argv, rest) => LoadFrom(rest, done + [argv], valid + (|s| - |rest|), loadTruncated)
    case End => Loaded(done, valid)
    case ReadErr(eof) => if eof && loadTruncated then Loaded(done, valid) else Exit(done)
    case FmtErr => Exit(done)
  }

  function Load(file: Bytes, loadTruncated: bool): LoadResult {
    if file == [] then Empty else LoadFrom(file, [], 0, loadTruncated)
  }

  // ---- loadAppendOnlyFile ----------------------------------------------------------------------

  /** One argument at an offset of the file; next is where reading goes on. */
  method ReadArgument(file: Bytes, pos: nat) returns (arg: Bytes, next: nat, outcome: Outcome)
    requires pos <= |file|
    ensures outcome.Good? <==> ParseArg(file[pos..]).Arg?
    ensures outcome.Good? ==> pos < next <= |file| && ParseArg(file[pos..]) == Arg(arg, file[next..])
    ensures outcome.Bad? <==> ParseArg(file[pos..]).ArgBad?
  {
    hide StrToL, LineLen;
    ghost var s := file[pos..];
    if pos == |file| { return [], pos, Short; }
    var line := file[pos..][..LineLen(file[pos..], LINE_MAX)];
    if line[0] != DOLLAR { return [], pos, Bad; }
    var len := StrToL(line[1..]) % (2 * LONG_LIMIT);
    var at := pos + |line|;
    assert s[|line|..] == file[at..];
    if len != 0 && |file| - at < len { return [], at, Short; }
    arg := file[at..at + len];
    next := at + len;
    if |file| - next < 2 { return arg, next, Short; }
    assert file[at..][..len] == arg && file[at..][len + 2..] == file[next + 2..];
    return arg, next + 2, Good;
  }

  datatype Outcome = Good | Short | Bad

  /** The argument loop. */
  method ReadArguments(file: Bytes, start: nat, argc: nat) returns (argv: Command, pos: nat, outcome: Outcome)
    requires start <= |file|
    ensures outcome.Bad? <==> ParseArgs(file[start..], argc).ArgsBad?
    ensures outcome.Short? <==> ParseArgs(file[start..], argc).ArgsShort?
    ensures outcome.Good? ==> start <= pos <= |file| && ParseArgs(file[start..], argc) == Args(argv, file[pos..])
  {
    hide ParseArg;
    pos := start;
    argv := [];
    for j := 0 to argc
      invariant start <= pos <= |file|
      invariant ParseArgs(file[start..], argc) == Prepend(argv, ParseArgs(file[pos..], argc - j))
    {
      var arg, next, out := ReadArgument(file, pos);
      if !out.Good? { return argv, pos, out; }
      PrependStep(argv, arg, ParseArgs(file[next..], argc - (j + 1)));
      argv := argv + [arg];
      pos := next;
    }
    outcome := Good;
  }

  function Prepend(args: Command, r: ReadArgs): ReadArgs {
    if r.Args? then Args(args + r.args, r.rest) else r
  }

  lemma PrependStep(args: Command, a: Bytes, r: ReadArgs)
    ensures Prepend(args, Prepend([a], r)) == Prepend(args + [a], r)
  {
    if r.Args? { assert args + ([a] + r.args) == args + [a] + r.args; }
  }

  /** What one round of the loading loop found. */
  datatype Found = Command(argv: Command, next: nat) | EndOfFile | UnexpectedEof | Unreadable

  /** One command at an offset of the file. */
  method ReadOne(file: Bytes, pos: nat) returns (r: Found)
    requires pos <= |file|
    ensures r.Command? <==> ParseCommand(file[pos..]).Cmd?
    ensures r.Command? ==> pos < r.next <= |file| && ParseCommand(file[pos..]) == Cmd(r.argv, file[r.next..])
    ensures r.EndOfFile? <==> ParseCommand(file[pos..]).End?
    ensures r.EndOfFile? ==> pos == |file|
    ensures r.UnexpectedEof? <==> ParseCommand(file[pos..]) == ReadErr(true)
  {
    hide ParseArgs, Atoi, LineLen;
    ghost var s := file[pos..];
    if pos == |file| { return EndOfFile; }
    var line := file[pos..][..LineLen(file[pos..], LINE_MAX)];
    if line[0] != STAR { return Unreadable; }
    if |line| == 1 || line[1] == 0 {
      return if HitEof(line) then UnexpectedEof else Unreadable;
    }
    var argc := Atoi(line[1..]);
    if argc < 1 { return Unreadable; }
    assert s[|line|..] == file[pos + |line|..];
    var argv, next, outcome := ReadArguments(file, pos + |line|, argc);
    return match outcome case Good => Command(argv, next) case Short => UnexpectedEof case Bad => Unreadable;
  }

  method LoadAppendOnlyFile(file: Bytes, loadTruncated: bool) returns (r: LoadResult)
    ensures r == Load(file, loadTruncated)
  {
    hide ParseCommand;
    if |file| == 0 { return Empty; }
    var pos, validUpTo: nat := 0, 0;
    var cmds: seq<Command> := [];
    assert file[0..] == file;
    while true
      invariant pos <= |file| && (loadTruncated ==> validUpTo == pos)
      invariant LoadFrom(file[pos..], cmds, pos, loadTruncated) == LoadFrom(file, [], 0, loadTruncated)
      decreases |file| - pos
    {
      var found := ReadOne(file, pos);
      match found
      case EndOfFile => return Loaded(cmds, |file|);
      case UnexpectedEof => return if loadTruncated then Loaded(cmds, validUpTo) else Exit(cmds);
      case Unreadable => return Exit(cmds);
      case Command(argv, next) =>
        cmds := cmds + [argv];
        pos := next;
        if loadTruncated { validUpTo := pos; }
    }
  }
}
