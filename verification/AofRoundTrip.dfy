/** Loading what was printed (aof.c): complete files give back their commands, and a file cut
    anywhere gives back its complete commands. */
module AofRoundTrip {
  import opened Buffers
  import opened AofFormat

  ghost predicate AllRepresentable(cmds: seq<Command>) {
    forall i | 0 <= i < |cmds| :: Representable(cmds[i])
  }

  /** No command without arguments. */
  ghost predicate NoneEmpty(cmds: seq<Command>) {
    forall i | 0 <= i < |cmds| :: cmds[i] != []
  }

  // ---- complete text -----------------------------------------------------------------------

  lemma LineRead(kind: Byte, n: nat, rest: Bytes)
    requires n < UINT_LIMIT && kind != LF
    ensures var s := Line(kind, n) + rest;
            var line := s[..LineLen(s, LINE_MAX)];
            line == Line(kind, n) && s[|line|..] == rest && StrToL(line[1..]) == n
  {
    hide StrToL, LineLen;
    var head := [kind] + Decimal(n) + [CR];
    DecimalShort(n);
    LineLenNewline(head, rest, LINE_MAX);
    assert Line(kind, n) + rest == head + [LF] + rest;
    assert Line(kind, n)[1..] == Decimal(n) + [CR, LF];
    StrToLDecimal(n, [CR, LF]);
  }

  lemma ArgReadBack(a: Bytes, rest: Bytes)
    requires |a| < UINT_LIMIT
    ensures ParseArg(PrintArg(a) + rest) == Arg(a, rest)
  {
    hide StrToL, LineLen, Line;
    var after := a + [CR, LF] + rest;
    assert PrintArg(a) + rest == Line(DOLLAR, |a|) + after;
    LineRead(DOLLAR, |a|, after);
    assert Line(DOLLAR, |a|)[0] == DOLLAR by { LineKind(DOLLAR, |a|); }
    assert after[..|a|] == a && after[|a| + 2..] == rest;
  }

  lemma LineKind(kind: Byte, n: nat)
    ensures Line(kind, n) != [] && Line(kind, n)[0] == kind && |Line(kind, n)| >= 4 && IsDigit(Line(kind, n)[1])
  {
    assert Line(kind, n)[1] == Decimal(n)[0];
  }

  lemma {:induction false} ArgsReadBack(c: Command, rest: Bytes)
    requires forall i | 0 <= i < |c| :: |c[i]| < UINT_LIMIT
    ensures ParseArgs(PrintArgs(c) + rest, |c|) == Args(c, rest)
    decreases |c|
  {
    hide ParseArg, PrintArg;
    if c == [] {
      assert PrintArgs(c) + rest == rest;
    } else {
      var after := PrintArgs(c[1..]) + rest;
      assert PrintArgs(c) + rest == PrintArg(c[0]) + after;
      ArgReadBack(c[0], after);
      ArgsReadBack(c[1..], rest);
      assert [c[0]] + c[1..] == c;
    }
  }

  lemma AtoiSmall(s: Bytes, n: nat)
    requires StrToL(s) == n < INT_LIMIT
    ensures Atoi(s) == n
  {
  }

  /** A printed command is read back exactly; one without arguments is a format error. */
  lemma CommandReadBack(c: Command, rest: Bytes)
    requires Representable(c)
    ensures ParseCommand(PrintCommand(c) + rest) == if c == [] then FmtErr else Cmd(c, rest)
  {
    hide ParseArgs, Atoi, StrToL, LineLen, Line, PrintArgs;
    var after := PrintArgs(c) + rest;
    assert PrintCommand(c) + rest == Line(STAR, |c|) + after;
    LineRead(STAR, |c|, after);
    LineKind(STAR, |c|);
    AtoiSmall(Line(STAR, |c|)[1..], |c|);
    if c != [] { ArgsReadBack(c, rest); }
  }

  // ---- text that is cut off ------------------------------------------------------------------

  ghost predicate ProperPrefix(t: Bytes, s: Bytes) {
    |t| < |s| && t == s[..|t|]
  }

  /** Cutting within a line. */
  lemma LineCut(kind: Byte, n: nat, t: Bytes)
    requires n < UINT_LIMIT && kind != LF && t != [] && ProperPrefix(t, Line(kind, n))
    ensures LineLen(t, LINE_MAX) == |t| && t[0] == kind && HitEof(t)
    ensures n >= 1 && |t| >= 2 ==> t[1] != 0 && 1 <= StrToL(t[1..]) <= n
  {
    hide StrToL, LineLen;
    DecimalShort(n);
    var l := Line(kind, n);
    forall i | 0 <= i < |t| ensures t[i] != LF {
      assert t[i] == l[i];
    }
    LineLenEof(t, LINE_MAX);
    if n >= 1 && |t| >= 2 { LineCutNumber(kind, n, t); }
  }

  lemma LineCutNumber(kind: Byte, n: nat, t: Bytes)
    requires 1 <= n < UINT_LIMIT && |t| >= 2 && ProperPrefix(t, Line(kind, n))
    ensures t[1] != 0 && 1 <= StrToL(t[1..]) <= n
  {
    hide Digits, Decimal;
    var d := Decimal(n);
    var l := Line(kind, n);
    assert t[1] == l[1] == d[0] && IsDigit(t[1]);
    var k := if |t| - 1 <= |d| then |t| - 1 else |d|;
    var tail := t[1 + k..];
    assert t[1..] == d[..k] + tail;
    assert tail != [] ==> tail[0] == l[1 + |d|] == CR;
    DecimalPrefix(n, k, tail);
    assert SkipSpaces(t[1..]) == t[1..];
  }

  lemma ArgCut(a: Bytes, t: Bytes)
    requires |a| < UINT_LIMIT && ProperPrefix(t, PrintArg(a))
    ensures ParseArg(t) == ArgShort
  {
    hide StrToL, LineLen, Line;
    var l := Line(DOLLAR, |a|);
    LineKind(DOLLAR, |a|);
    if t == [] {
    } else if |t| < |l| {
      assert PrintArg(a)[..|t|] == l[..|t|];
      LineCut(DOLLAR, |a|, t);
    } else {
      var rest := t[|l|..];
      assert PrintArg(a)[..|l|] == l;
      assert t[..|l|] == PrintArg(a)[..|t|][..|l|];
      assert t == l + rest;
      ArgTooShort(a, rest);
    }
  }

  lemma ArgTooShort(a: Bytes, rest: Bytes)
    requires |rest| < |a| + 2 && |a| < UINT_LIMIT
    ensures ParseArg(Line(DOLLAR, |a|) + rest) == ArgShort
  {
    hide StrToL, LineLen, Line;
    LineKind(DOLLAR, |a|);
    LineRead(DOLLAR, |a|, rest);
  }

  lemma {:induction false} ArgsCut(c: Command, t: Bytes)
    requires (forall i | 0 <= i < |c| :: |c[i]| < UINT_LIMIT) && ProperPrefix(t, PrintArgs(c))
    ensures ParseArgs(t, |c|) == ArgsShort
    decreases |c|
  {
    hide ParseArg, PrintArg;
    var p := PrintArg(c[0]);
    if |t| < |p| {
      assert PrintArgs(c)[..|t|] == p[..|t|];
      ArgCut(c[0], t);
    } else {
      var rest := t[|p|..];
      assert PrintArgs(c)[..|p|] == p && t[..|p|] == PrintArgs(c)[..|t|][..|p|];
      assert t == p + rest;
      ArgReadBack(c[0], rest);
      assert rest == PrintArgs(c)[|p|..][..|rest|];
      assert PrintArgs(c)[|p|..] == PrintArgs(c[1..]);
      ArgsCut(c[1..], rest);
    }
  }

  /** A command cut anywhere is an unexpected end of file, never a wrong command or a
      format error. */
  lemma CommandCut(c: Command, t: Bytes)
    requires Representable(c) && c != [] && t != [] && ProperPrefix(t, PrintCommand(c))
    ensures ParseCommand(t) == ReadErr(true)
  {
    hide ParseArgs, Atoi, StrToL, LineLen, Line, PrintArgs;
    var l := Line(STAR, |c|);
    LineKind(STAR, |c|);
    if |t| < |l| {
      assert PrintCommand(c)[..|t|] == l[..|t|];
      LineCut(STAR, |c|, t);
      if |t| > 1 {
        AtoiSmall(t[1..], StrToL(t[1..]));
        NoArgs(StrToL(t[1..]));
        assert t[..|t|] == t && t[|t|..] == [];
      }
    } else {
      var rest := t[|l|..];
      assert PrintCommand(c)[..|l|] == l && t[..|l|] == PrintCommand(c)[..|t|][..|l|];
      assert t == l + rest;
      assert rest == PrintCommand(c)[|l|..][..|rest|];
      assert PrintCommand(c)[|l|..] == PrintArgs(c);
      LineRead(STAR, |c|, rest);
      AtoiSmall(l[1..], |c|);
      ArgsCut(c, rest);
    }
  }

  lemma NoArgs(n: nat)
    requires n >= 1
    ensures ParseArgs([], n) == ArgsShort
  {
  }

  // ---- whole files ---------------------------------------------------------------------------

  lemma CommandNotEmpty(c: Command)
    ensures |PrintCommand(c)| >= 4
  {
    LineKind(STAR, |c|);
  }

  /** Printed commands followed by a tail, in which reading goes on. */
  lemma {:induction false} LoadPrinted(cmds: seq<Command>, tail: Bytes, prior: seq<Command>, valid: nat, flag: bool)
    requires AllRepresentable(cmds) && NoneEmpty(cmds)
    ensures LoadFrom(Print(cmds) + tail, prior, valid, flag)
            == LoadFrom(tail, prior + cmds, valid + |Print(cmds)|, flag)
    decreases |cmds|
  {
    hide ParseCommand, PrintCommand;
    if cmds == [] {
      assert Print(cmds) + tail == tail && prior + cmds == prior;
    } else {
      var c, more := cmds[0], cmds[1..];
      var rest := Print(more) + tail;
      assert Print(cmds) + tail == PrintCommand(c) + rest;
      CommandReadBack(c, rest);
      LoadPrinted(more, tail, prior + [c], valid + |PrintCommand(c)|, flag);
      assert prior + [c] + more == prior + cmds;
    }
  }

  lemma {:induction false} PrintAppend(a: seq<Command>, b: seq<Command>)
    ensures Print(a + b) == Print(a) + Print(b)
    decreases |a|
  {
    if a == [] {
      assert a + b == b;
    } else {
      assert (a + b)[0] == a[0] && (a + b)[1..] == a[1..] + b;
      PrintAppend(a[1..], b);
    }
  }

  lemma PrintOne(c: Command)
    ensures Print([c]) == PrintCommand(c)
  {
    var none: seq<Command> := [];
    assert [c][1..] == none;
  }

  /** Position of the first command without arguments. */
  ghost predicate FirstEmpty(cmds: seq<Command>, k: nat) {
    k < |cmds| && cmds[k] == [] && NoneEmpty(cmds[..k])
  }

  lemma {:induction false} FindEmpty(cmds: seq<Command>) returns (k: nat)
    requires !NoneEmpty(cmds)
    ensures FirstEmpty(cmds, k)
    decreases |cmds|
  {
    if cmds[0] == [] { return 0; }
    k := FindEmpty(cmds[1..]);
    k := k + 1;
    forall i | 0 <= i < k ensures cmds[..k][i] != [] {
      assert i > 0 ==> cmds[..k][i] == cmds[1..][..k - 1][i - 1];
    }
  }

  /** A format error stops loading after the commands before the empty one. */
  lemma LoadStopsAtEmpty(cmds: seq<Command>, k: nat, flag: bool)
    requires AllRepresentable(cmds) && FirstEmpty(cmds, k)
    ensures Load(Print(cmds), flag) == Exit(cmds[..k])
  {
    hide ParseCommand, PrintCommand, Representable;
    var tail := Print(cmds[k + 1..]);
    assert cmds == cmds[..k] + ([cmds[k]] + cmds[k + 1..]);
    PrintAppend(cmds[..k], [cmds[k]] + cmds[k + 1..]);
    assert ([cmds[k]] + cmds[k + 1..])[1..] == cmds[k + 1..];
    LoadPrinted(cmds[..k], PrintCommand([]) + tail, [], 0, flag);
    assert Representable(cmds[k]);
    CommandReadBack([], tail);
    CommandNotEmpty([]);
    assert [] + cmds[..k] == cmds[..k];
  }

  /** Loading a printed log gives back exactly its commands, if and only if each of them has
      at least one argument. An empty log is the zero-length file. */
  lemma LoadRoundTrip(cmds: seq<Command>, flag: bool)
    requires AllRepresentable(cmds) && cmds != []
    ensures Load(Print(cmds), flag) == Loaded(cmds, |Print(cmds)|) <==> NoneEmpty(cmds)
  {
    hide ParseCommand, PrintCommand, Representable;
    if NoneEmpty(cmds) {
      LoadPrinted(cmds, [], [], 0, flag);
      CommandNotEmpty(cmds[0]);
      assert Print(cmds) + [] == Print(cmds) && [] + cmds == cmds;
      EndOfFile();
    } else {
      var k := FindEmpty(cmds);
      LoadStopsAtEmpty(cmds, k, flag);
    }
  }

  lemma EndOfFile()
    ensures ParseCommand([]) == End
  {
  }

  /** k commands are complete in the first p bytes. */
  ghost predicate Complete(cmds: seq<Command>, p: nat, k: nat) {
    && k <= |cmds| && |Print(cmds[..k])| <= p
    && (k < |cmds| ==> p < |Print(cmds[..k + 1])|)
  }

  /** Every cut leaves some number of complete commands. */
  lemma {:induction false} CompleteExists(cmds: seq<Command>, p: nat) returns (k: nat)
    requires p <= |Print(cmds)|
    ensures Complete(cmds, p, k)
    decreases |cmds|
  {
    assert cmds[..|cmds|] == cmds;
    if cmds == [] {
      k := 0;
    } else if p < |PrintCommand(cmds[0])| {
      assert cmds[..0] == [];
      PrintOne(cmds[0]);
      assert cmds[..1] == [cmds[0]];
      k := 0;
    } else {
      k := CompleteExists(cmds[1..], p - |PrintCommand(cmds[0])|);
      FirstOfPrefix(cmds, k);
      if k < |cmds| - 1 { FirstOfPrefix(cmds, k + 1); }
      k := k + 1;
    }
  }

  lemma FirstOfPrefix(cmds: seq<Command>, k: nat)
    requires k < |cmds|
    ensures Print(cmds[..k + 1]) == PrintCommand(cmds[0]) + Print(cmds[1..][..k])
  {
    assert cmds[..k + 1][1..] == cmds[1..][..k];
  }

  /** The cut text: whole commands, then a proper part of the next. */
  lemma CutText(cmds: seq<Command>, p: nat, k: nat)
    requires p <= |Print(cmds)| && Complete(cmds, p, k)
    ensures var whole := Print(cmds[..k]);
            var tail := Print(cmds)[..p][|whole|..];
            && Print(cmds)[..p] == whole + tail
            && (k < |cmds| ==> ProperPrefix(tail, PrintCommand(cmds[k])))
            && (k == |cmds| ==> tail == [])
  {
    hide PrintCommand, Print;
    var whole := Print(cmds[..k]);
    assert cmds == cmds[..k] + cmds[k..];
    PrintAppend(cmds[..k], cmds[k..]);
    CutOf(whole, Print(cmds[k..]), p);
    if k < |cmds| {
      assert cmds[..k + 1] == cmds[..k] + [cmds[k]];
      PrintOne(cmds[k]);
      PrintAppend(cmds[..k], [cmds[k]]);
      assert cmds[k..] == [cmds[k]] + cmds[k + 1..];
      PrintAppend([cmds[k]], cmds[k + 1..]);
      PrefixOf(PrintCommand(cmds[k]), Print(cmds[k + 1..]), p - |whole|);
    } else {
      assert cmds[..k] == cmds;
    }
  }

  lemma CutOf(a: Bytes, b: Bytes, p: nat)
    requires |a| <= p <= |a| + |b|
    ensures (a + b)[..p] == a + b[..p - |a|] && (a + b)[..p][|a|..] == b[..p - |a|]
  {
  }

  lemma PrefixOf(a: Bytes, b: Bytes, n: nat)
    requires n < |a|
    ensures ProperPrefix((a + b)[..n], a)
  {
  }

  /** A log cut after any number p > 0 of bytes: with aof-load-truncated exactly the complete
      commands are executed and the file is cut back to their end. Without it the same holds if
      the cut is between commands, and otherwise loading exits. */
  lemma TruncatedLoad(cmds: seq<Command>, p: nat, k: nat, flag: bool)
    requires AllRepresentable(cmds) && NoneEmpty(cmds) && 0 < p <= |Print(cmds)| && Complete(cmds, p, k)
    ensures Load(Print(cmds)[..p], flag)
            == if flag || p == |Print(cmds[..k])| then Loaded(cmds[..k], |Print(cmds[..k])|) else Exit(cmds[..k])
  {
    hide ParseCommand, PrintCommand, Representable, Print;
    CutText(cmds, p, k);
    var whole := Print(cmds[..k]);
    var tail := Print(cmds)[..p][|whole|..];
    LoadPrinted(cmds[..k], tail, [], 0, flag);
    assert [] + cmds[..k] == cmds[..k];
    EndOfFile();
    if tail != [] {
      assert Representable(cmds[k]);
      CommandCut(cmds[k], tail);
    }
  }
}
