/** Rewriting the append only file from the data set (aof.c): collections are emitted as
    variadic commands of at most a fixed number of items. */
module AofRewrite {
  import opened Basics
  import opened Buffers
  import opened AofFormat
  import opened AofRoundTrip
  import opened AofReplay

  /** REDIS_AOF_REWRITE_ITEMS_PER_CMD */
  const ITEMS_PER_CMD: nat := 64

  // ---- chunks ----------------------------------------------------------------------------------

  /** The commands that rebuild a collection, with at most K items each. */
  function Chunks(k: Kind, key: Bytes, rows: seq<seq<Bytes>>, K: nat): seq<Command>
    requires K >= 1
    decreases |rows|
  {
    if rows == [] then []
    else
      var n := Min(K, |rows|);
      [AddCommand(k, key, rows[..n])] + Chunks(k, key, rows[n..], K)
  }

  /** rioWriteBulkString */
  method WriteBulk(dst: Bytes, a: Bytes) returns (r: Bytes)
    ensures r == dst + PrintArg(a)
  {
    r := dst + ([DOLLAR] + Decimal(|a|) + [CR, LF]);
    r := r + a;
    r := r + [CR, LF];
  }

  lemma {:induction false} PrintArgsAppend(a: Command, b: Command)
    ensures PrintArgs(a + b) == PrintArgs(a) + PrintArgs(b)
    decreases |a|
  {
    hide PrintArg;
    if a == [] {
      assert a + b == b;
    } else {
      assert (a + b)[0] == a[0] && (a + b)[1..] == a[1..] + b;
      PrintArgsAppend(a[1..], b);
    }
  }

  method WriteRow(dst: Bytes, row: seq<Bytes>) returns (r: Bytes)
    ensures r == dst + PrintArgs(row)
  {
    hide PrintArg;
    r := dst;
    for i := 0 to |row|
      invariant r + PrintArgs(row[i..]) == dst + PrintArgs(row)
    {
      assert row[i..][0] == row[i] && row[i..][1..] == row[i + 1..];
      r := WriteBulk(r, row[i]);
    }
  }

  /** What a partly written collection still lacks: the rest of the current command, of rem
      items, then further commands. */
  function Lacking(k: Kind, key: Bytes, rows: seq<seq<Bytes>>, rem: nat, K: nat): Bytes
    requires K >= 1 && rem <= |rows|
  {
    PrintArgs(Flatten(rows[..rem])) + Print(Chunks(k, key, rows[rem..], K))
  }

  lemma LackingHeader(k: Kind, key: Bytes, rows: seq<seq<Bytes>>, K: nat)
    requires K >= 1 && rows != [] && forall i | 0 <= i < |rows| :: |rows[i]| == Width(k)
    ensures var n := Min(K, |rows|);
            Lacking(k, key, rows, 0, K)
            == Line(STAR, 2 + if Width(k) == 1 then n else n * 2) + PrintArg(KindName(k)) + PrintArg(key)
               + Lacking(k, key, rows, n, K)
  {
    hide Line, PrintArg, KindName, PrintCommand, AddCommand, Flatten, Chunks, Print, PrintArgs;
    var n := Min(K, |rows|);
    var c := AddCommand(k, key, rows[..n]);
    FirstChunk(k, key, rows, K);
    PrintAppend([c], Chunks(k, key, rows[n..], K));
    PrintOne(c);
    AddCommandText(k, key, rows[..n]);
    LackingStart(k, key, rows, K);
  }

  lemma FirstChunk(k: Kind, key: Bytes, rows: seq<seq<Bytes>>, K: nat)
    requires K >= 1 && rows != []
    ensures var n := Min(K, |rows|);
            Chunks(k, key, rows, K) == [AddCommand(k, key, rows[..n])] + Chunks(k, key, rows[n..], K)
  {
  }

  lemma AddCommandText(k: Kind, key: Bytes, rows: seq<seq<Bytes>>)
    requires forall i | 0 <= i < |rows| :: |rows[i]| == Width(k)
    ensures PrintCommand(AddCommand(k, key, rows))
            == Line(STAR, 2 + if Width(k) == 1 then |rows| else |rows| * 2) + PrintArg(KindName(k)) + PrintArg(key)
               + PrintArgs(Flatten(rows))
  {
    hide Line, PrintArg, KindName, Rows, PrintArgs;
    RowsFlatten(rows, Width(k));
    assert AddCommand(k, key, rows) == [KindName(k)] + ([key] + Flatten(rows));
    PrintArgsAppend([KindName(k)], [key] + Flatten(rows));
    PrintArgsAppend([key], Flatten(rows));
    PrintSingle(key);
    PrintSingle(KindName(k));
  }

  lemma PrintSingle(a: Bytes)
    ensures PrintArgs([a]) == PrintArg(a)
  {
    var none: Command := [];
    assert [a][1..] == none;
  }

  lemma LackingRow(k: Kind, key: Bytes, rows: seq<seq<Bytes>>, rem: nat, K: nat)
    requires K >= 1 && 1 <= rem <= |rows|
    ensures Lacking(k, key, rows, rem, K) == PrintArgs(rows[0]) + Lacking(k, key, rows[1..], rem - 1, K)
  {
    hide PrintArgs;
    assert rows[..rem][0] == rows[0] && rows[..rem][1..] == rows[1..][..rem - 1];
    PrintArgsAppend(rows[0], Flatten(rows[1..][..rem - 1]));
    assert rows[1..][rem - 1..] == rows[rem..];
  }

  /** The loop of rewriteListObject, rewriteSetObject, rewriteSortedSetObject and
      rewriteHashObject: count runs up to K items, items counts what is left. */
  method WriteItems(dst: Bytes, k: Kind, key: Bytes, rows: seq<seq<Bytes>>, K: nat) returns (r: Bytes)
    requires K >= 1 && forall i | 0 <= i < |rows| :: |rows[i]| == Width(k)
    ensures r == dst + Print(Chunks(k, key, rows, K))
  {
    hide Print, Chunks, PrintArgs, PrintArg, Lacking, Decimal, KindName;
    LackingStart(k, key, rows, K);
    r := dst;
    var count, items: nat := 0, |rows|;
    ghost var rem := 0;
    for i := 0 to |rows|
      invariant items == |rows| - i && count < K
      invariant rem == if count == 0 then 0 else Min(K - count, items)
      invariant r + Lacking(k, key, rows[i..], rem, K) == dst + Print(Chunks(k, key, rows, K))
    {
      if count == 0 {
        LackingHeader(k, key, rows[i..], K);
        var cmdItems := if items > K then K else items;
        rem := cmdItems;
        r := r + ([STAR] + Decimal(2 + if Width(k) == 1 then cmdItems else cmdItems * 2) + [CR, LF]);
        r := WriteBulk(r, KindName(k));
        r := WriteBulk(r, key);
      }
      LackingRow(k, key, rows[i..], rem, K);
      assert rows[i..][0] == rows[i] && rows[i..][1..] == rows[i + 1..];
      r := WriteRow(r, rows[i]);
      rem := rem - 1;
      count := count + 1;
      if count == K { count := 0; }
      items := items - 1;
    }
    LackingEnd(k, key, rows[|rows|..], K);
  }

  lemma LackingStart(k: Kind, key: Bytes, rows: seq<seq<Bytes>>, K: nat)
    requires K >= 1
    ensures rows[0..] == rows && Lacking(k, key, rows[0..], 0, K) == Print(Chunks(k, key, rows, K))
  {
    assert rows[0..] == rows && rows[..0] == [];
    assert PrintArgs([]) == [];
  }

  lemma LackingEnd(k: Kind, key: Bytes, rows: seq<seq<Bytes>>, K: nat)
    requires K >= 1 && rows == []
    ensures Lacking(k, key, rows, 0, K) == []
  {
  }

  /** An emitted command: the name, the key, and one to K whole items. */
  ghost predicate ChunkOk(c: Command, k: Kind, key: Bytes, K: nat) {
    && |c| >= 2 && c[0] == KindName(k) && c[1] == key && (|c| - 2) % Width(k) == 0
    && 2 + Width(k) <= |c| <= 2 + if Width(k) == 1 then K else 2 * K
  }

  ghost predicate Small(args: seq<Bytes>) {
    forall i | 0 <= i < |args| :: |args[i]| < UINT_LIMIT
  }

  ghost predicate SmallRows(rows: seq<seq<Bytes>>) {
    forall i | 0 <= i < |rows| :: Small(rows[i])
  }

  lemma {:induction false} FlattenSmall(rows: seq<seq<Bytes>>)
    requires SmallRows(rows)
    ensures Small(Flatten(rows))
    decreases |rows|
  {
    if rows != [] { FlattenSmall(rows[1..]); }
  }

  /** No command carries more than K items, and items are never cut. */
  lemma {:induction false} ChunkSizes(k: Kind, key: Bytes, rows: seq<seq<Bytes>>, K: nat)
    requires K >= 1 && forall i | 0 <= i < |rows| :: |rows[i]| == Width(k)
    ensures forall c | c in Chunks(k, key, rows, K) :: ChunkOk(c, k, key, K)
    ensures SmallRows(rows) && |key| < UINT_LIMIT ==> forall c | c in Chunks(k, key, rows, K) :: Small(c)
    decreases |rows|
  {
    hide KindName, Rows;
    if rows != [] {
      var n := Min(K, |rows|);
      ChunkSizes(k, key, rows[n..], K);
      RowsFlatten(rows[..n], Width(k));
      KindNames(k, if k.Rpush? then Sadd else Rpush);
      if SmallRows(rows) && |key| < UINT_LIMIT {
        FlattenSmall(rows[..n]);
        assert Small(AddCommand(k, key, rows[..n])) by { NameSmall(k); }
      }
    }
  }

  /** All commands but the last carry K items. */
  lemma {:induction false} FullChunks(k: Kind, key: Bytes, rows: seq<seq<Bytes>>, K: nat, i: nat)
    requires K >= 1 && (forall j | 0 <= j < |rows| :: |rows[j]| == Width(k)) && i + 1 < |Chunks(k, key, rows, K)|
    ensures |Chunks(k, key, rows, K)[i]| == 2 + if Width(k) == 1 then K else 2 * K
    decreases |rows|
  {
    hide KindName, Rows;
    var n := Min(K, |rows|);
    if i > 0 {
      FullChunks(k, key, rows[n..], K, i - 1);
    } else {
      RowsFlatten(rows[..n], Width(k));
    }
  }

  lemma NameSmall(k: Kind)
    ensures |KindName(k)| < UINT_LIMIT
  {
  }

  // ---- replaying chunks ----------------------------------------------------------------------------

  /** However the items are cut into commands, replaying them adds all items in order. */
  lemma {:induction false} ReplayChunks<Score>(env: Env<Score>, cl: Client<Score>, k: Kind, key: Bytes, rows: seq<seq<Bytes>>, K: nat)
    requires K >= 1 && cl.db < |cl.data| && RowsOk(env, k, rows)
    requires key in cl.data[cl.db] ==> HasKind(cl.data[cl.db][key], k)
    ensures var db := cl.data[cl.db];
            var was := if key in db then db[key] else EmptyValue(k);
            Replay(env, cl, Chunks(k, key, rows, K))
            == if rows == [] then cl else cl.(data := cl.data[cl.db := db[key := AddRows(env, k, was, rows)]])
    decreases |rows|
  {
    hide AddCommand, AddRows, Run, Replay, RowsOk;
    ReplayNothing(env, cl);
    if rows != [] {
      var n := Min(K, |rows|);
      var c := AddCommand(k, key, rows[..n]);
      var more := Chunks(k, key, rows[n..], K);
      var db := cl.data[cl.db];
      var was := if key in db then db[key] else EmptyValue(k);
      RowsSplit(env, k, rows, n);
      var mid := cl.(data := cl.data[cl.db := db[key := AddRows(env, k, was, rows[..n])]]);
      ReplayAdd(env, cl, k, key, rows[..n]);
      ReplayAppend(env, cl, [c], more);
      ReplayChunks(env, mid, k, key, rows[n..], K);
      AddRowsAppend(env, k, was, rows[..n], rows[n..]);
      assert rows[..n] + rows[n..] == rows && (n == |rows| ==> rows[..n] == rows);
      var v := AddRows(env, k, was, rows);
      assert mid.data[mid.db][key := v] == db[key := v];
      assert mid.data[mid.db := db[key := v]] == cl.data[cl.db := db[key := v]];
    }
  }

  lemma ReplayNothing<Score>(env: Env<Score>, cl: Client<Score>)
    ensures Replay(env, cl, []) == cl
  {
  }

  lemma ReplayAdd<Score>(env: Env<Score>, cl: Client<Score>, k: Kind, key: Bytes, rows: seq<seq<Bytes>>)
    requires cl.db < |cl.data| && rows != [] && RowsOk(env, k, rows)
    requires key in cl.data[cl.db] ==> HasKind(cl.data[cl.db][key], k)
    ensures var db := cl.data[cl.db];
            var was := if key in db then db[key] else EmptyValue(k);
            Replay(env, cl, [AddCommand(k, key, rows)])
            == cl.(data := cl.data[cl.db := db[key := AddRows(env, k, was, rows)]])
  {
    hide AddCommand, AddRows, Exec;
    ExecAddCommand(env, cl.data, cl.db, k, key, rows);
    ReplayOne(env, cl, AddCommand(k, key, rows));
  }

  lemma RowsSplit<Score>(env: Env<Score>, k: Kind, rows: seq<seq<Bytes>>, n: nat)
    requires RowsOk(env, k, rows) && n <= |rows|
    ensures RowsOk(env, k, rows[..n]) && RowsOk(env, k, rows[n..])
  {
  }

  // ---- the items of a stored object ----------------------------------------------------------------

  /** A value in the order in which its encoding is walked. */
  datatype Stored<Score> =
    | StoredStr(text: Bytes)
    | StoredList(items: seq<Bytes>)
    | StoredSet(members: seq<Bytes>)
    | StoredZSet(scores: seq<(Bytes, Score)>)
    | StoredHash(fields: seq<(Bytes, Bytes)>)

  /** Pairs of a member and its score, or a field and its value, as a map. */
  function PairMap<T>(s: seq<(Bytes, T)>): map<Bytes, T> {
    if s == [] then map[] else PairMap(s[..|s| - 1])[s[|s| - 1].0 := s[|s| - 1].1]
  }

  function Meaning<Score>(o: Stored<Score>): Value<Score> {
    match o
    case StoredStr(t) => Str(t)
    case StoredList(s) => List(s)
    case StoredSet(s) => Set(set m | m in s)
    case StoredZSet(s) => ZSet(PairMap(s))
    case StoredHash(s) => Hash(PairMap(s))
  }

  function KindOf<Score>(o: Stored<Score>): Kind
    requires !o.StoredStr?
  {
    match o
    case StoredList(_) => Rpush
    case StoredSet(_) => Sadd
    case StoredZSet(_) => Zadd
    case StoredHash(_) => Hmset
  }

  function ItemRows<Score>(env: Env<Score>, o: Stored<Score>): (rows: seq<seq<Bytes>>)
    requires !o.StoredStr?
    ensures forall i | 0 <= i < |rows| :: |rows[i]| == Width(KindOf(o))
  {
    match o
    case StoredList(s) => seq(|s|, i requires 0 <= i < |s| => [s[i]])
    case StoredSet(s) => seq(|s|, i requires 0 <= i < |s| => [s[i]])
    case StoredZSet(s) => seq(|s|, i requires 0 <= i < |s| => [env.show(s[i].1), s[i].0])
    case StoredHash(s) => seq(|s|, i requires 0 <= i < |s| => [s[i].0, s[i].1])
  }

  /** The order of the arguments within an item: score before member, field before value. */
  lemma RowOrder<Score>(env: Env<Score>, key: Bytes, a: Bytes, s: Score, v: Bytes, K: nat)
    requires K >= 1
    ensures KeyCommands(env, key, StoredStr(v), K) == [[SET, key, v]]
    ensures KeyCommands(env, key, StoredList([a, v]), K + 1) == [[RPUSH, key, a, v]]
    ensures KeyCommands(env, key, StoredSet([a]), K) == [[SADD, key, a]]
    ensures KeyCommands(env, key, StoredZSet([(a, s)]), K) == [[ZADD, key, env.show(s), a]]
    ensures KeyCommands(env, key, StoredHash([(a, v)]), K) == [[HMSET, key, a, v]]
  {
    assert ItemRows<Score>(env, StoredList([a, v])) == [[a]] + [[v]];
    assert ItemRows<Score>(env, StoredSet([a])) == [[a]];
    assert ItemRows(env, StoredZSet([(a, s)])) == [[env.show(s), a]];
    assert ItemRows<Score>(env, StoredHash([(a, v)])) == [[a, v]];
    OneChunk(Rpush, key, [[a]] + [[v]], K + 1);
    FlattenCons([a], [[v]]);
    FlattenCons([v], []);
    OneChunk(Sadd, key, [[a]], K);
    FlattenCons([a], []);
    OneChunk(Zadd, key, [[env.show(s), a]], K);
    FlattenCons([env.show(s), a], []);
    OneChunk(Hmset, key, [[a, v]], K);
    FlattenCons([a, v], []);
    assert [RPUSH, key] + ([a] + [v]) == [RPUSH, key, a, v] && [SADD, key] + [a] == [SADD, key, a];
    assert [ZADD, key] + [env.show(s), a] == [ZADD, key, env.show(s), a] && [HMSET, key] + [a, v] == [HMSET, key, a, v];
  }

  lemma FlattenCons(row: seq<Bytes>, rows: seq<seq<Bytes>>)
    ensures Flatten([row] + rows) == row + Flatten(rows) && (rows == [] ==> Flatten([row]) == row)
  {
    assert ([row] + rows)[1..] == rows;
    if rows == [] { assert [row] + rows == [row]; }
  }

  lemma OneChunk(k: Kind, key: Bytes, rows: seq<seq<Bytes>>, K: nat)
    requires rows != [] && |rows| <= K
    ensures Chunks(k, key, rows, K) == [[KindName(k), key] + Flatten(rows)]
  {
    assert rows[..|rows|] == rows;
  }

  lemma ItemsReadable<Score(!new)>(env: Env<Score>, o: Stored<Score>)
    requires Sound(env) && !o.StoredStr?
    ensures RowsOk(env, KindOf(o), ItemRows(env, o))
  {
    if o.StoredZSet? {
      var rows := ItemRows(env, o);
      forall i | 0 <= i < |rows| ensures env.parse(rows[i][0]).Some? {
        assert rows[i][0] == env.show(o.scores[i].1);
      }
    }
  }

  function Front<T>(s: seq<T>): seq<T>
    requires s != []
  {
    s[..|s| - 1]
  }

  /** A collection without its last item. */
  function Shorter<Score>(env: Env<Score>, o: Stored<Score>): (r: Stored<Score>)
    requires !o.StoredStr? && ItemRows(env, o) != []
    ensures !r.StoredStr? && KindOf(r) == KindOf(o)
    ensures ItemRows(env, r) == Front(ItemRows(env, o))
  {
    match o
    case StoredList(s) => StoredList(Front(s))
    case StoredSet(s) => StoredSet(Front(s))
    case StoredZSet(s) => StoredZSet(Front(s))
    case StoredHash(s) => StoredHash(Front(s))
  }

  lemma SetFront(s: seq<Bytes>)
    requires s != []
    ensures (set m | m in s) == (set m | m in Front(s)) + {s[|s| - 1]}
  {
    assert s == Front(s) + [s[|s| - 1]];
  }

  lemma LastItem<Score(!new)>(env: Env<Score>, o: Stored<Score>)
    requires Sound(env) && !o.StoredStr? && ItemRows(env, o) != []
    ensures var rows := ItemRows(env, o);
            var last := rows[|rows| - 1];
            && RowsOk(env, KindOf(o), [last]) && HasKind(Meaning(Shorter(env, o)), KindOf(o))
            && AddRow(env, KindOf(o), Meaning(Shorter(env, o)), last) == Meaning(o)
  {
    ItemsReadable(env, o);
    if o.StoredSet? { SetFront(o.members); }
  }

  /** Adding the items of a collection to an empty one gives the collection. */
  lemma {:induction false} ItemsMeaning<Score(!new)>(env: Env<Score>, o: Stored<Score>)
    requires Sound(env) && !o.StoredStr?
    ensures RowsOk(env, KindOf(o), ItemRows(env, o))
    ensures AddRows(env, KindOf(o), EmptyValue(KindOf(o)), ItemRows(env, o)) == Meaning(o)
    decreases |ItemRows(env, o)|
  {
    ItemsReadable(env, o);
    if ItemRows(env, o) != [] {
      hide Meaning, AddRow, Sound, Readable, Shorter;
      ItemsMeaning(env, Shorter(env, o));
      LastItem(env, o);
    }
  }

  // ---- the whole data set ------------------------------------------------------------------------

  /** Keys with their objects, in the order of the database's dictionary. */
  type StoredDb<Score> = seq<(Bytes, Stored<Score>)>

  /** rewriteListObject and its siblings never meet an empty collection: a collection that
      loses its last item is deleted. */
  ghost predicate Holds<Score>(env: Env<Score>, sdb: StoredDb<Score>, db: Db<Score>) {
    && db.Keys == KeySet(sdb) && DistinctKeys(sdb)
    && forall i | 0 <= i < |sdb| ::
         && sdb[i].0 in db && db[sdb[i].0] == Meaning(sdb[i].1)
         && (!sdb[i].1.StoredStr? ==> ItemRows(env, sdb[i].1) != [])
  }

  function KeyCommands<Score>(env: Env<Score>, key: Bytes, o: Stored<Score>, K: nat): seq<Command>
    requires K >= 1
  {
    if o.StoredStr? then [[SET, key, o.text]] else Chunks(KindOf(o), key, ItemRows(env, o), K)
  }

  function DbCommands<Score>(env: Env<Score>, sdb: StoredDb<Score>, K: nat): seq<Command>
    requires K >= 1
  {
    if sdb == [] then [] else DbCommands(env, Front(sdb), K) + KeyCommands(env, sdb[|sdb| - 1].0, sdb[|sdb| - 1].1, K)
  }

  /** Databases without keys are skipped. */
  function Snapshot<Score>(env: Env<Score>, sdbs: seq<StoredDb<Score>>, K: nat): seq<Command>
    requires K >= 1
  {
    if sdbs == [] then []
    else
      var n := |sdbs| - 1;
      Snapshot(env, Front(sdbs), K)
      + if sdbs[n] == [] then [] else [SelectCommand(n)] + DbCommands(env, sdbs[n], K)
  }

  /** The writing loops of rewriteAppendOnlyFile. */
  method WriteSnapshot<Score>(env: Env<Score>, sdbs: seq<StoredDb<Score>>) returns (r: Bytes)
    ensures r == Print(Snapshot(env, sdbs, 64))
  {
    hide PrintCommand, DbCommands;
    r := [];
    for j := 0 to |sdbs|
      invariant r == Print(Snapshot(env, sdbs[..j], ITEMS_PER_CMD))
    {
      assert sdbs[..j + 1][j] == sdbs[j] && Front(sdbs[..j + 1]) == sdbs[..j];
      ghost var sofar := Snapshot(env, sdbs[..j], ITEMS_PER_CMD);
      assert sofar + [] == sofar;
      if |sdbs[j]| == 0 { continue; }
      r := CatCommand(r, [SELECT, Decimal(j)]);
      r := WriteDb(r, env, sdbs[j]);
      PrintOne(SelectCommand(j));
      PrintAppend([SelectCommand(j)], DbCommands(env, sdbs[j], ITEMS_PER_CMD));
      PrintAppend(sofar, [SelectCommand(j)] + DbCommands(env, sdbs[j], ITEMS_PER_CMD));
    }
    assert sdbs[..|sdbs|] == sdbs;
  }

  lemma PrintNone()
    ensures Print([]) == []
  {
  }

  method WriteDb<Score>(dst: Bytes, env: Env<Score>, sdb: StoredDb<Score>) returns (r: Bytes)
    ensures r == dst + Print(DbCommands(env, sdb, ITEMS_PER_CMD))
  {
    hide Print, KeyCommands;
    PrintNone();
    r := dst;
    for i := 0 to |sdb|
      invariant r == dst + Print(DbCommands(env, sdb[..i], ITEMS_PER_CMD))
    {
      assert sdb[..i + 1][i] == sdb[i] && Front(sdb[..i + 1]) == sdb[..i];
      r := WriteKey(r, env, sdb[i].0, sdb[i].1);
      PrintAppend(DbCommands(env, sdb[..i], ITEMS_PER_CMD), KeyCommands(env, sdb[i].0, sdb[i].1, ITEMS_PER_CMD));
    }
    assert sdb[..|sdb|] == sdb;
  }

  method WriteKey<Score>(dst: Bytes, env: Env<Score>, key: Bytes, o: Stored<Score>) returns (r: Bytes)
    ensures r == dst + Print(KeyCommands(env, key, o, ITEMS_PER_CMD))
  {
    hide Print, Chunks, PrintCommand;
    if o.StoredStr? {
      r := CatCommand(dst, [SET, key, o.text]);
      PrintOne([SET, key, o.text]);
    } else {
      r := WriteItems(dst, KindOf(o), key, ItemRows(env, o), ITEMS_PER_CMD);
    }
  }

  // ---- lengths ---------------------------------------------------------------------------------------

  /** Keys and values are within the length limit of strings. */
  ghost predicate Fits<Score>(env: Env<Score>, key: Bytes, o: Stored<Score>) {
    |key| < UINT_LIMIT && if o.StoredStr? then |o.text| < UINT_LIMIT else SmallRows(ItemRows(env, o))
  }

  ghost predicate AllFit<Score>(env: Env<Score>, sdbs: seq<StoredDb<Score>>) {
    forall n, i | 0 <= n < |sdbs| && 0 <= i < |sdbs[n]| :: Fits(env, sdbs[n][i].0, sdbs[n][i].1)
  }

  lemma KeyFits<Score>(env: Env<Score>, key: Bytes, o: Stored<Score>, K: nat)
    requires Fits(env, key, o) && 1 <= K && 2 + 2 * K < INT_LIMIT
    ensures forall c | c in KeyCommands(env, key, o, K) :: c != [] && Representable(c)
  {
    hide Chunks, ItemRows;
    if !o.StoredStr? {
      var k, rows := KindOf(o), ItemRows(env, o);
      ChunkSizes(k, key, rows, K);
      forall c | c in Chunks(k, key, rows, K) ensures c != [] && Representable(c) {
        assert ChunkOk(c, k, key, K) && Small(c);
      }
    }
  }

  lemma SelectFits(n: nat)
    requires n < UINT_LIMIT
    ensures Representable(SelectCommand(n))
  {
    DecimalShort(n);
  }

  lemma {:induction false} DbFits<Score>(env: Env<Score>, sdb: StoredDb<Score>, K: nat)
    requires 1 <= K && 2 + 2 * K < INT_LIMIT && forall i | 0 <= i < |sdb| :: Fits(env, sdb[i].0, sdb[i].1)
    ensures forall c | c in DbCommands(env, sdb, K) :: c != [] && Representable(c)
    decreases |sdb|
  {
    hide KeyCommands, Fits, Representable;
    if sdb != [] {
      DbFits(env, Front(sdb), K);
      KeyFits(env, sdb[|sdb| - 1].0, sdb[|sdb| - 1].1, K);
    }
  }

  lemma {:induction false} SnapshotFits<Score>(env: Env<Score>, sdbs: seq<StoredDb<Score>>, K: nat)
    requires 1 <= K && 2 + 2 * K < INT_LIMIT && AllFit(env, sdbs) && |sdbs| < UINT_LIMIT
    ensures AllRepresentable(Snapshot(env, sdbs, K)) && NoneEmpty(Snapshot(env, sdbs, K))
    decreases |sdbs|
  {
    hide DbCommands, Fits, Representable;
    if sdbs != [] {
      var n := |sdbs| - 1;
      SnapshotFits(env, Front(sdbs), K);
      forall i | 0 <= i < |sdbs[n]| ensures Fits(env, sdbs[n][i].0, sdbs[n][i].1) {
      }
      DbFits(env, sdbs[n], K);
      SelectFits(n);
    }
  }

  /** Replaying the commands of one key. */
  lemma ReplayKey<Score(!new)>(env: Env<Score>, cl: Client<Score>, key: Bytes, o: Stored<Score>, K: nat)
    requires Sound(env) && K >= 1 && cl.db < |cl.data| && key !in cl.data[cl.db]
    requires !o.StoredStr? ==> ItemRows(env, o) != []
    ensures Replay(env, cl, KeyCommands(env, key, o, K))
            == cl.(data := cl.data[cl.db := cl.data[cl.db][key := Meaning(o)]])
  {
    hide Chunks, ItemRows;
    if o.StoredStr? {
      ReplayOne(env, cl, [SET, key, o.text]);
      assert [SET, key, o.text][0] == SET;
    } else {
      ItemsMeaning(env, o);
      ReplayChunks(env, cl, KindOf(o), key, ItemRows(env, o), K);
    }
  }

  /** The map that the first keys of a database stand for. */
  function DbOf<Score>(sdb: StoredDb<Score>): Db<Score> {
    if sdb == [] then map[] else DbOf(Front(sdb))[sdb[|sdb| - 1].0 := Meaning(sdb[|sdb| - 1].1)]
  }

  ghost function KeySet<Score>(sdb: StoredDb<Score>): set<Bytes> {
    set i | 0 <= i < |sdb| :: sdb[i].0
  }

  ghost predicate DistinctKeys<Score>(sdb: StoredDb<Score>) {
    forall i, j | 0 <= i < j < |sdb| :: sdb[i].0 != sdb[j].0
  }

  lemma KeySetStep<Score>(sdb: StoredDb<Score>)
    requires sdb != [] && DistinctKeys(sdb)
    ensures KeySet(sdb) == KeySet(Front(sdb)) + {sdb[|sdb| - 1].0}
    ensures DistinctKeys(Front(sdb)) && sdb[|sdb| - 1].0 !in KeySet(Front(sdb))
  {
    var n := |sdb| - 1;
    forall key | key in KeySet(sdb) ensures key in KeySet(Front(sdb)) + {sdb[n].0} {
      var i :| 0 <= i < |sdb| && sdb[i].0 == key;
      assert i < n ==> Front(sdb)[i].0 == key;
    }
    forall key | key in KeySet(Front(sdb)) + {sdb[n].0} ensures key in KeySet(sdb) {
      if key != sdb[n].0 {
        var i :| 0 <= i < n && Front(sdb)[i].0 == key;
        assert sdb[i].0 == key;
      }
    }
  }

  lemma {:induction false} DbOfHolds<Score>(env: Env<Score>, sdb: StoredDb<Score>)
    requires DistinctKeys(sdb)
    ensures DbOf(sdb).Keys == KeySet(sdb)
    ensures forall i | 0 <= i < |sdb| :: sdb[i].0 in DbOf(sdb) && DbOf(sdb)[sdb[i].0] == Meaning(sdb[i].1)
    decreases |sdb|
  {
    hide Meaning;
    if sdb != [] {
      KeySetStep(sdb);
      DbOfHolds(env, Front(sdb));
      forall i | 0 <= i < |sdb| - 1 ensures sdb[i].0 in DbOf(sdb) && DbOf(sdb)[sdb[i].0] == Meaning(sdb[i].1) {
        assert Front(sdb)[i] == sdb[i];
      }
    }
  }

  lemma {:induction false} ReplayDb<Score(!new)>(env: Env<Score>, cl: Client<Score>, sdb: StoredDb<Score>, K: nat)
    requires Sound(env) && K >= 1 && cl.db < |cl.data| && cl.data[cl.db] == map[]
    requires DistinctKeys(sdb)
    requires forall i | 0 <= i < |sdb| :: !sdb[i].1.StoredStr? ==> ItemRows(env, sdb[i].1) != []
    ensures Replay(env, cl, DbCommands(env, sdb, K)) == cl.(data := cl.data[cl.db := DbOf(sdb)])
    decreases |sdb|
  {
    hide KeyCommands, ItemRows, Meaning, Run, Sound, KeySet, DistinctKeys;
    if sdb != [] {
      var n := |sdb| - 1;
      KeySetStep(sdb);
      ReplayDb(env, cl, Front(sdb), K);
      DbOfHolds(env, Front(sdb));
      var mid := cl.(data := cl.data[cl.db := DbOf(Front(sdb))]);
      ReplayKey(env, mid, sdb[n].0, sdb[n].1, K);
      ReplayAppend(env, cl, DbCommands(env, Front(sdb), K), KeyCommands(env, sdb[n].0, sdb[n].1, K));
    } else {
      assert cl.data[cl.db := DbOf(sdb)] == cl.data;
    }
  }

  ghost predicate AllHold<Score>(env: Env<Score>, sdbs: seq<StoredDb<Score>>, data: Data<Score>) {
    |sdbs| == |data| && forall n | 0 <= n < |data| :: Holds(env, sdbs[n], data[n])
  }

  function NoData<Score>(n: nat): Data<Score> {
    seq(n, _ => map[])
  }

  /** Replaying one more database. */
  lemma ReplayNext<Score(!new)>(env: Env<Score>, r: Client<Score>, sdb: StoredDb<Score>, db: Db<Score>, n: nat, K: nat)
    requires Sound(env) && K >= 1 && Holds(env, sdb, db) && n < |r.data| < LONG_LIMIT && r.data[n] == map[]
    ensures var cmds := if sdb == [] then [] else [SelectCommand(n)] + DbCommands(env, sdb, K);
            var r' := Replay(env, r, cmds);
            r'.data == r.data[n := db] && (r'.db == r.db || r'.db == n)
  {
    hide DbCommands, Sound, Run, IsSelect, SelectCommand, KeySet;
    DbOfHolds(env, sdb);
    SameMap(DbOf(sdb), db, KeySet(sdb), sdb);
    if sdb == [] {
      assert r.data[n := db] == r.data;
    } else {
      ReplayAppend(env, r, [SelectCommand(n)], DbCommands(env, sdb, K));
      ReplayOne(env, r, SelectCommand(n));
      RunSelect(env, r, n);
      ReplayDb(env, r.(db := n), sdb, K);
    }
  }

  lemma SameMap<Score>(a: Db<Score>, b: Db<Score>, keys: set<Bytes>, sdb: StoredDb<Score>)
    requires a.Keys == b.Keys == keys == KeySet(sdb)
    requires forall i | 0 <= i < |sdb| :: sdb[i].0 in keys && a[sdb[i].0] == b[sdb[i].0]
    ensures a == b
  {
    forall key | key in keys ensures a[key] == b[key] {
      var i :| 0 <= i < |sdb| && sdb[i].0 == key;
    }
  }

  lemma OneMoreDb<Score>(data: Data<Score>, n: nat)
    requires 0 < n <= |data|
    ensures data[..n] + NoData(|data| - n) == (data[..n - 1] + NoData(|data| - (n - 1)))[n - 1 := data[n - 1]]
  {
  }

  /** Replaying the snapshot of the first n databases. */
  lemma {:induction false} ReplayFirst<Score(!new)>(env: Env<Score>, sdbs: seq<StoredDb<Score>>, data: Data<Score>, n: nat, K: nat)
    requires Sound(env) && K >= 1 && AllHold(env, sdbs, data) && n <= |data| < LONG_LIMIT && data != []
    ensures var r := Replay(env, Client(NoData(|data|), 0), Snapshot(env, sdbs[..n], K));
            r.data == data[..n] + NoData(|data| - n) && r.db < |data|
  {
    hide DbCommands, Sound, Run, SelectCommand, Holds, Replay;
    var start := Client(NoData(|data|), 0);
    ReplayNothing(env, start);
    if n > 0 {
      ReplayFirst(env, sdbs, data, n - 1, K);
      var part := sdbs[..n];
      assert Front(part) == sdbs[..n - 1] && part[n - 1] == sdbs[n - 1];
      var r := Replay(env, start, Snapshot(env, Front(part), K));
      ReplayNext(env, r, sdbs[n - 1], data[n - 1], n - 1, K);
      ReplayAppend(env, start, Snapshot(env, Front(part), K),
                   if sdbs[n - 1] == [] then [] else [SelectCommand(n - 1)] + DbCommands(env, sdbs[n - 1], K));
      OneMoreDb(data, n);
    } else {
      assert sdbs[..0] == [] && data[..0] + NoData(|data|) == NoData(|data|);
    }
  }

  /** Whatever the chunk size, replaying the snapshot on an empty server rebuilds the data set. */
  lemma SnapshotRebuilds<Score(!new)>(env: Env<Score>, sdbs: seq<StoredDb<Score>>, data: Data<Score>, K: nat)
    requires Sound(env) && K >= 1 && AllHold(env, sdbs, data) && 0 < |data| < LONG_LIMIT
    ensures var r := Replay(env, Client(NoData(|data|), 0), Snapshot(env, sdbs, K));
            r.data == data && r.db < |data|
  {
    ReplayFirst(env, sdbs, data, |data|, K);
    assert sdbs[..|data|] == sdbs && data[..|data|] + NoData(0) == data;
  }
}
