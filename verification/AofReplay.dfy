/** The data set, and what executing a log does to it. Only the commands that an AOF rewrite
    emits are spelled out; every other command is an arbitrary function of the data set. */
module AofReplay {
  import opened Basics
  import opened Buffers
  import opened AofFormat

  datatype Value<Score> =
    | Str(text: Bytes)
    | List(items: seq<Bytes>)
    | Set(members: set<Bytes>)
    | ZSet(scores: map<Bytes, Score>)
    | Hash(fields: map<Bytes, Bytes>)

  type Db<Score> = map<Bytes, Value<Score>>

  type Data<Score> = seq<Db<Score>>

  /** A client: the data set and its selected database. */
  datatype Client<Score> = Client(data: Data<Score>, db: nat)

  /** other is the effect of all remaining commands; parse and show are strtod and the
      17-digit format of scores. */
  datatype Env<!Score> = Env(other: (Data<Score>, nat, Command) -> Data<Score>, parse: Bytes -> Option<Score>, show: Score -> Bytes)

  /** Commands do not create databases, and the text of a score reads back as the score. */
  ghost predicate Sound<Score(!new)>(env: Env<Score>) {
    && (forall d, n, c :: |env.other(d, n, c)| == |d|)
    && (forall s :: env.parse(env.show(s)) == Some(s))
  }

  const SELECT: Bytes := [83, 69, 76, 69, 67, 84]
  const SET: Bytes := [83, 69, 84]
  const RPUSH: Bytes := [82, 80, 85, 83, 72]
  const SADD: Bytes := [83, 65, 68, 68]
  const ZADD: Bytes := [90, 65, 68, 68]
  const HMSET: Bytes := [72, 77, 83, 69, 84]

  function Upper(b: Byte): Byte {
    if 97 <= b <= 122 then b - 32 else b
  }

  /** Command names are looked up without regard to case. */
  predicate Named(c: Command, name: Bytes) {
    c != [] && |c[0]| == |name| && forall i | 0 <= i < |name| :: Upper(c[0][i]) == name[i]
  }

  // ---- collections ---------------------------------------------------------------------------

  datatype Kind = Rpush | Sadd | Zadd | Hmset

  function KindName(k: Kind): Bytes {
    match k
    case Rpush => RPUSH
    case Sadd => SADD
    case Zadd => ZADD
    case Hmset => HMSET
  }

  /** Arguments per item. */
  function Width(k: Kind): (w: nat)
    ensures 1 <= w <= 2
  {
    match k
    case Rpush => 1
    case Sadd => 1
    case Zadd => 2
    case Hmset => 2
  }

  /** The arguments of a variadic command, item by item. */
  function Rows(args: seq<Bytes>, w: nat): (rows: seq<seq<Bytes>>)
    requires w >= 1
    ensures forall i | 0 <= i < |rows| :: |rows[i]| == w
    decreases |args|
  {
    if |args| < w then [] else [args[..w]] + Rows(args[w..], w)
  }

  function EmptyValue<Score>(k: Kind): Value<Score> {
    match k
    case Rpush => List([])
    case Sadd => Set({})
    case Zadd => ZSet(map[])
    case Hmset => Hash(map[])
  }

  predicate HasKind<Score>(v: Value<Score>, k: Kind) {
    match k
    case Rpush => v.List?
    case Sadd => v.Set?
    case Zadd => v.ZSet?
    case Hmset => v.Hash?
  }

  /** The items are acceptable: scores have to be numbers. */
  predicate Readable<Score>(env: Env<Score>, k: Kind, rows: seq<seq<Bytes>>)
    requires forall i | 0 <= i < |rows| :: |rows[i]| == Width(k)
  {
    k.Zadd? ==> assert Width(k) == 2; forall i | 0 <= i < |rows| :: env.parse(rows[i][0]).Some?
  }

  /** Adding one item. */
  function AddRow<Score>(env: Env<Score>, k: Kind, v: Value<Score>, row: seq<Bytes>): (r: Value<Score>)
    requires |row| == Width(k) && HasKind(v, k) && Readable(env, k, [row])
    ensures HasKind(r, k)
  {
    match k
    case Rpush => List(v.items + [row[0]])
    case Sadd => Set(v.members + {row[0]})
    case Zadd => assert [row][0] == row; ZSet(v.scores[row[1] := env.parse(row[0]).value])
    case Hmset => Hash(v.fields[row[0] := row[1]])
  }

  ghost predicate RowsOk<Score>(env: Env<Score>, k: Kind, rows: seq<seq<Bytes>>) {
    (forall i | 0 <= i < |rows| :: |rows[i]| == Width(k)) && Readable(env, k, rows)
  }

  function AddRows<Score>(env: Env<Score>, k: Kind, v: Value<Score>, rows: seq<seq<Bytes>>): (r: Value<Score>)
    requires HasKind(v, k) && RowsOk(env, k, rows)
    ensures HasKind(r, k)
  {
    if rows == [] then v
    else
      var last := rows[|rows| - 1];
      AddRow(env, k, AddRows(env, k, v, rows[..|rows| - 1]), last)
  }

  // ---- commands ------------------------------------------------------------------------------

  predicate IsSelect(c: Command) {
    |c| == 2 && Named(c, SELECT)
  }

  /** The variadic command with whole, acceptable items. */
  predicate IsAdd<Score>(env: Env<Score>, c: Command, k: Kind) {
    && Named(c, KindName(k)) && |c| >= 2 + Width(k) && (|c| - 2) % Width(k) == 0
    && Readable(env, k, Rows(c[2..], Width(k)))
  }

  function ExecAdd<Score>(env: Env<Score>, db: Db<Score>, c: Command, k: Kind): Db<Score>
    requires IsAdd(env, c, k)
  {
    var key := c[1];
    var was := if key in db then db[key] else EmptyValue(k);
    if HasKind(was, k) then db[key := AddRows(env, k, was, Rows(c[2..], Width(k)))] else db
  }

  function Exec<Score>(env: Env<Score>, data: Data<Score>, n: nat, c: Command): Data<Score>
    requires n < |data|
  {
    if |c| == 3 && Named(c, SET) then data[n := data[n][c[1] := Str(c[2])]]
    else if IsAdd(env, c, Rpush) then data[n := ExecAdd(env, data[n], c, Rpush)]
    else if IsAdd(env, c, Sadd) then data[n := ExecAdd(env, data[n], c, Sadd)]
    else if IsAdd(env, c, Zadd) then data[n := ExecAdd(env, data[n], c, Zadd)]
    else if IsAdd(env, c, Hmset) then data[n := ExecAdd(env, data[n], c, Hmset)]
    else env.other(data, n, c)
  }

  /** One command of a log; SELECT of an unknown database is an error without effect. */
  function Run<Score>(env: Env<Score>, cl: Client<Score>, c: Command): Client<Score> {
    if IsSelect(c) then
      var n := StrToL(c[1]);
      if 0 <= n < |cl.data| then cl.(db := n) else cl
    else if cl.db < |cl.data| then cl.(data := Exec(env, cl.data, cl.db, c))
    else cl
  }

  function Replay<Score>(env: Env<Score>, cl: Client<Score>, cmds: seq<Command>): Client<Score> {
    if cmds == [] then cl
    else Run(env, Replay(env, cl, cmds[..|cmds| - 1]), cmds[|cmds| - 1])
  }

  lemma {:induction false} ReplayAppend<Score>(env: Env<Score>, cl: Client<Score>, a: seq<Command>, b: seq<Command>)
    ensures Replay(env, cl, a + b) == Replay(env, Replay(env, cl, a), b)
    decreases |b|
  {
    if b == [] {
      assert a + b == a;
    } else {
      assert (a + b)[..|a + b| - 1] == a + b[..|b| - 1];
      ReplayAppend(env, cl, a, b[..|b| - 1]);
    }
  }

  lemma ReplayOne<Score>(env: Env<Score>, cl: Client<Score>, c: Command)
    ensures Replay(env, cl, [c]) == Run(env, cl, c)
  {
    assert [c][..0] == [];
  }

  /** What feedAppendOnlyFile prints when the database changes. */
  function SelectCommand(n: nat): Command {
    [SELECT, Decimal(n)]
  }

  lemma RunSelect<Score>(env: Env<Score>, cl: Client<Score>, n: nat)
    requires n < |cl.data| && n < LONG_LIMIT
    ensures IsSelect(SelectCommand(n)) && Run(env, cl, SelectCommand(n)) == cl.(db := n)
  {
    StrToLDecimal(n, []);
    assert Decimal(n) + [] == Decimal(n);
  }

  // ---- a variadic command, in terms of its items -----------------------------------------------

  function Flatten(rows: seq<seq<Bytes>>): seq<Bytes> {
    if rows == [] then [] else rows[0] + Flatten(rows[1..])
  }

  function AddCommand(k: Kind, key: Bytes, rows: seq<seq<Bytes>>): Command {
    [KindName(k), key] + Flatten(rows)
  }

  lemma {:induction false} RowsFlatten(rows: seq<seq<Bytes>>, w: nat)
    requires w >= 1 && forall i | 0 <= i < |rows| :: |rows[i]| == w
    ensures Rows(Flatten(rows), w) == rows
    ensures 1 <= w <= 2 ==> |Flatten(rows)| == if w == 1 then |rows| else 2 * |rows|
    decreases |rows|
  {
    if rows != [] {
      RowsFlatten(rows[1..], w);
      assert Flatten(rows)[..w] == rows[0] && Flatten(rows)[w..] == Flatten(rows[1..]);
    }
  }

  lemma KindNames(k: Kind, j: Kind)
    requires k != j
    ensures |KindName(k)| == |KindName(j)| ==> KindName(k)[0] != KindName(j)[0]
    ensures |KindName(k)| >= 4 && KindName(k) != SELECT
  {
  }

  /** Command names are not confused. */
  lemma OwnName(c: Command, k: Kind, j: Kind)
    requires c != [] && c[0] == KindName(k)
    ensures Named(c, KindName(j)) <==> j == k
    ensures !Named(c, SET) && !Named(c, SELECT)
  {
    if j != k { KindNames(k, j); }
    assert forall i | 0 <= i < |KindName(k)| :: Upper(KindName(k)[i]) == KindName(k)[i];
  }

  lemma IsAddCommand<Score>(env: Env<Score>, k: Kind, key: Bytes, rows: seq<seq<Bytes>>, j: Kind)
    requires rows != [] && RowsOk(env, k, rows)
    ensures var c := AddCommand(k, key, rows);
            && (IsAdd(env, c, j) <==> j == k) && !Named(c, SET) && !Named(c, SELECT)
            && |c| >= 2 && Rows(c[2..], Width(k)) == rows
  {
    hide Named, KindName, Rows, Readable;
    var c := AddCommand(k, key, rows);
    RowsFlatten(rows, Width(k));
    assert c[2..] == Flatten(rows);
    OwnName(c, k, j);
  }

  /** Executing a variadic command adds its items one by one. */
  lemma ExecAddCommand<Score>(env: Env<Score>, data: Data<Score>, n: nat, k: Kind, key: Bytes, rows: seq<seq<Bytes>>)
    requires n < |data| && rows != [] && RowsOk(env, k, rows)
    requires key in data[n] ==> HasKind(data[n][key], k)
    ensures var was := if key in data[n] then data[n][key] else EmptyValue(k);
            Exec(env, data, n, AddCommand(k, key, rows)) == data[n := data[n][key := AddRows(env, k, was, rows)]]
    ensures !IsSelect(AddCommand(k, key, rows))
  {
    hide IsAdd, Named, AddRows, Readable, Rows;
    var c := AddCommand(k, key, rows);
    IsAddCommand(env, k, key, rows, Rpush);
    IsAddCommand(env, k, key, rows, Sadd);
    IsAddCommand(env, k, key, rows, Zadd);
    IsAddCommand(env, k, key, rows, Hmset);
    assert c[1] == key;
  }

  lemma {:induction false} AddRowsAppend<Score>(env: Env<Score>, k: Kind, v: Value<Score>, a: seq<seq<Bytes>>, b: seq<seq<Bytes>>)
    requires HasKind(v, k) && RowsOk(env, k, a) && RowsOk(env, k, b)
    ensures RowsOk(env, k, a + b)
    ensures AddRows(env, k, v, a + b) == AddRows(env, k, AddRows(env, k, v, a), b)
    decreases |b|
  {
    hide AddRow, HasKind;
    if b == [] {
      assert a + b == a;
    } else {
      assert (a + b)[..|a + b| - 1] == a + b[..|b| - 1];
      AddRowsAppend(env, k, v, a, b[..|b| - 1]);
    }
  }
}
