/** The background AOF rewrite (aof.c): while a child writes a snapshot, the parent collects what
    it executes in blocks, sends them down a pipe as far as the pipe takes them, and appends the
    remainder when the child is done. */
module AofDiff {
  import opened Buffers
  import opened AofFormat
  import opened AofReplay

  /** AOF_RW_BUF_BLOCK_SIZE */
  const BLOCK_SIZE: nat := 10485760

  const BANG: Byte := 33

  // ---- blocks of the rewrite buffer -----------------------------------------------------------

  datatype Block = Block(buf: Bytes, used: nat, free: nat)

  /** After part of a block was sent, used + free stays below the block size. */
  predicate BlockOk(b: Block) {
    |b.buf| == BLOCK_SIZE && b.used + b.free <= BLOCK_SIZE
  }

  ghost predicate BlocksOk(blocks: seq<Block>) {
    forall i | 0 <= i < |blocks| :: BlockOk(blocks[i])
  }

  /** The bytes that the blocks hold, in order. */
  ghost function Held(blocks: seq<Block>): Bytes
    requires BlocksOk(blocks)
  {
    if blocks == [] then [] else Held(blocks[..|blocks| - 1]) + Content(blocks[|blocks| - 1])
  }

  ghost function Content(b: Block): Bytes
    requires BlockOk(b)
  {
    b.buf[..b.used]
  }

  lemma {:induction false} HeldAppend(a: seq<Block>, b: seq<Block>)
    requires BlocksOk(a) && BlocksOk(b)
    ensures Held(a + b) == Held(a) + Held(b)
    decreases |b|
  {
    hide Content, BlockOk;
    if b == [] {
      assert a + b == a;
    } else {
      assert (a + b)[..|a + b| - 1] == a + b[..|b| - 1];
      HeldAppend(a, b[..|b| - 1]);
    }
  }

  lemma HeldOne(b: Block)
    requires BlockOk(b)
    ensures Held([b]) == Content(b)
  {
    var none: seq<Block> := [];
    assert [b][..0] == none;
  }

  lemma HeldFirst(blocks: seq<Block>)
    requires BlocksOk(blocks) && blocks != []
    ensures Held(blocks) == Content(blocks[0]) + Held(blocks[1..])
  {
    hide Content;
    HeldAppend([blocks[0]], blocks[1..]);
    HeldOne(blocks[0]);
    assert [blocks[0]] + blocks[1..] == blocks;
  }

  /** memcpy of the next bytes behind the used part of a block. */
  function Extend(b: Block, s: Bytes): (r: Block)
    requires BlockOk(b) && |s| <= b.free
    ensures BlockOk(r) && Content(r) == Content(b) + s
  {
    Block(MemCpy(b.buf, b.used, s), b.used + |s|, b.free - |s|)
  }

  /** Dropping the first n used bytes of a block by memmove; free does not grow. */
  function Shift(b: Block, n: nat): (r: Block)
    requires BlockOk(b) && n <= b.used
    ensures BlockOk(r) && Content(b) == b.buf[..n] + Content(r)
  {
    Block(MemMove(b.buf, 0, n, b.used - n), b.used - n, b.free)
  }

  // ---- what is fed ------------------------------------------------------------------------------

  /** A command that the parent executed against a database. */
  datatype Fed = Fed(db: nat, argv: Command)

  /** The database selected in the log after these commands; -1 at the fork. */
  function Selected(log: seq<Fed>): int {
    if log == [] then -1 else log[|log| - 1].db
  }

  function FeedCommands(selected: int, f: Fed): seq<Command> {
    if f.db != selected then [SelectCommand(f.db), f.argv] else [f.argv]
  }

  /** The log of all commands fed since the fork. */
  function Diff(log: seq<Fed>): seq<Command> {
    if log == [] then []
    else
      var before := log[..|log| - 1];
      Diff(before) + FeedCommands(Selected(before), log[|log| - 1])
  }

  /** The parent's data set after these commands. */
  function ExecAll<Score>(env: Env<Score>, data: Data<Score>, log: seq<Fed>): Data<Score> {
    if log == [] then data
    else
      var d := ExecAll(env, data, log[..|log| - 1]);
      var f := log[|log| - 1];
      if f.db < |d| then Exec(env, d, f.db, f.argv) else d
  }

  /** Clients execute commands in existing databases, and SELECT itself is not propagated. */
  ghost predicate Propagated(log: seq<Fed>, dbs: nat) {
    forall i | 0 <= i < |log| :: log[i].db < dbs && log[i].argv != [] && !IsSelect(log[i].argv)
  }

  lemma RunFed<Score(!new)>(env: Env<Score>, cl: Client<Score>, selected: int, f: Fed)
    requires Sound(env) && f.db < |cl.data| < LONG_LIMIT && !IsSelect(f.argv) && (selected == -1 || selected == cl.db)
    ensures Replay(env, cl, FeedCommands(selected, f)) == Client(Exec(env, cl.data, f.db, f.argv), f.db)
    ensures |Exec(env, cl.data, f.db, f.argv)| == |cl.data|
  {
    hide IsSelect, IsAdd, ExecAdd, StrToL;
    if f.db != selected {
      RunSelect(env, cl, f.db);
      ReplayOne(env, cl, SelectCommand(f.db));
      ReplayAppend(env, cl, [SelectCommand(f.db)], [f.argv]);
      assert FeedCommands(selected, f) == [SelectCommand(f.db)] + [f.argv];
    }
    ReplayOne(env, cl.(db := f.db), f.argv);
  }

  /** Whatever database the reader of the log has selected, replaying the diff does to its data
      what the parent did. */
  lemma {:induction false} DiffReplay<Score(!new)>(env: Env<Score>, cl: Client<Score>, log: seq<Fed>)
    requires Sound(env) && cl.db < |cl.data| < LONG_LIMIT && Propagated(log, |cl.data|)
    ensures var r := Replay(env, cl, Diff(log));
            && r.data == ExecAll(env, cl.data, log) && |r.data| == |cl.data|
            && (log != [] ==> r.db == Selected(log))
    decreases |log|
  {
    hide Exec, Run, IsSelect, FeedCommands, Sound;
    if log != [] {
      var before, f := log[..|log| - 1], log[|log| - 1];
      DiffReplay(env, cl, before);
      var mid := Replay(env, cl, Diff(before));
      RunFed(env, mid, Selected(before), f);
      ReplayAppend(env, cl, Diff(before), FeedCommands(Selected(before), f));
    }
  }

  /** The diff starts by selecting a database. */
  lemma {:induction false} DiffStartsWithSelect(log: seq<Fed>)
    requires log != []
    ensures |Diff(log)| >= 2 && Diff(log)[0] == SelectCommand(log[0].db)
  {
    if |log| > 1 {
      DiffStartsWithSelect(log[..|log| - 1]);
    } else {
      assert Diff(log) == Diff(log[..0]) + FeedCommands(-1, log[0]);
    }
  }
}
