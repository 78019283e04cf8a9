/** The two processes of a background rewrite and the pipes between them (aof.c). Every method is
    one step of the parent or of the child; any interleaving of steps is a run. How much a write
    or read moves, and whether system calls fail, are inputs. */
module AofProtocol {
  import opened Buffers
  import opened AofFormat
  import opened AofRoundTrip
  import opened AofReplay
  import opened AofRewrite
  import opened AofDiff

  /** Writing the snapshot; asked to stop; got the answer; exited with success or failure. */
  datatype Phase = Writing | Asked | Agreed | Success | Failure

  /** aof_state: WAIT_REWRITE is the time from switching the AOF on to the end of the first rewrite. */
  datatype AofState = Off | WaitRewrite | On

  /** The data set now and at the fork, the commands in the file and the buffer, and those of the
      snapshot; proper if all commands so far were within the length limits, and none was a SELECT. */
  datatype Books<!Score> = Books(data: Data<Score>, forkData: Data<Score>, cmds: seq<Command>, snapCmds: seq<Command>, proper: bool)

  /** While the AOF is on, the file and the buffer together replay to the data set. */
  ghost predicate FileReplays<Score>(env: Env<Score>, on: bool, text: Bytes, cmds: seq<Command>, data: Data<Score>, selected: int) {
    on ==> text == Print(cmds) && LogOk(cmds) && Replays(env, |data|, cmds, data, selected)
  }

  /** While a rewrite runs, the snapshot replays to the data set at the fork; and if the AOF is on or
      waiting, what was fed leads from there to the data set. */
  ghost predicate RewriteReplays<Score>(env: Env<Score>, running: bool, fed: bool, snapshot: Bytes, snapCmds: seq<Command>,
                                        forkData: Data<Score>, log: seq<Fed>, data: Data<Score>) {
    && (running ==> snapshot == Print(snapCmds) && LogOk(snapCmds) && Replays(env, |forkData|, snapCmds, forkData, -1))
    && (running && fed ==> |forkData| == |data| && FedFits(log) && Propagated(log, |data|) && data == ExecAll(env, forkData, log))
  }

  class Server<Score(!new)> {
    /** aof_rewrite_buf_blocks */
    var blocks: seq<Block>
    /** aof_child_pid != -1 */
    var rewriting: bool
    var stopSending: bool
    /** Whether the handlers for sending data and for the child's request are installed. */
    var sender: bool
    var listener: bool
    var selectedDb: int
    var aofBuf: Bytes
    var state: AofState
    var rewriteScheduled: bool
    /** The file under the configured name. */
    var file: Bytes

    /** Bytes on their way to the child, requests to the parent, answers to the child. */
    var dataPipe: Bytes
    var stopPipe: Bytes
    var ackPipe: Bytes

    var child: Phase
    var childDiff: Bytes
    /** What the child writes for the data set at the fork, and its file once complete. */
    var snapshot: Bytes
    var tempFile: Bytes

    /** The commands fed since the fork. */
    ghost var log: seq<Fed>

    /** What commands do, and what the logs stand for. */
    ghost const env: Env<Score>
    ghost var books: Books<Score>

    /** While the child runs, what was fed is with the child, in the pipe or in the blocks. */
    ghost predicate Conserved()
      requires BlocksOk(blocks)
      reads this
    {
      childDiff + dataPipe + Held(blocks) == Print(Diff(log))
    }

    /** Once the child has the answer, nothing is sent any more. */
    ghost predicate Handshake()
      reads this
    {
      && (stopPipe != [] ==> !child.Writing?)
      && (ackPipe != [] || child.Agreed? || child.Success? ==> stopSending)
      && (child.Success? ==> dataPipe == [] && tempFile == snapshot + childDiff)
    }

    /** The state of blocks, pipes and processes. */
    ghost predicate Wired()
      reads this
    {
      && BlocksOk(blocks)
      && (!rewriting ==> blocks == [])
      && (rewriting ==> (child.Failure? || Conserved()) && Handshake() && selectedDb == Selected(log))
      && (rewriting && blocks != [] && !stopSending ==> sender)
      && (rewriting && state.Off? ==> log == [])
    }

    ghost predicate Valid()
      reads this
    {
      && Wired() && Sound(env) && 0 < |books.data| < UINT_LIMIT
      && FileReplays(env, books.proper && state.On?, file + aofBuf, books.cmds, books.data, selectedDb)
      && RewriteReplays(env, books.proper && rewriting, !state.Off?, snapshot, books.snapCmds, books.forkData, log, books.data)
    }

    /** A server with empty databases. */
    constructor (env: Env<Score>, dbs: nat, on: bool)
      requires Sound(env) && 0 < dbs < UINT_LIMIT
      ensures Valid() && !rewriting && books.proper && this.env == env && books.data == NoData(dbs)
      ensures state == (if on then On else Off) && file == [] && aofBuf == []
    {
      blocks, rewriting, stopSending, sender, listener, selectedDb := [], false, false, false, false, -1;
      aofBuf, state, rewriteScheduled, file := [], if on then On else Off, false, [];
      dataPipe, stopPipe, ackPipe := [], [], [];
      child, childDiff, tempFile := Failure, [], [];
      snapshot, log := [], [];
      this.env, books := env, Books(NoData(dbs), NoData(dbs), [], [], true);
    }

    /** After a crash at any time: if the buffer had reached the file, loading it and replaying gives
        the data set. */
    lemma Recovers(flag: bool)
      requires Valid() && books.proper && state.On?
      ensures Load(file + aofBuf, flag) == if books.cmds == [] then Empty else Loaded(books.cmds, |file + aofBuf|)
      ensures Replay(env, Client(NoData(|books.data|), 0), books.cmds).data == books.data
    {
      hide Print, Replay, Sound, RewriteReplays;
      if books.cmds == [] { PrintNone(); } else { LoadRoundTrip(books.cmds, flag); }
    }

    /** aofCreatePipes */
    method CreatePipes()
      requires Valid() && !rewriting
      modifies this`listener, this`sender, this`stopSending, this`dataPipe, this`stopPipe, this`ackPipe
      ensures Valid() && listener && !sender && !stopSending && dataPipe == [] && stopPipe == [] && ackPipe == []
    {
      hide Sound, FileReplays, RewriteReplays;
      listener, sender, stopSending := true, false, false;
      dataPipe, stopPipe, ackPipe := [], [], [];
    }

    /** rewriteAppendOnlyFileBackground; pipesOk and forkOk tell whether the calls succeed. The child
        iterates over the data set as sdbs lists it. */
    method StartRewrite(ghost sdbs: seq<StoredDb<Score>>, text: Bytes, pipesOk: bool, forkOk: bool) returns (ok: bool)
      requires Valid() && AllHold(env, sdbs, books.data) && text == Print(Snapshot(env, sdbs, ITEMS_PER_CMD))
      modifies this
      ensures Valid() && ok == (!old(rewriting) && pipesOk && forkOk)
      ensures ok ==> rewriting && snapshot == text && log == [] && child == Writing && !rewriteScheduled && selectedDb == -1
      ensures ok ==> books.forkData == books.data && books.proper == (old(books.proper) && AllFit(env, sdbs)) && stopPipe == [] && dataPipe == [] && ackPipe == []
      ensures !ok ==> rewriting == old(rewriting) && snapshot == old(snapshot) && log == old(log) && books.proper == old(books.proper)
                      && selectedDb == old(selectedDb)
      ensures blocks == old(blocks) && aofBuf == old(aofBuf) && state == old(state) && file == old(file) && books.data == old(books.data)
    {
      hide Sound, FileReplays, RewriteReplays, Snapshot, AllHold, AllFit, Print, Diff;
      if rewriting { return false; }
      if !pipesOk { return false; }
      CreatePipes();
      if !forkOk { return false; }
      Forked(sdbs, text);
      return true;
    }

    /** The parent's side of a successful fork; the child starts from the data set of this moment. */
    method Forked(ghost sdbs: seq<StoredDb<Score>>, text: Bytes)
      requires Valid() && !rewriting && !stopSending && dataPipe == [] && stopPipe == [] && ackPipe == []
      requires AllHold(env, sdbs, books.data) && text == Print(Snapshot(env, sdbs, ITEMS_PER_CMD))
      modifies this`child, this`childDiff, this`tempFile, this`snapshot, this`log, this`rewriteScheduled, this`rewriting, this`selectedDb,
               this`books
      ensures Valid() && rewriting && snapshot == text && log == [] && child == Writing && !rewriteScheduled && selectedDb == -1
      ensures books.forkData == books.data == old(books.data) && books.proper == (old(books.proper) && AllFit(env, sdbs))
    {
      hide Held, BlocksOk, Print, Diff, Sound, Snapshot, AllHold, AllFit, FileReplays, RewriteReplays;
      RewriteStarts(env, sdbs, books.data, books.proper && AllFit(env, sdbs), !state.Off?);
      FileKept(env, books.proper && state.On?, books.proper && AllFit(env, sdbs) && state.On?, file + aofBuf, books.cmds, books.data, selectedDb);
      Spawn(text);
      rewriting := true;
      selectedDb := -1;
      books := books.(forkData := books.data, snapCmds := Snapshot(env, sdbs, ITEMS_PER_CMD), proper := books.proper && AllFit(env, sdbs));
      NothingYet();
    }

    /** The new child process, with nothing received yet. */
    method Spawn(text: Bytes)
      modifies this`child, this`childDiff, this`tempFile, this`snapshot, this`log, this`rewriteScheduled
      ensures child == Writing && childDiff == [] && snapshot == text && log == [] && !rewriteScheduled
    {
      child, childDiff, tempFile := Writing, [], [];
      snapshot, log := text, [];
      rewriteScheduled := false;
    }

    /** startAppendOnly: the AOF is on only after a rewrite. */
    method StartAppendOnly(ghost sdbs: seq<StoredDb<Score>>, text: Bytes, openOk: bool, pipesOk: bool, forkOk: bool) returns (ok: bool)
      requires Valid() && state.Off? && AllHold(env, sdbs, books.data) && text == Print(Snapshot(env, sdbs, ITEMS_PER_CMD))
      modifies this
      ensures Valid() && ok == (openOk && !old(rewriting) && pipesOk && forkOk)
      ensures state == (if ok then WaitRewrite else Off) && (ok ==> rewriting && snapshot == text && log == [])
      ensures aofBuf == old(aofBuf) && file == old(file) && books.data == old(books.data)
    {
      hide Sound, FileReplays, Replays, Snapshot, AllHold, AllFit, Print, Diff, ExecAll, LogOk;
      if !openOk { return false; }
      ok := StartRewrite(sdbs, text, pipesOk, forkOk);
      if ok {
        state := WaitRewrite;
        NothingFed(env, books.data);
      }
    }

    /** stopAppendOnly: a last flush, and a running rewrite is given up. */
    method StopAppendOnly(written: nat)
      requires Valid() && !state.Off? && written <= |aofBuf|
      modifies this
      ensures Valid() && state.Off? && !rewriting && selectedDb == -1 && blocks == []
      ensures file + aofBuf == old(file) + old(aofBuf) && books.data == old(books.data)
    {
      hide Sound, Print, Diff, Replays, LogOk;
      Flush(written);
      selectedDb := -1;
      state := Off;
      blocks := [];
      rewriting := false;
      sender, listener := false, false;
    }

    /** The write of flushAppendOnlyFile, as far as it went and was not undone. */
    method Flush(written: nat)
      requires Valid() && written <= |aofBuf|
      modifies this`file, this`aofBuf
      ensures Valid() && file == old(file) + old(aofBuf)[..written] && aofBuf == old(aofBuf)[written..]
      ensures file + aofBuf == old(file) + old(aofBuf)
    {
      hide Sound, FileReplays, RewriteReplays, Print, Diff;
      assert file + aofBuf == file + aofBuf[..written] + aofBuf[written..];
      file := file + aofBuf[..written];
      aofBuf := aofBuf[written..];
    }

    /** A command while the AOF is off. */
    method ExecuteUnlogged(db: nat, argv: Command)
      requires Valid() && state.Off? && db < |books.data|
      modifies this`books
      ensures Valid() && books.data == Exec(env, old(books.data), db, argv)
    {
      hide Replays, Print, Diff, ExecAll, LogOk, Exec;
      ExecSize(env, books.data, db, argv);
      books := books.(data := Exec(env, books.data, db, argv));
    }

    /** aofRewriteBufferAppend */
    method BufferAppend(s: Bytes)
      requires BlocksOk(blocks)
      modifies this`blocks, this`sender
      ensures BlocksOk(blocks) && Held(blocks) == old(Held(blocks)) + s && sender
    {
      hide Held, Content, BlockOk;
      var rest := s;
      var roomy := false;
      while rest != []
        invariant BlocksOk(blocks) && Held(blocks) + rest == old(Held(blocks)) + s
        invariant roomy ==> blocks != [] && blocks[|blocks| - 1].free > 0
        decreases |rest|, if roomy then 0 else 1
      {
        roomy := false;
        if |blocks| > 0 { rest := FillLast(rest); }
        if rest != [] {
          ghost var before := blocks;
          blocks := blocks + [NewBlock()];
          HeldAppend(before, [NewBlock()]);
          HeldOne(NewBlock());
          roomy := true;
        }
      }
      sender := true;
    }

    /** Copy what fits into the last block. */
    method FillLast(s: Bytes) returns (rest: Bytes)
      requires BlocksOk(blocks) && blocks != []
      modifies this`blocks
      ensures BlocksOk(blocks) && blocks != [] && Held(blocks) + rest == old(Held(blocks)) + s
      ensures |rest| <= |s| && (old(blocks[|blocks| - 1].free) > 0 && s != [] ==> |rest| < |s|)
    {
      hide Content, BlockOk;
      var n := |blocks| - 1;
      var block := blocks[n];
      var thislen := if block.free < |s| then block.free else |s|;
      rest := s[thislen..];
      assert s[..thislen] + rest == s;
      if thislen > 0 {
        ghost var before := blocks;
        blocks := blocks[n := Extend(block, s[..thislen])];
        assert blocks[..n] == before[..n];
      }
    }

    /** A command is executed, and feedAppendOnlyFile logs it; it needs no translation. */
    method Feed(db: nat, argv: Command)
      requires Valid() && !state.Off? && db < |books.data|
      modifies this`selectedDb, this`aofBuf, this`blocks, this`sender, this`log, this`books
      ensures Valid() && log == old(log) + [Fed(db, argv)] && selectedDb == db && books.data == Exec(env, old(books.data), db, argv)
      ensures books.proper == (old(books.proper) && argv != [] && Representable(argv) && !IsSelect(argv))
      ensures aofBuf == old(aofBuf) + if state.On? then Print(FeedCommands(old(selectedDb), Fed(db, argv))) else []
    {
      hide Held, Print, PrintCommand, Diff, FeedCommands, SelectText, Selected, BlocksOk, Exec, FileReplays, RewriteReplays, Sound,
           IsSelect, Representable;
      ghost var f := Fed(db, argv);
      ExecSize(env, books.data, db, argv);
      ghost var good := argv != [] && Representable(argv) && !IsSelect(argv);
      FileGrows(env, books.proper && state.On?, books.proper && good && state.On?, file + aofBuf, books.cmds, books.data, selectedDb, f);
      RewriteGrows(env, books.proper && rewriting, books.proper && good && rewriting, snapshot, books.snapCmds, books.forkData, log, books.data, f);
      var buf := Format(db, argv);
      books := books.(data := Exec(env, books.data, db, argv), proper := books.proper && good, cmds := books.cmds + FeedCommands(old(selectedDb), f));
      if state.On? {
        assert file + (aofBuf + buf) == file + aofBuf + buf;
        aofBuf := aofBuf + buf;
      } else {
        FileOff(env, file + aofBuf, books.cmds, books.data, db);
      }
      Keep(f, buf);
    }

    /** The text of a command, after a SELECT where the database changes. */
    method Format(db: nat, argv: Command) returns (buf: Bytes)
      modifies this`selectedDb
      ensures buf == Print(FeedCommands(old(selectedDb), Fed(db, argv))) && selectedDb == db
    {
      hide Print, PrintCommand, FeedCommands, SelectText;
      buf := [];
      if db != selectedDb {
        buf := SelectText(db);
        selectedDb := db;
      }
      buf := CatCommand(buf, argv);
      FedText(old(selectedDb), db, argv);
    }

    /** What is fed goes to the rewrite buffer while a child runs. */
    method Keep(ghost f: Fed, buf: Bytes)
      requires BlocksOk(blocks) && (!rewriting ==> blocks == []) && !state.Off? && (rewriting && blocks != [] && !stopSending ==> sender)
      requires rewriting ==> (child.Failure? || Conserved()) && Handshake() && buf == Print(FeedCommands(Selected(log), f))
      modifies this`blocks, this`sender, this`log
      ensures BlocksOk(blocks) && (!rewriting ==> blocks == []) && log == old(log) + [f]
      ensures rewriting ==> (child.Failure? || Conserved()) && Handshake() && sender && Selected(log) == f.db
    {
      hide Held, Print, Diff, FeedCommands, Selected, BlocksOk;
      DiffStep(log, f);
      if rewriting {
        assert childDiff + dataPipe + (Held(blocks) + buf) == childDiff + dataPipe + Held(blocks) + buf;
        BufferAppend(buf);
      }
      log := log + [f];
    }

    /** aofChildWriteDiffData: send from the first block as long as the pipe takes something.
        accepted lists what each write() takes. */
    method SendDiff(accepted: seq<int>)
      requires Valid() && rewriting && sender
      modifies this`blocks, this`sender, this`dataPipe
      ensures Valid()
      ensures stopSending ==> dataPipe == old(dataPipe) && blocks == old(blocks)
      ensures !stopSending && old(Held(blocks)) != [] && |accepted| > 0 && accepted[0] > 0 ==>
                |Held(blocks)| < |old(Held(blocks))|
      ensures blocks == [] || stopSending ==> !sender
      ensures !stopSending && Eager(accepted, |old(blocks)|) ==> blocks == [] && dataPipe == old(dataPipe) + old(Held(blocks))
    {
      hide Held, Content, Print, Diff, Sound, FileReplays, RewriteReplays, Eager;
      if !stopSending {
        WriteBlocks(accepted);
        if |blocks| > 0 { return; }
      }
      NothingYet();
      assert |blocks| == 0 ==> blocks == [];
      sender := false;
    }

    /** Writes as long as the pipe takes something. */
    method WriteBlocks(accepted: seq<int>)
      requires Valid() && rewriting && sender && !stopSending
      modifies this`blocks, this`dataPipe
      ensures Valid() && dataPipe + Held(blocks) == old(dataPipe) + old(Held(blocks))
      ensures old(Held(blocks)) != [] && |accepted| > 0 && accepted[0] > 0 ==> |Held(blocks)| < |old(Held(blocks))|
      ensures Eager(accepted, |old(blocks)|) ==> blocks == []
    {
      hide Held, Content, Print, Diff, Sound, FileReplays, RewriteReplays;
      var i: nat := 0;
      while |blocks| > 0
        invariant Valid() && i <= |accepted| && dataPipe + Held(blocks) == old(dataPipe) + old(Held(blocks))
        invariant if i == 0 then Held(blocks) == old(Held(blocks)) else |Held(blocks)| < |old(Held(blocks))|
        invariant Eager(accepted, |old(blocks)|) ==> i + |blocks| <= |old(blocks)|
        decreases |accepted| - i, |blocks|
      {
        if blocks[0].used == 0 {
          DropEmpty();
        } else {
          if i >= |accepted| || accepted[i] <= 0 { return; }
          UsedFits(blocks[0]);
          SendPart(if accepted[i] > blocks[0].used then blocks[0].used else accepted[i]);
          i := i + 1;
        }
      }
      NothingYet();
      assert blocks == [];
    }

    method DropEmpty()
      requires Valid() && rewriting && blocks != [] && blocks[0].used == 0
      modifies this`blocks
      ensures Valid() && |blocks| == old(|blocks|) - 1 && Held(blocks) == old(Held(blocks))
    {
      hide Held, Content, Print, Diff, Sound, FileReplays, RewriteReplays;
      NoContent(blocks[0]);
      DropFirst();
    }

    /** A write, and the block is freed when it is empty. */
    method SendPart(n: nat)
      requires Valid() && rewriting && !stopSending && blocks != [] && 0 < n <= blocks[0].used
      modifies this`blocks, this`dataPipe
      ensures Valid() && |Held(blocks)| < |old(Held(blocks))|
      ensures dataPipe + Held(blocks) == old(dataPipe) + old(Held(blocks))
      ensures |blocks| == old(|blocks|) - if n == old(blocks[0].used) then 1 else 0
    {
      hide Held, Content, Print, Diff, Sound, FileReplays, RewriteReplays;
      ghost var sent := blocks[0].buf[..n];
      SendBytes(n);
      assert dataPipe + Held(blocks) == old(dataPipe) + (sent + Held(blocks));
      if blocks[0].used == 0 {
        NoContent(blocks[0]);
        DropFirst();
      }
    }

    /** Free the first block, which holds nothing. */
    method DropFirst()
      requires Valid() && rewriting && blocks != [] && Content(blocks[0]) == []
      modifies this`blocks
      ensures Valid() && blocks == old(blocks)[1..] && Held(blocks) == old(Held(blocks))
    {
      hide Held, Content, Print, Diff, Sound, FileReplays, RewriteReplays;
      HeldFirst(blocks);
      blocks := blocks[1..];
    }

    /** One successful write() of n bytes of the first block. */
    method SendBytes(n: nat)
      requires Valid() && rewriting && !stopSending && blocks != [] && 0 < n <= blocks[0].used
      modifies this`blocks, this`dataPipe
      ensures Valid() && blocks != [] && |blocks| == old(|blocks|) && blocks[0].used == old(blocks[0].used) - n
      ensures old(Held(blocks)) == old(blocks[0].buf[..n]) + Held(blocks) && dataPipe == old(dataPipe) + old(blocks[0].buf[..n])
    {
      hide Held, Content, Print, Diff, Sound, FileReplays, RewriteReplays;
      HeldFirst(blocks);
      ghost var before := blocks;
      dataPipe := dataPipe + blocks[0].buf[..n];
      blocks := blocks[0 := Shift(blocks[0], n)];
      assert blocks[1..] == before[1..];
      HeldFirst(blocks);
      assert old(childDiff) + (old(dataPipe) + before[0].buf[..n]) + (Content(blocks[0]) + Held(before[1..]))
          == old(childDiff) + old(dataPipe) + (before[0].buf[..n] + Content(blocks[0]) + Held(before[1..]));
    }

    /** aofChildPipeReadable; ackOk tells whether the answer could be written. */
    method OnChildRequest(ackOk: bool)
      requires Valid() && rewriting && listener
      modifies this`stopSending, this`stopPipe, this`ackPipe, this`listener
      ensures Valid() && !listener && stopPipe == if old(stopPipe) == [] then [] else old(stopPipe)[1..]
      ensures ackPipe == old(ackPipe) + if old(stopPipe) != [] && old(stopPipe)[0] == 33 && ackOk then [33] else []
      ensures stopSending == (old(stopSending) || (old(stopPipe) != [] && old(stopPipe)[0] == 33))
    {
      hide Held, Print, Diff, Sound, FileReplays, RewriteReplays;
      if |stopPipe| > 0 {
        var byte := stopPipe[0];
        stopPipe := stopPipe[1..];
        if byte == BANG {
          stopSending := true;
          if ackOk { ackPipe := ackPipe + [BANG]; }
        }
      }
      listener := false;
    }

    // ---- the child ------------------------------------------------------------------------------

    /** One read() of aofReadDiffFromParent. */
    method ChildRead(n: nat)
      requires Valid() && rewriting && (child.Writing? || child.Asked? || child.Agreed?) && n <= |dataPipe|
      modifies this`childDiff, this`dataPipe
      ensures Valid() && childDiff == old(childDiff) + old(dataPipe)[..n] && dataPipe == old(dataPipe)[n..]
    {
      hide Held, Print, Diff, Sound, FileReplays, RewriteReplays;
      assert dataPipe[..n] + dataPipe[n..] == dataPipe;
      assert childDiff + (dataPipe[..n] + dataPipe[n..]) == childDiff + dataPipe[..n] + dataPipe[n..];
      childDiff := childDiff + dataPipe[..n];
      dataPipe := dataPipe[n..];
    }

    /** The child asks the parent to stop. */
    method ChildAsk()
      requires Valid() && rewriting && child.Writing?
      modifies this`child, this`stopPipe
      ensures Valid() && child.Asked? && stopPipe == old(stopPipe) + [33]
    {
      hide Held, Print, Diff, Sound, FileReplays, RewriteReplays;
      stopPipe := stopPipe + [BANG];
      child := Asked;
    }

    /** The child waits for the answer; anything else than '!' in time is a failure. */
    method ChildAwait(timeout: bool)
      requires Valid() && rewriting && child.Asked?
      modifies this`child, this`ackPipe
      ensures Valid()
      ensures child == if !timeout && old(ackPipe) != [] && old(ackPipe)[0] == 33 then Agreed else Failure
    {
      hide Held, Print, Diff, Sound, FileReplays, RewriteReplays;
      if timeout || |ackPipe| == 0 {
        child := Failure;
      } else {
        child := if ackPipe[0] == BANG then Agreed else Failure;
        ackPipe := ackPipe[1..];
      }
    }

    /** The child reads what is left in the pipe, completes its file and exits. */
    method ChildFinish()
      requires Valid() && rewriting && child.Agreed?
      modifies this`child, this`childDiff, this`dataPipe, this`tempFile
      ensures Valid() && child.Success? && dataPipe == []
      ensures childDiff == old(childDiff) + old(dataPipe) && tempFile == snapshot + childDiff
    {
      hide Held, Print, Diff, Sound, FileReplays, RewriteReplays;
      while |dataPipe| > 0
        invariant Valid() && child.Agreed?
        invariant childDiff + dataPipe == old(childDiff) + old(dataPipe)
        decreases |dataPipe|
      {
        ChildRead(if |dataPipe| > 65536 then 65536 else |dataPipe|);
      }
      tempFile := snapshot + childDiff;
      child := Success;
    }

    /** Any write error, signal or timeout. */
    method ChildFail()
      requires Valid() && rewriting
      modifies this`child
      ensures Valid() && child.Failure?
    {
      hide Held, Print, Diff, Sound, FileReplays, RewriteReplays;
      child := Failure;
    }

    // ---- the end of the rewrite -------------------------------------------------------------------

    /** aofRewriteBufferWrite: the concatenation of the blocks, unless a write fails. */
    method BufferWrite(out: Bytes, writesOk: seq<bool>) returns (r: Bytes, ok: bool)
      requires BlocksOk(blocks)
      ensures ok ==> r == out + Held(blocks)
      ensures ok <==> forall i | 0 <= i < |blocks| && i < |writesOk| && blocks[i].used > 0 :: writesOk[i]
    {
      r := out;
      for i := 0 to |blocks|
        invariant r == out + Held(blocks[..i])
        invariant forall k | 0 <= k < i && k < |writesOk| && blocks[k].used > 0 :: writesOk[k]
      {
        assert blocks[..i + 1][..i] == blocks[..i];
        if blocks[i].used > 0 {
          if i < |writesOk| && !writesOk[i] { return r, false; }
          r := r + blocks[i].buf[..blocks[i].used];
        }
      }
      assert blocks[..|blocks|] == blocks;
      return r, true;
    }

    /** backgroundRewriteDoneHandler: on success the file is the snapshot followed by all that was fed
        since the fork; otherwise file and buffer stay. Either way the law of Valid() holds on. */
    method RewriteDone(openOk: bool, writesOk: seq<bool>, renameOk: bool) returns (ok: bool)
      requires Valid() && rewriting && (child.Success? || child.Failure?)
      modifies this
      ensures Valid() && !rewriting && blocks == [] && books.data == old(books.data) && books.proper == old(books.proper)
      ensures ok <==>
                && old(child.Success?) && openOk && renameOk
                && forall i | 0 <= i < |old(blocks)| && i < |writesOk| && old(blocks)[i].used > 0 :: writesOk[i]
      ensures file == if ok then old(snapshot) + Print(Diff(old(log))) else old(file)
      ensures ok && !old(state).Off? ==> state.On? && aofBuf == [] && selectedDb == -1
      ensures !ok || old(state).Off? ==> state == old(state) && aofBuf == old(aofBuf) && selectedDb == old(selectedDb)
      ensures rewriteScheduled == (old(rewriteScheduled) || state.WaitRewrite?)
    {
      hide Held, Print, Diff, Sound, FileReplays, Replays, LogOk, ExecAll;
      ok := false;
      if child.Success? && openOk {
        var text, written := BufferWrite(tempFile, writesOk);
        ok := written && renameOk;
        if ok {
          assert childDiff + dataPipe + Held(blocks) == childDiff + Held(blocks);
          assert snapshot + childDiff + Held(blocks) == snapshot + (childDiff + Held(blocks));
          Renamed(text);
        }
      }
      sender, listener := false, false;
      blocks := [];
      rewriting := false;
      if state.WaitRewrite? { rewriteScheduled := true; }
    }

    /** The new file is in place. */
    method Renamed(text: Bytes)
      requires Valid() && rewriting && text == snapshot + Print(Diff(log))
      modifies this`file, this`selectedDb, this`aofBuf, this`state, this`books
      ensures FileReplays(env, books.proper && state.On?, file + aofBuf, books.cmds, books.data, selectedDb) && file == text
      ensures books == old(books).(cmds := books.cmds)
      ensures !old(state).Off? ==> state.On? && aofBuf == [] && selectedDb == -1
      ensures old(state).Off? ==> state.Off? && aofBuf == old(aofBuf) && selectedDb == old(selectedDb)
    {
      hide Held, Print, Diff, Sound, Replays, LogOk, ExecAll, Propagated, FedFits;
      if books.proper && !state.Off? { RewriteCompletes(env, books.snapCmds, books.forkData, log, books.data); }
      file := text;
      if !state.Off? {
        selectedDb := -1;
        aofBuf := [];
        books := books.(cmds := books.snapCmds + Diff(log));
        assert file + aofBuf == file;
        if state.WaitRewrite? { state := On; }
      }
    }
  }

  // ---- helpers ----------------------------------------------------------------------------------------

  function NewBlock(): (b: Block)
    ensures BlockOk(b) && Content(b) == [] && b.free > 0
  {
    Block(seq(BLOCK_SIZE, _ => 0), 0, BLOCK_SIZE)
  }

  lemma NothingYet()
    ensures BlocksOk([]) && Held([]) == [] && Print(Diff([])) == []
  {
  }

  /** The pipe takes whole blocks, this many at least. */
  ghost predicate Eager(accepted: seq<int>, n: nat) {
    |accepted| >= n && forall k | 0 <= k < |accepted| :: accepted[k] >= BLOCK_SIZE
  }

  lemma UsedFits(b: Block)
    requires BlockOk(b)
    ensures b.used <= BLOCK_SIZE
  {
  }

  lemma NoContent(b: Block)
    requires BlockOk(b) && b.used == 0
    ensures Content(b) == []
  {
  }

  /** The SELECT that feedAppendOnlyFile formats by hand. */
  function SelectText(db: nat): Bytes {
    [STAR, 50, CR, LF, DOLLAR, 54, CR, LF] + SELECT + [CR, LF]
    + [DOLLAR] + Decimal(|Decimal(db)|) + [CR, LF] + Decimal(db) + [CR, LF]
  }

  lemma SelectTextMeaning(db: nat)
    ensures SelectText(db) == PrintCommand(SelectCommand(db))
  {
    hide Decimal;
    var c := SelectCommand(db);
    assert Decimal(2) == [50] && Decimal(6) == [54] by { SmallDecimals(); }
    assert PrintArgs(c) == PrintArg(SELECT) + PrintArgs([Decimal(db)]) by {
      assert c[1..] == [Decimal(db)];
    }
    PrintSingle(Decimal(db));
  }

  lemma SmallDecimals()
    ensures Decimal(2) == [50] && Decimal(6) == [54]
  {
  }

  lemma FedText(selected: int, db: nat, argv: Command)
    ensures Print(FeedCommands(selected, Fed(db, argv)))
            == (if db != selected then SelectText(db) else []) + PrintCommand(argv)
  {
    hide PrintCommand;
    SelectTextMeaning(db);
    PrintOne(argv);
    if db != selected {
      PrintAppend([SelectCommand(db)], [argv]);
      PrintOne(SelectCommand(db));
      assert FeedCommands(selected, Fed(db, argv)) == [SelectCommand(db)] + [argv];
    }
  }

  lemma DiffStep(log: seq<Fed>, f: Fed)
    ensures Print(Diff(log + [f])) == Print(Diff(log)) + Print(FeedCommands(Selected(log), f))
    ensures Selected(log + [f]) == f.db
  {
    hide Print;
    assert (log + [f])[..|log|] == log;
    PrintAppend(Diff(log), FeedCommands(Selected(log), f));
  }

  // ---- reading the new file ------------------------------------------------------------------------------

  /** The length limits of strings and argument vectors, for what was fed. */
  ghost predicate FedFits(log: seq<Fed>) {
    forall i | 0 <= i < |log| :: log[i].argv != [] && Representable(log[i].argv) && log[i].db < UINT_LIMIT
  }

  lemma {:induction false} DiffFits(log: seq<Fed>)
    requires FedFits(log)
    ensures AllRepresentable(Diff(log)) && NoneEmpty(Diff(log))
    decreases |log|
  {
    hide Decimal;
    if log != [] {
      var f := log[|log| - 1];
      DiffFits(log[..|log| - 1]);
      SelectFits(f.db);
    }
  }

  /** The commands of a log can be printed and read back. */
  ghost predicate LogOk(cmds: seq<Command>) {
    AllRepresentable(cmds) && NoneEmpty(cmds)
  }

  /** On an empty server the commands give this data set; the next command may rely on selected. */
  ghost predicate Replays<Score>(env: Env<Score>, dbs: nat, cmds: seq<Command>, data: Data<Score>, selected: int) {
    var r := Replay(env, Client(NoData(dbs), 0), cmds);
    r.data == data && r.db < dbs == |data| && (selected == -1 || selected == r.db)
  }

  /** The next command may always select its database. */
  lemma FileKept<Score>(env: Env<Score>, on: bool, on': bool, text: Bytes, cmds: seq<Command>, data: Data<Score>, selected: int)
    requires FileReplays(env, on, text, cmds, data, selected) && (on' ==> on)
    ensures FileReplays(env, on', text, cmds, data, -1)
  {
  }

  lemma FileOff<Score>(env: Env<Score>, text: Bytes, cmds: seq<Command>, data: Data<Score>, selected: int)
    ensures FileReplays(env, false, text, cmds, data, selected)
  {
  }

  lemma NothingFed<Score>(env: Env<Score>, data: Data<Score>)
    ensures ExecAll(env, data, []) == data && FedFits([]) && Propagated([], |data|)
  {
  }

  lemma ExecSize<Score(!new)>(env: Env<Score>, data: Data<Score>, n: nat, c: Command)
    requires Sound(env) && n < |data|
    ensures |Exec(env, data, n, c)| == |data|
  {
  }

  lemma RewriteStarts<Score(!new)>(env: Env<Score>, sdbs: seq<StoredDb<Score>>, data: Data<Score>, running: bool, fed: bool)
    requires Sound(env) && AllHold(env, sdbs, data) && (running ==> AllFit(env, sdbs)) && 0 < |data| < UINT_LIMIT
    ensures var snap := Snapshot(env, sdbs, ITEMS_PER_CMD);
            RewriteReplays(env, running, fed, Print(snap), snap, data, [], data)
  {
    hide Replay, Snapshot, Sound, AllFit, Print;
    if running {
      SnapshotFits(env, sdbs, ITEMS_PER_CMD);
      SnapshotRebuilds(env, sdbs, data, ITEMS_PER_CMD);
    }
  }

  /** Feeding one more command to the file and the buffer. */
  lemma FileGrows<Score(!new)>(env: Env<Score>, on: bool, on': bool, text: Bytes, cmds: seq<Command>, data: Data<Score>, selected: int, f: Fed)
    requires Sound(env) && FileReplays(env, on, text, cmds, data, selected) && f.db < |data| < UINT_LIMIT
    requires on' ==> on && f.argv != [] && Representable(f.argv) && !IsSelect(f.argv)
    ensures FileReplays(env, on', text + Print(FeedCommands(selected, f)), cmds + FeedCommands(selected, f),
                        Exec(env, data, f.db, f.argv), f.db)
  {
    hide Print, Exec, Sound, Replay, IsSelect, Representable;
    if on' {
      var start := Client(NoData(|data|), 0);
      PrintAppend(cmds, FeedCommands(selected, f));
      SelectFits(f.db);
      RunFed(env, Replay(env, start, cmds), selected, f);
      ReplayAppend(env, start, cmds, FeedCommands(selected, f));
    }
  }

  /** Feeding one more command to the rewrite buffer. */
  lemma RewriteGrows<Score(!new)>(env: Env<Score>, running: bool, running': bool, snapshot: Bytes, snapCmds: seq<Command>, forkData: Data<Score>,
                            log: seq<Fed>, data: Data<Score>, f: Fed)
    requires Sound(env) && RewriteReplays(env, running, true, snapshot, snapCmds, forkData, log, data) && f.db < |data| < UINT_LIMIT
    requires running' ==> running && f.argv != [] && Representable(f.argv) && !IsSelect(f.argv)
    ensures RewriteReplays(env, running', true, snapshot, snapCmds, forkData, log + [f], Exec(env, data, f.db, f.argv))
  {
    hide Exec, Representable, IsSelect, Replays, Print, LogOk, Sound;
    ExecSize(env, data, f.db, f.argv);
    assert (log + [f])[..|log|] == log;
  }

  /** The snapshot and the diff together. */
  lemma RewriteCompletes<Score(!new)>(env: Env<Score>, snap: seq<Command>, forkData: Data<Score>, log: seq<Fed>, data: Data<Score>)
    requires Sound(env) && LogOk(snap) && Replays(env, |data|, snap, forkData, -1) && 0 < |data| < UINT_LIMIT
    requires FedFits(log) && Propagated(log, |data|) && data == ExecAll(env, forkData, log)
    ensures Print(snap) + Print(Diff(log)) == Print(snap + Diff(log)) && LogOk(snap + Diff(log))
    ensures Replays(env, |data|, snap + Diff(log), data, -1)
  {
    hide Print, Sound, Replay, Propagated, FedFits, ExecAll;
    var start := Client(NoData(|data|), 0);
    PrintAppend(snap, Diff(log));
    DiffFits(log);
    ReplayAppend(env, start, snap, Diff(log));
    DiffReplay(env, Replay(env, start, snap), log);
    NoFeeds(log, |data|);
    ReplayNone(env, Replay(env, start, snap));
  }

  lemma ReplayNone<Score>(env: Env<Score>, cl: Client<Score>)
    ensures Replay(env, cl, []) == cl
  {
  }

  lemma NoFeeds(log: seq<Fed>, dbs: nat)
    requires Propagated(log, dbs)
    ensures if log == [] then Diff(log) == [] else 0 <= Selected(log) < dbs
  {
  }

  /** The file that a successful rewrite leaves: loading and replaying it on an empty server gives
      the data set that the parent has reached by then. */
  lemma NewFileReplays<Score(!new)>(env: Env<Score>, sdbs: seq<StoredDb<Score>>, data: Data<Score>, log: seq<Fed>, flag: bool)
    requires Sound(env) && AllHold(env, sdbs, data) && data != [] && Propagated(log, |data|)
    requires AllFit(env, sdbs) && |data| < UINT_LIMIT && FedFits(log)
    ensures var file := Print(Snapshot(env, sdbs, ITEMS_PER_CMD)) + Print(Diff(log));
            var cmds := Snapshot(env, sdbs, ITEMS_PER_CMD) + Diff(log);
            && Load(file, flag) == (if cmds == [] then Empty else Loaded(cmds, |file|))
            && Replay(env, Client(NoData(|data|), 0), cmds).data == ExecAll(env, data, log)
  {
    hide Replay, Snapshot, Diff, Print, ExecAll, Sound, Propagated, AllFit, FedFits;
    var snap, diff := Snapshot(env, sdbs, ITEMS_PER_CMD), Diff(log);
    SnapshotFits(env, sdbs, ITEMS_PER_CMD);
    DiffFits(log);
    PrintAppend(snap, diff);
    if snap + diff != [] {
      LoadRoundTrip(snap + diff, flag);
    } else {
      PrintNone();
    }
    var start := Client(NoData(|data|), 0);
    SnapshotRebuilds(env, sdbs, data, ITEMS_PER_CMD);
    ReplayAppend(env, start, snap, diff);
    DiffReplay(env, Replay(env, start, snap), log);
  }
}
