/**
 The append-only file of a running server: commands are executed and logged, the log is
 flushed, a child rewrites it while the parent keeps a diff, and the rewritten file
 takes the place of the old one. The invariant is that the log can always be replayed
 to the live dataset.

 I/O errors of the rewrite are one outcome, failure. An error while flushing ends the process.
 */
module AofServer {
  import opened Common
  import opened AofFormat
  import opened AofRewrite
  import opened AofSnapshot
  import opened AofBuffer

  datatype AofState = Off | WaitRewrite | On

  /**
   The `server.aof_*` fields, the file itself, the dataset, and the dataset that the
   rewriting child was forked with. `fdOpen` says that `aof_fd` is not -1.
   */
  datatype Server = Server(
    state: AofState, fdOpen: bool, selectedDb: int, aofBuf: Bytes, file: Bytes, rewriteBuf: Bytes,
    child: Option<seq<Db>>, rewriteScheduled: bool, data: seq<Db>)

  /** The log entry of a command: with a SELECT in front if the log is not at its database. */
  function Logged(selectedDb: int, db: nat, argv: Command): seq<Command> {
    (if db != selectedDb then [[SELECT, Dec(db)]] else []) + [argv]
  }

  function Feed(s: Server, db: nat, argv: Command): Server {
    var buf := EncodeAll(Logged(s.selectedDb, db, argv));
    s.(selectedDb := db,
       aofBuf := if s.state.On? then s.aofBuf + buf else s.aofBuf,
       rewriteBuf := if s.child.Some? then s.rewriteBuf + buf else s.rewriteBuf)
  }

  // --- What can happen ---

  datatype Action =
    | Call(db: nat, argv: Command, dirty: bool)
    | Flush
    | Fork(ok: bool)
    | Done(success: bool, dump: seq<seq<Entry>>)
    | Stop
    | Start(openOk: bool, forkOk: bool)

  /** How many items a rewritten command holds at most: REDIS_AOF_REWRITE_ITEMS_PER_CMD. */
  const ITEMS_PER_CMD: nat := 64

  function Result(other: Other, s: Server, db: nat, argv: Command): seq<Db>
    requires db < |s.data|
  {
    Exec(other, argv, Machine(s.data, db)).data
  }

  /** A command that is not dirty changed nothing; SELECT is never propagated. */
  ghost predicate Enabled(other: Other, s: Server, a: Action) {
    match a
    case Call(db, argv, dirty) =>
      && db < |s.data| && Printable(argv) && argv[0] != SELECT
      && (!dirty ==> Result(other, s, db, argv) == s.data)
    case Flush => true
    case Fork(_) => true
    case Done(success, dump) => s.child.Some? && (success ==> DumpOf(dump, s.child.value))
    case Stop => !s.state.Off?
    case Start(_, _) => s.state.Off?
  }

  function ForkChild(s: Server, ok: bool): Server {
    if s.child.Some? || !ok then s
    else s.(child := Some(s.data), rewriteScheduled := false, selectedDb := -1)
  }

  function FlushBuf(s: Server): Server {
    s.(file := s.file + s.aofBuf, aofBuf := [])
  }

  /** `backgroundRewriteDoneHandler` before its cleanup, when everything went well. */
  function Switch(s: Server, tmp: Bytes): Server {
    var s1 := s.(file := tmp + s.rewriteBuf);
    var s2 := if s.fdOpen then s1.(selectedDb := -1, aofBuf := []) else s1;
    if s.state.WaitRewrite? then s2.(state := On) else s2
  }

  function Cleanup(s: Server): Server {
    s.(rewriteBuf := [], child := None, rewriteScheduled := s.rewriteScheduled || s.state.WaitRewrite?)
  }

  function StopLogging(s: Server): Server {
    FlushBuf(s).(fdOpen := false, selectedDb := -1, state := Off, child := None,
                 rewriteBuf := if s.child.Some? then [] else s.rewriteBuf)
  }

  function StartLogging(s: Server, openOk: bool, forkOk: bool): Server {
    if !openOk then s.(fdOpen := false)
    else if s.child.Some? || !forkOk then s.(fdOpen := true)
    else ForkChild(s, true).(fdOpen := true, state := WaitRewrite)
  }

  ghost function Next(other: Other, s: Server, a: Action): Server
    requires Enabled(other, s, a)
  {
    match a
    case Call(db, argv, dirty) =>
      var s1 := s.(data := Result(other, s, db, argv));
      if dirty && !s.state.Off? then Feed(s1, db, argv) else s1
    case Flush => FlushBuf(s)
    case Fork(ok) => ForkChild(s, ok)
    case Done(success, dump) =>
      Cleanup(if success then Switch(s, EncodeAll(Snapshot(dump, ITEMS_PER_CMD))) else s)
    case Stop => StopLogging(s)
    case Start(openOk, forkOk) => StartLogging(s, openOk, forkOk)
  }

  // --- Datasets that a server can hold ---

  predicate Sane(data: seq<Db>) {
    && 0 < |data| <= INT_MAX
    && NoEmptyAggregates(data)
    && forall i | 0 <= i < |data| :: DbFits(data[i])
  }

  /** Commands delete a key rather than leave an empty aggregate, and keep the number of databases. */
  ghost predicate Preserves(other: Other) {
    forall c, db: nat, data | Sane(data) && db < |data| && Printable(c) ::
      Sane(other(c, db, data)) && |other(c, db, data)| == |data|
  }

  lemma {:induction false} AddScoresFits(m: map<Bytes, Bytes>, args: seq<Bytes>)
    requires MapFits(m) && AllShort(args)
    ensures MapFits(AddScores(m, args)) && m.Keys <= AddScores(m, args).Keys
    ensures |args| >= 2 ==> AddScores(m, args) != map[]
    decreases |args|
  {
    if |args| >= 2 {
      var m1 := m[args[1] := args[0]];
      AddScoresFits(m1, args[2..]);
      assert args[1] in m1.Keys;
    }
  }

  lemma {:induction false} AddFieldsFits(m: map<Bytes, Bytes>, args: seq<Bytes>)
    requires MapFits(m) && AllShort(args)
    ensures MapFits(AddFields(m, args)) && m.Keys <= AddFields(m, args).Keys
    ensures |args| >= 2 ==> AddFields(m, args) != map[]
    decreases |args|
  {
    if |args| >= 2 {
      var m1 := m[args[0] := args[1]];
      AddFieldsFits(m1, args[2..]);
      assert args[0] in m1.Keys;
    }
  }

  lemma AddSane(kind: Kind, was: Option<Value>, args: seq<Bytes>)
    requires AllShort(args) && |args| >= Width(kind)
    requires was.Some? ==> ValueFits(was.value) && !IsEmpty(was.value)
    ensures var r := Add(kind, was, args); r.Some? && ValueFits(r.value) && !IsEmpty(r.value)
  {
    match kind
    case ListKind =>
    case SetKind =>
      var added := set x | x in args;
      assert args[0] in added;
      assert was.Some? && was.value.Set? ==> args[0] in was.value.members + added;
    case SortedSetKind =>
      AddScoresFits(if was.Some? && was.value.SortedSet? then was.value.scores else map[], args);
    case HashKind =>
      AddFieldsFits(if was.Some? && was.value.Hash? then was.value.fields else map[], args);
  }

  lemma PutSane(m: Machine, key: Bytes, v: Value)
    requires Sane(m.data) && m.selected < |m.data| && Short(key) && ValueFits(v) && !IsEmpty(v)
    ensures Sane(Put(m, key, Some(v)).data)
  {
    hide ValueFits, IsEmpty;
  }

  lemma GetSane(m: Machine, key: Bytes)
    requires Sane(m.data) && m.selected < |m.data|
    ensures var v := Get(m.data[m.selected], key); v.Some? ==> ValueFits(v.value) && !IsEmpty(v.value)
  {
    hide ValueFits, IsEmpty;
  }

  lemma PutAddSane(kind: Kind, c: Command, m: Machine)
    requires Sane(m.data) && m.selected < |m.data| && Printable(c) && Adds(c, kind)
    ensures Sane(Put(m, c[1], Add(kind, Get(m.data[m.selected], c[1]), c[2..])).data)
  {
    assert AllShort(c[2..]) && Short(c[1]);
    hide Sane, Put, Add, Get, AllShort;
    GetSane(m, c[1]);
    AddSane(kind, Get(m.data[m.selected], c[1]), c[2..]);
    PutSane(m, c[1], Add(kind, Get(m.data[m.selected], c[1]), c[2..]).value);
  }

  lemma ExecSane(other: Other, c: Command, m: Machine)
    requires Preserves(other) && Sane(m.data) && m.selected < |m.data| && Printable(c)
    ensures Sane(Exec(other, c, m).data)
  {
    hide Sane, Put, Add, Get, Adds;
    if |c| == 2 && c[0] == SELECT {
    } else if |c| == 3 && c[0] == SET {
      PutSane(m, c[1], Str(c[2]));
    } else if Adds(c, ListKind) {
      PutAddSane(ListKind, c, m);
    } else if Adds(c, SetKind) {
      PutAddSane(SetKind, c, m);
    } else if Adds(c, SortedSetKind) {
      PutAddSane(SortedSetKind, c, m);
    } else if Adds(c, HashKind) {
      PutAddSane(HashKind, c, m);
    }
  }

  // --- The invariant ---

  /** Replaying `cs` from `m` gives the dataset, and leaves the client where the log thinks it is. */
  ghost predicate Arrives(other: Other, cs: seq<Command>, m: Machine, data: seq<Db>, selectedDb: int)
    requires m.selected < |m.data|
  {
    var r := Replay(other, cs, m);
    r.data == data && (selectedDb >= 0 ==> r.selected == selectedDb)
  }

  /** The bytes are a log that rebuilds the dataset from nothing. */
  ghost predicate LogOk(other: Other, bytes: Bytes, data: seq<Db>, selectedDb: int)
    requires |data| > 0
  {
    var log := ParseAll(bytes);
    log.ending.Complete? && Arrives(other, log.commands, FreshMachine(|data|), data, selectedDb)
  }

  ghost predicate ArrivesFromAny(other: Other, cs: seq<Command>, snapshot: seq<Db>, data: seq<Db>, selectedDb: int) {
    forall db | 0 <= db < |snapshot| :: Arrives(other, cs, Machine(snapshot, db), data, selectedDb)
  }

  /** The bytes are a log that leads from the snapshot to the dataset, whatever database is selected before it. */
  ghost predicate DiffOk(other: Other, bytes: Bytes, snapshot: seq<Db>, data: seq<Db>, selectedDb: int) {
    var log := ParseAll(bytes);
    log.ending.Complete? && ArrivesFromAny(other, log.commands, snapshot, data, selectedDb)
  }

  /** The file does not end inside a command. */
  ghost predicate Whole(bytes: Bytes) {
    ParseAll(bytes).ending.Complete?
  }

  lemma LogIsWhole(other: Other, bytes: Bytes, data: seq<Db>, selectedDb: int)
    requires |data| > 0 && LogOk(other, bytes, data, selectedDb)
    ensures Whole(bytes)
  {
  }

  ghost predicate ChildOk(other: Other, s: Server) {
    match s.child
    case None => s.rewriteBuf == []
    case Some(snapshot) =>
      && Sane(snapshot) && |snapshot| == |s.data|
      && if s.state.Off? then s.rewriteBuf == [] else DiffOk(other, s.rewriteBuf, snapshot, s.data, s.selectedDb)
  }

  ghost predicate Inv(other: Other, s: Server) {
    && Sane(s.data)
    && -1 <= s.selectedDb < |s.data|
    && (!s.state.Off? ==> s.fdOpen)
    && (if s.state.On? then LogOk(other, s.file + s.aofBuf, s.data, s.selectedDb) && Whole(s.file) else s.aofBuf == [])
    && ChildOk(other, s)
  }

  // --- Executing and logging a command ---

  lemma ExecKeepsSelected(other: Other, c: Command, m: Machine)
    requires m.selected < |m.data| && (c == [] || c[0] != SELECT)
    ensures Exec(other, c, m).selected == m.selected
  {
    hide Put, Add, Get, Adds;
  }

  lemma ReplayLogged(other: Other, db: nat, argv: Command, m: Machine, selectedDb: int)
    requires m.selected < |m.data| && db < |m.data| <= INT_MAX && argv != [] && argv[0] != SELECT
    requires selectedDb >= 0 ==> m.selected == selectedDb
    ensures Replay(other, Logged(selectedDb, db, argv), m) == Exec(other, argv, Machine(m.data, db))
  {
    hide Exec, Dec;
    ReplayOne(other, argv, Machine(m.data, db));
    if db == selectedDb {
      assert Logged(selectedDb, db, argv) == [argv];
    } else {
      ExecSelect(other, db, m);
      ReplayOne(other, [SELECT, Dec(db)], m);
      ReplayAppend(other, [[SELECT, Dec(db)]], [argv], m);
    }
  }

  lemma LoggedPrintable(selectedDb: int, db: nat, argv: Command)
    requires db <= LONG_MAX && Printable(argv)
    ensures AllPrintable(Logged(selectedDb, db, argv))
  {
    hide Printable, Dec;
    SelectPrintable(db);
  }

  lemma ArrivesLogged(
    other: Other, cs: seq<Command>, m: Machine, data: seq<Db>, selectedDb: int, db: nat, argv: Command)
    requires m.selected < |m.data| && Arrives(other, cs, m, data, selectedDb)
    requires db < |data| <= INT_MAX && argv != [] && argv[0] != SELECT
    ensures Arrives(other, cs + Logged(selectedDb, db, argv), m, Exec(other, argv, Machine(data, db)).data, db)
  {
    hide Exec, Replay, Logged;
    ReplayAppend(other, cs, Logged(selectedDb, db, argv), m);
    ReplayLogged(other, db, argv, Replay(other, cs, m), selectedDb);
    ExecKeepsSelected(other, argv, Machine(data, db));
  }

  lemma LogGrows(other: Other, bytes: Bytes, data: seq<Db>, selectedDb: int, db: nat, argv: Command)
    requires 0 < |data| <= INT_MAX && db < |data| && Printable(argv) && argv[0] != SELECT
    requires LogOk(other, bytes, data, selectedDb)
    ensures var data' := Exec(other, argv, Machine(data, db)).data;
            LogOk(other, bytes + EncodeAll(Logged(selectedDb, db, argv)), data', db)
  {
    hide Exec, Arrives, EncodeAll, Printable, ParseAll;
    assert argv != [] by {
      PrintableNonEmpty(argv);
    }
    ArrivesLogged(other, ParseAll(bytes).commands, FreshMachine(|data|), data, selectedDb, db, argv);
    LoggedPrintable(selectedDb, db, argv);
    RoundTrip(Logged(selectedDb, db, argv));
    ParseContinued(bytes, EncodeAll(Logged(selectedDb, db, argv)));
  }

  lemma PrintableNonEmpty(c: Command)
    requires Printable(c)
    ensures c != []
  {
  }

  lemma DiffGrows(
    other: Other, bytes: Bytes, snapshot: seq<Db>, data: seq<Db>, selectedDb: int, db: nat, argv: Command)
    requires 0 < |data| <= INT_MAX && db < |data| && Printable(argv) && argv[0] != SELECT
    requires DiffOk(other, bytes, snapshot, data, selectedDb)
    ensures var data' := Exec(other, argv, Machine(data, db)).data;
            DiffOk(other, bytes + EncodeAll(Logged(selectedDb, db, argv)), snapshot, data', db)
  {
    hide Exec, Arrives, EncodeAll, Printable, ParseAll;
    assert argv != [] by {
      PrintableNonEmpty(argv);
    }
    var cs, more := ParseAll(bytes).commands, Logged(selectedDb, db, argv);
    var data' := Exec(other, argv, Machine(data, db)).data;
    forall d | 0 <= d < |snapshot|
      ensures Arrives(other, cs + more, Machine(snapshot, d), data', db)
    {
      ArrivesLogged(other, cs, Machine(snapshot, d), data, selectedDb, db, argv);
    }
    LoggedPrintable(selectedDb, db, argv);
    RoundTrip(more);
    ParseContinued(bytes, EncodeAll(more));
  }

  lemma CallKeeps(other: Other, s: Server, db: nat, argv: Command, dirty: bool)
    requires Preserves(other) && Inv(other, s) && Enabled(other, s, Call(db, argv, dirty))
    ensures Inv(other, Next(other, s, Call(db, argv, dirty)))
  {
    hide Preserves, Exec, LogOk, DiffOk, EncodeAll, Logged, Sane, Whole;
    ExecSane(other, argv, Machine(s.data, db));
    assert 0 < |s.data| <= INT_MAX by {
      SaneSize(s.data);
    }
    if s.state.On? {
      LogGrows(other, s.file + s.aofBuf, s.data, s.selectedDb, db, argv);
      var buf := EncodeAll(Logged(s.selectedDb, db, argv));
      assert s.file + s.aofBuf + buf == s.file + (s.aofBuf + buf);
    }
    if !s.state.Off? && s.child.Some? {
      DiffGrows(other, s.rewriteBuf, s.child.value, s.data, s.selectedDb, db, argv);
    }
  }

  lemma SaneSize(data: seq<Db>)
    requires Sane(data)
    ensures 0 < |data| <= INT_MAX
  {
  }

  // --- Rewriting ---

  /** A diff that starts empty is right for the dataset of the fork, provided the next command is preceded by SELECT. */
  lemma ForkKeeps(other: Other, s: Server, ok: bool)
    requires Inv(other, s)
    ensures Inv(other, ForkChild(s, ok))
  {
    hide Sane;
    var s' := ForkChild(s, ok);
    if s.child.None? && ok {
      assert ArrivesFromAny(other, [], s.data, s.data, -1);
      assert DiffOk(other, [], s.data, s.data, -1);
      if s.state.On? {
        LogUnselected(other, s.file + s.aofBuf, s.data, s.selectedDb);
      }
    }
  }

  lemma LogUnselected(other: Other, bytes: Bytes, data: seq<Db>, selectedDb: int)
    requires |data| > 0 && LogOk(other, bytes, data, selectedDb)
    ensures LogOk(other, bytes, data, -1)
  {
    hide Replay, ParseAll;
  }

  /** The rewritten log followed by the diff is a log of the live dataset. */
  lemma SwitchedLog(
    other: Other, dump: seq<seq<Entry>>, k: nat, bytes: Bytes, snapshot: seq<Db>, data: seq<Db>, selectedDb: int)
    requires k >= 1 && 2 + 2 * k <= INT_MAX && Sane(snapshot) && DumpOf(dump, snapshot) && |data| == |snapshot|
    requires DiffOk(other, bytes, snapshot, data, selectedDb)
    ensures LogOk(other, EncodeAll(Snapshot(dump, k)) + bytes, data, selectedDb)
  {
    var m := FreshMachine(|data|);
    RewriteExact(other, dump, snapshot, k);
    SnapshotPrintable(dump, snapshot, 0, k);
    hide Replay, EncodeAll, Printable, Sane, DumpOf, SnapshotFrom, Snapshot, ParseAll;
    var cs, first := ParseAll(bytes).commands, Snapshot(dump, k);
    SnapshotIs(dump, k);
    var r := Replay(other, first, m);
    assert r == Machine(snapshot, r.selected);
    assert Arrives(other, cs, Machine(snapshot, r.selected), data, selectedDb);
    ReplayAppend(other, first, cs, m);
    ParseAfter(first, bytes);
  }

  lemma SnapshotIs(dump: seq<seq<Entry>>, k: nat)
    requires k >= 1
    ensures Snapshot(dump, k) == SnapshotFrom(dump, 0, k)
  {
  }

  lemma DoneKeeps(other: Other, s: Server, success: bool, dump: seq<seq<Entry>>)
    requires Inv(other, s) && Enabled(other, s, Done(success, dump))
    ensures Inv(other, Next(other, s, Done(success, dump)))
  {
    hide Sane, LogOk, DiffOk, DumpOf, Snapshot, EncodeAll, Whole;
    if success && !s.state.Off? {
      assert 0 < |s.data| by {
        SaneSize(s.data);
      }
      SwitchedLog(other, dump, ITEMS_PER_CMD, s.rewriteBuf, s.child.value, s.data, s.selectedDb);
      var bytes := EncodeAll(Snapshot(dump, ITEMS_PER_CMD)) + s.rewriteBuf;
      LogUnselected(other, bytes, s.data, s.selectedDb);
      LogIsWhole(other, bytes, s.data, s.selectedDb);
      assert bytes + [] == bytes;
    }
  }

  lemma StepKeeps(other: Other, s: Server, a: Action)
    requires Preserves(other) && Inv(other, s) && Enabled(other, s, a)
    ensures Inv(other, Next(other, s, a))
  {
    match a
    case Call(db, argv, dirty) => CallKeeps(other, s, db, argv, dirty);
    case Done(success, dump) => DoneKeeps(other, s, success, dump);
    case Fork(ok) => ForkKeeps(other, s, ok);
    case Flush =>
      hide Sane, LogOk, DiffOk, Whole;
      assert s.file + s.aofBuf + [] == s.file + s.aofBuf;
      if s.state.On? {
        SaneSize(s.data);
        LogIsWhole(other, s.file + s.aofBuf, s.data, s.selectedDb);
      } else {
        assert s.file + s.aofBuf == s.file;
      }
    case Stop =>
      hide Sane, LogOk, DiffOk;
    case Start(openOk, forkOk) =>
      ForkKeeps(other, s, true);
      hide Sane, LogOk;
      StartKeeps(other, s, openOk, forkOk);
  }

  lemma StartKeeps(other: Other, s: Server, openOk: bool, forkOk: bool)
    requires Inv(other, s) && s.state.Off? && Inv(other, ForkChild(s, true))
    ensures Inv(other, StartLogging(s, openOk, forkOk))
  {
    hide Sane, LogOk;
    if openOk && forkOk && s.child.None? {
      assert ArrivesFromAny(other, [], s.data, s.data, -1);
      assert DiffOk(other, [], s.data, s.data, -1);
    }
  }

  // --- Every run ---

  /**
   A server that has just started: with the log off, on any dataset and with any file left
   from before; or with the log on, on the dataset loaded from the file, whatever wrote it.
   */
  ghost predicate Init(other: Other, s: Server) {
    && s.selectedDb == -1 && s.aofBuf == [] && s.rewriteBuf == [] && s.child.None? && Sane(s.data)
    && (s.state.Off? || (s.state.On? && s.fdOpen && Load(other, |s.data|, s.file) == Some(s.data)))
  }

  lemma InitInv(other: Other, s: Server)
    requires Init(other, s)
    ensures Inv(other, s)
  {
    hide Replay, ParseAll;
    assert s.file + s.aofBuf == s.file;
  }

  ghost predicate Run(other: Other, servers: seq<Server>, actions: seq<Action>) {
    && |servers| == |actions| + 1
    && Init(other, servers[0])
    && forall i | 0 <= i < |actions| ::
         Enabled(other, servers[i], actions[i]) && servers[i + 1] == Next(other, servers[i], actions[i])
  }

  lemma {:induction false} RunKeeps(other: Other, servers: seq<Server>, actions: seq<Action>, i: nat)
    requires Preserves(other) && Run(other, servers, actions) && i <= |actions|
    ensures Inv(other, servers[i])
  {
    hide Preserves, Next, Enabled, Init;
    if i == 0 {
      InitInv(other, servers[0]);
    } else {
      RunKeeps(other, servers, actions, i - 1);
      hide Inv;
      assert servers[i - 1 + 1] == Next(other, servers[i - 1], actions[i - 1]);
      StepKeeps(other, servers[i - 1], actions[i - 1]);
    }
  }

  /** What `loadAppendOnlyFile` makes of a file, for a server with `n` databases. */
  function Load(other: Other, n: nat, file: Bytes): Option<seq<Db>>
    requires n > 0
  {
    var log := ParseAll(file);
    if log.ending.Complete? then Some(Replay(other, log.commands, FreshMachine(n)).data) else None
  }

  lemma LogOkLoads(other: Other, bytes: Bytes, data: seq<Db>, selectedDb: int)
    requires |data| > 0 && LogOk(other, bytes, data, selectedDb)
    ensures Load(other, |data|, bytes) == Some(data)
  {
    hide Replay, ParseAll;
  }

  lemma {:induction false} ReplaySane(other: Other, cs: seq<Command>, m: Machine)
    requires Preserves(other) && AllPrintable(cs) && m.selected < |m.data| && Sane(m.data)
    ensures Sane(Replay(other, cs, m).data)
  {
    hide Exec, Sane, Printable, Preserves;
    if cs != [] {
      ExecSane(other, cs[0], m);
      ReplaySane(other, cs[1..], Exec(other, cs[0], m));
    }
  }

  /** Every file that loads gives a dataset the server can hold, so starting on it is no restriction. */
  lemma LoadedIsSane(other: Other, n: nat, file: Bytes)
    requires Preserves(other) && 0 < n <= INT_MAX && |file| <= LONG_MAX && Load(other, n, file).Some?
    ensures Sane(Load(other, n, file).value) && |Load(other, n, file).value| == n
  {
    hide Replay, ParseAll, Preserves;
    ParseAllFits(file);
    ReplaySane(other, ParseAll(file).commands, FreshMachine(n));
  }

  /**
   In every state of every run in which the AOF is on, loading the file with the
   buffered log behind it gives the live dataset.
   */
  lemma AlwaysRecoverable(other: Other, servers: seq<Server>, actions: seq<Action>, i: nat)
    requires Preserves(other) && Run(other, servers, actions) && i <= |actions| && servers[i].state.On?
    ensures |servers[i].data| > 0
    ensures Load(other, |servers[i].data|, servers[i].file + servers[i].aofBuf) == Some(servers[i].data)
  {
    var s := servers[i];
    hide Preserves, Run, Load, LogOk, ChildOk;
    RunKeeps(other, servers, actions, i);
    LogOkLoads(other, s.file + s.aofBuf, s.data, s.selectedDb);
  }

  /**
   Whenever the process ends, the file on disk loads to its end, and what it misses of the log
   are the last commands, which were not flushed.
   */
  lemma FileAlwaysLoads(other: Other, servers: seq<Server>, actions: seq<Action>, i: nat)
    requires Preserves(other) && Run(other, servers, actions) && i <= |actions| && servers[i].state.On?
    ensures |servers[i].data| > 0 && Load(other, |servers[i].data|, servers[i].file).Some?
    ensures ParseAll(servers[i].file).commands <= ParseAll(servers[i].file + servers[i].aofBuf).commands
  {
    var s := servers[i];
    hide Preserves, Run, LogOk, ChildOk, Replay, ParseAll;
    RunKeeps(other, servers, actions, i);
    ParseContinued(s.file, s.aofBuf);
  }

  /**
   While a child rewrites the log, what it will write followed by the diff loads to the
   live dataset too, in whatever order the child iterates.
   */
  lemma RewriteInvisible(
    other: Other, servers: seq<Server>, actions: seq<Action>, i: nat, dump: seq<seq<Entry>>)
    requires Preserves(other) && Run(other, servers, actions) && i <= |actions|
    requires !servers[i].state.Off? && servers[i].child.Some? && DumpOf(dump, servers[i].child.value)
    ensures |servers[i].data| > 0
    ensures Load(other, |servers[i].data|, EncodeAll(Snapshot(dump, ITEMS_PER_CMD)) + servers[i].rewriteBuf)
         == Some(servers[i].data)
  {
    var s := servers[i];
    hide Preserves, Run, Load, LogOk, DiffOk, DumpOf, EncodeAll, Snapshot;
    RunKeeps(other, servers, actions, i);
    SwitchedLog(other, dump, ITEMS_PER_CMD, s.rewriteBuf, s.child.value, s.data, s.selectedDb);
    LogOkLoads(other, EncodeAll(Snapshot(dump, ITEMS_PER_CMD)) + s.rewriteBuf, s.data, s.selectedDb);
  }

  // --- When the log is on ---

  predicate NoStop(actions: seq<Action>, j: nat, i: nat) {
    forall k | j <= k < i && k < |actions| :: !actions[k].Stop?
  }

  /** A successful CONFIG SET appendonly yes. */
  predicate Starts(s: Server, a: Action) {
    a == Start(true, true) && s.child.None?
  }

  predicate Rewritten(a: Action) {
    a.Done? && a.success
  }

  /** One step switches the log on only at the end of a rewrite that was waited for, and off only by stopping it. */
  lemma StateStep(other: Other, s: Server, a: Action)
    requires Enabled(other, s, a)
    ensures Next(other, s, a).state.On? <==> (s.state.On? && !a.Stop?) || (s.state.WaitRewrite? && Rewritten(a))
    ensures Next(other, s, a).state.WaitRewrite? <==>
              Starts(s, a) || (s.state.WaitRewrite? && !a.Stop? && !Rewritten(a))
  {
    hide Exec, EncodeAll, Snapshot;
  }

  /** Step `j` started the log, and it has not been stopped since. */
  ghost predicate StartedAt(servers: seq<Server>, actions: seq<Action>, i: nat, j: nat)
    requires |servers| == |actions| + 1 && i <= |actions|
  {
    j < i && Starts(servers[j], actions[j]) && NoStop(actions, j, i)
  }

  /** A rewrite has succeeded between steps `j` and `i`. */
  ghost predicate RewrittenBetween(actions: seq<Action>, j: nat, i: nat)
    requires i <= |actions|
  {
    exists d :: j < d < i && Rewritten(actions[d])
  }

  ghost predicate BecameOn(servers: seq<Server>, actions: seq<Action>, i: nat)
    requires |servers| == |actions| + 1 && i <= |actions|
  {
    exists j: nat :: StartedAt(servers, actions, i, j) && RewrittenBetween(actions, j, i)
  }

  ghost predicate Waits(servers: seq<Server>, actions: seq<Action>, i: nat)
    requires |servers| == |actions| + 1 && i <= |actions|
  {
    exists j: nat :: StartedAt(servers, actions, i, j) && !RewrittenBetween(actions, j, i)
  }

  /**
   In every run the log is on exactly if the server was booted with it, or was told to start
   it and has rewritten the log since, and was not told to stop it after that. In between
   it waits for the rewrite.
   */
  lemma {:induction false} OnIff(other: Other, servers: seq<Server>, actions: seq<Action>, i: nat)
    requires Run(other, servers, actions) && i <= |actions|
    ensures servers[i].state.On? <==>
              (servers[0].state.On? && NoStop(actions, 0, i)) || BecameOn(servers, actions, i)
    ensures servers[i].state.WaitRewrite? <==> Waits(servers, actions, i)
  {
    hide Next, Enabled;
    if i > 0 {
      OnIff(other, servers, actions, i - 1);
      var s, a := servers[i - 1], actions[i - 1];
      assert Enabled(other, s, a) && servers[i - 1 + 1] == Next(other, s, a);
      hide Run;
      StateStep(other, s, a);
      BecameOnStep(servers, actions, i);
      WaitsStep(servers, actions, i);
      assert NoStop(actions, 0, i) <==> NoStop(actions, 0, i - 1) && !a.Stop?;
    }
  }

  lemma StartedStep(servers: seq<Server>, actions: seq<Action>, i: nat, j: nat)
    requires |servers| == |actions| + 1 && 0 < i <= |actions|
    ensures var a := actions[i - 1];
            && (StartedAt(servers, actions, i, j) <==>
                  (StartedAt(servers, actions, i - 1, j) && !a.Stop?) || (j == i - 1 && Starts(servers[j], a)))
            && (j < i - 1 ==> (RewrittenBetween(actions, j, i) <==> RewrittenBetween(actions, j, i - 1) || Rewritten(a)))
            && (j == i - 1 ==> !RewrittenBetween(actions, j, i))
  {
    var a := actions[i - 1];
    if j < i - 1 && RewrittenBetween(actions, j, i - 1) {
      var d :| j < d < i - 1 && Rewritten(actions[d]);
      assert j < d < i && Rewritten(actions[d]);
    }
    if StartedAt(servers, actions, i, j) && j < i - 1 {
      assert !actions[i - 1].Stop?;
    }
  }

  lemma BecameOnStep(servers: seq<Server>, actions: seq<Action>, i: nat)
    requires |servers| == |actions| + 1 && 0 < i <= |actions|
    ensures var a := actions[i - 1];
            BecameOn(servers, actions, i) <==>
              (BecameOn(servers, actions, i - 1) && !a.Stop?) || (Waits(servers, actions, i - 1) && Rewritten(a))
  {
    hide StartedAt, RewrittenBetween, Starts;
    forall j: nat
      ensures StartedAt(servers, actions, i, j) && RewrittenBetween(actions, j, i) <==>
                StartedAt(servers, actions, i - 1, j) && !actions[i - 1].Stop? &&
                (RewrittenBetween(actions, j, i - 1) || Rewritten(actions[i - 1]))
    {
      StartedStep(servers, actions, i, j);
      StartedBefore(servers, actions, i - 1, j);
    }
    if BecameOn(servers, actions, i) {
      var j: nat :| StartedAt(servers, actions, i, j) && RewrittenBetween(actions, j, i);
      assert StartedAt(servers, actions, i - 1, j);
    }
    if BecameOn(servers, actions, i - 1) && !actions[i - 1].Stop? {
      var j: nat :| StartedAt(servers, actions, i - 1, j) && RewrittenBetween(actions, j, i - 1);
      assert StartedAt(servers, actions, i, j);
    }
    if Waits(servers, actions, i - 1) && Rewritten(actions[i - 1]) {
      var j: nat :| StartedAt(servers, actions, i - 1, j) && !RewrittenBetween(actions, j, i - 1);
      assert StartedAt(servers, actions, i, j);
    }
  }

  lemma WaitsStep(servers: seq<Server>, actions: seq<Action>, i: nat)
    requires |servers| == |actions| + 1 && 0 < i <= |actions|
    ensures var a := actions[i - 1];
            Waits(servers, actions, i) <==>
              (Waits(servers, actions, i - 1) && !a.Stop? && !Rewritten(a)) || Starts(servers[i - 1], a)
  {
    hide StartedAt, RewrittenBetween, Starts;
    forall j: nat
      ensures StartedAt(servers, actions, i, j) && !RewrittenBetween(actions, j, i) <==>
                || (StartedAt(servers, actions, i - 1, j) && !actions[i - 1].Stop? &&
                    !RewrittenBetween(actions, j, i - 1) && !Rewritten(actions[i - 1]))
                || (j == i - 1 && Starts(servers[j], actions[i - 1]))
    {
      StartedStep(servers, actions, i, j);
      StartedBefore(servers, actions, i - 1, j);
    }
    if Waits(servers, actions, i) {
      var j: nat :| StartedAt(servers, actions, i, j) && !RewrittenBetween(actions, j, i);
      assert j == i - 1 || StartedAt(servers, actions, i - 1, j);
    }
    if Waits(servers, actions, i - 1) && !actions[i - 1].Stop? && !Rewritten(actions[i - 1]) {
      var j: nat :| StartedAt(servers, actions, i - 1, j) && !RewrittenBetween(actions, j, i - 1);
      assert StartedAt(servers, actions, i, j);
    }
    if Starts(servers[i - 1], actions[i - 1]) {
      assert StartedAt(servers, actions, i, i - 1);
    }
  }

  lemma StartedBefore(servers: seq<Server>, actions: seq<Action>, i: nat, j: nat)
    requires |servers| == |actions| + 1 && i <= |actions|
    ensures StartedAt(servers, actions, i, j) ==> j < i
  {
  }

  /** After a successful start, whatever else happens but a stop, the first successful rewrite leaves a log of everything. */
  lemma StartThenDone(other: Other, servers: seq<Server>, actions: seq<Action>, j: nat, d: nat)
    requires Preserves(other) && Run(other, servers, actions) && j < d < |actions|
    requires Starts(servers[j], actions[j]) && Rewritten(actions[d])
    requires forall k | j < k < d :: !actions[k].Stop?
    ensures var s := servers[d + 1];
            s.state.On? && |s.data| > 0 && Load(other, |s.data|, s.file + s.aofBuf) == Some(s.data)
  {
    hide Preserves, Next, Enabled, Init;
    assert StartedAt(servers, actions, d + 1, j) && RewrittenBetween(actions, j, d + 1);
    OnIff(other, servers, actions, d + 1);
    AlwaysRecoverable(other, servers, actions, d + 1);
  }

  /** While the log waits for a rewrite, one is running or scheduled. */
  lemma {:induction false} WaitingIsServed(other: Other, servers: seq<Server>, actions: seq<Action>, i: nat)
    requires Run(other, servers, actions) && i <= |actions| && servers[i].state.WaitRewrite?
    ensures servers[i].child.Some? || servers[i].rewriteScheduled
  {
    if i > 0 {
      var s, a := servers[i - 1], actions[i - 1];
      assert Enabled(other, s, a) && servers[i - 1 + 1] == Next(other, s, a);
      hide Exec, EncodeAll, Snapshot, Load;
      if s.state.WaitRewrite? {
        WaitingIsServed(other, servers, actions, i - 1);
      }
    }
  }

  /** After a flush the file alone loads to the live dataset, and so it does when the log is stopped. */
  lemma FlushedFileLoads(other: Other, servers: seq<Server>, actions: seq<Action>, i: nat)
    requires Preserves(other) && Run(other, servers, actions) && i < |actions|
    requires servers[i].state.On? && (actions[i].Flush? || actions[i].Stop?)
    ensures var s := servers[i + 1]; |s.data| > 0 && Load(other, |s.data|, s.file) == Some(s.data)
  {
    hide Preserves, Load, Exec, EncodeAll, Snapshot, Init;
    assert servers[i + 1] == Next(other, servers[i], actions[i]);
    AlwaysRecoverable(other, servers, actions, i);
  }

  // --- The server, as the source updates it ---

  /** `loadAppendOnlyFile`: parse and execute, command by command. */
  method LoadAppendOnlyFile(other: Other, n: nat, file: Bytes) returns (r: Option<seq<Db>>)
    requires n > 0
    ensures r == Load(other, n, file)
  {
    hide ParseAll, ParseCommand, Exec, Replay;
    var m := FreshMachine(n);
    var rest := file;
    ghost var done: seq<Command> := [];
    NothingReplayed(other, FreshMachine(n));
    while rest != []
      invariant m.selected < |m.data| && m == Replay(other, done, FreshMachine(n))
      invariant ParseAll(file) == Log(done + ParseAll(rest).commands, ParseAll(rest).ending)
      decreases |rest|
    {
      var p := ReadCommand(rest);
      ParseNext(rest, done);
      if !p.Ok? {
        return None;
      }
      ReplayOne(other, p.value, m);
      ReplayAppend(other, done, [p.value], FreshMachine(n));
      m := Exec(other, p.value, m);
      done := done + [p.value];
      rest := p.rest;
    }
    ParseEnd(done);
    return Some(m.data);
  }

  lemma NothingReplayed(other: Other, m: Machine)
    requires m.selected < |m.data|
    ensures Replay(other, [], m) == m
  {
  }

  lemma ParseNext(rest: Bytes, done: seq<Command>)
    requires rest != []
    ensures match ParseCommand(rest)
            case Ok(c, t) =>
              && ParseAll(rest).ending == ParseAll(t).ending
              && done + ParseAll(rest).commands == done + [c] + ParseAll(t).commands
            case _ => !ParseAll(rest).ending.Complete?
  {
    hide ParseCommand;
    if ParseCommand(rest).Ok? {
      var c, t := ParseCommand(rest).value, ParseCommand(rest).rest;
      assert done + ([c] + ParseAll(t).commands) == done + [c] + ParseAll(t).commands;
    }
  }

  lemma ParseEnd(done: seq<Command>)
    ensures ParseAll([]).ending.Complete? && done + ParseAll([]).commands == done
  {
  }

  class AppendOnlyFile {
    var state: AofState
    var fdOpen: bool
    var selectedDb: int
    var aofBuf: Bytes
    var file: Bytes
    const rewriteBuf: RewriteBuffer
    var child: Option<seq<Db>>
    var rewriteScheduled: bool
    var data: seq<Db>

    predicate Valid()
      reads this, rewriteBuf
    {
      rewriteBuf.Valid()
    }

    function Value(): Server
      reads this, rewriteBuf
    {
      Server(state, fdOpen, selectedDb, aofBuf, file, Content(rewriteBuf.blocks), child, rewriteScheduled, data)
    }

    /** A server just started, with the log on or off; `other` is what its commands do. */
    constructor (ghost other: Other, on: bool, data: seq<Db>, file: Bytes)
      requires Sane(data) && (on ==> Load(other, |data|, file) == Some(data))
      ensures Valid() && Init(other, Value()) && state == (if on then On else Off)
      ensures this.data == data && this.file == file && fresh(rewriteBuf)
    {
      this.data, this.file := data, file;
      state, fdOpen, selectedDb, aofBuf := if on then On else Off, on, -1, [];
      child, rewriteScheduled := None, false;
      rewriteBuf := new RewriteBuffer();
    }

    /** `feedAppendOnlyFile`, for commands that need no translation. */
    method FeedAppendOnlyFile(dictid: nat, argv: Command)
      requires Valid()
      modifies this, rewriteBuf
      ensures Valid() && Value() == Feed(old(Value()), dictid, argv)
      ensures var buf := (if dictid != old(selectedDb) then Encode([SELECT, Dec(dictid)]) else []) + Encode(argv);
              && aofBuf == (if state.On? then old(aofBuf) + buf else old(aofBuf))
              && Value().rewriteBuf == (if child.Some? then old(Value()).rewriteBuf + buf else old(Value()).rewriteBuf)
              && selectedDb == dictid && state == old(state) && file == old(file) && data == old(data)
    {
      hide Encode, EncodeArg, Header, Dec;
      var buf: Bytes := [];
      LoggedBytes(selectedDb, dictid, argv);
      SelectCommand(dictid);
      if dictid != selectedDb {
        var seldb := Dec(dictid);
        buf := buf + (Header(STAR, 2) + EncodeArg(SELECT) + EncodeArg(seldb));
        selectedDb := dictid;
      }
      buf := CatAppendOnlyGenericCommand(buf, argv);
      assert buf == EncodeAll(Logged(old(selectedDb), dictid, argv));
      if state.On? {
        aofBuf := aofBuf + buf;
      }
      if child.Some? {
        rewriteBuf.Append(buf);
      }
    }

    /** A command is executed and, if it changed something, propagated to the log. */
    method Call(other: Other, db: nat, argv: Command, dirty: bool)
      requires Valid() && Enabled(other, Value(), Action.Call(db, argv, dirty))
      modifies this, rewriteBuf
      ensures Valid() && Value() == Next(other, old(Value()), Action.Call(db, argv, dirty))
      ensures data == Exec(other, argv, Machine(old(data), db)).data && file == old(file) && state == old(state)
      ensures !dirty || state.Off? ==> Value() == old(Value()).(data := data)
      ensures dirty && state.On? ==>
                aofBuf == old(aofBuf) + ((if db != old(selectedDb) then Encode([SELECT, Dec(db)]) else []) + Encode(argv))
    {
      hide Exec;
      data := Exec(other, argv, Machine(data, db)).data;
      if dirty && !state.Off? {
        FeedAppendOnlyFile(db, argv);
      }
    }

    /**
     `flushAppendOnlyFile`; `postpone` says that a background fsync is waited for. If the file
     takes fewer than all bytes they are cut off again, if that succeeds, and the process exits.
     */
    method FlushAppendOnlyFile(postpone: bool, room: nat, truncateOk: bool) returns (exited: bool)
      requires Valid()
      modifies this
      ensures Valid() && exited == (!postpone && room < |old(aofBuf)|)
      ensures !exited ==> Value() == if postpone then old(Value()) else FlushBuf(old(Value()))
      ensures !exited && !postpone ==> file == old(file) + old(aofBuf) && aofBuf == []
      ensures exited ==>
                Value() == old(Value()).(file := old(file) + if truncateOk then [] else old(aofBuf)[..room])
    {
      exited := false;
      if |aofBuf| == 0 {
        assert file + aofBuf == file;
        return;
      }
      if postpone {
        return;
      }
      if room < |aofBuf| {
        ghost var before := file;
        if !truncateOk {
          file := file + aofBuf[..room];
        }
        assert file == before + if truncateOk then [] else aofBuf[..room];
        return true;
      }
      file := file + aofBuf;
      aofBuf := [];
    }

    /** `rewriteAppendOnlyFileBackground`, in the parent. */
    method RewriteAppendOnlyFileBackground(forkOk: bool) returns (ok: bool)
      requires Valid()
      modifies this
      ensures Valid() && Value() == ForkChild(old(Value()), forkOk) && ok == (old(child).None? && forkOk)
      ensures child == if ok then Some(data) else old(child)
    {
      if child.Some? {
        return false;
      }
      if !forkOk {
        return false;
      }
      rewriteScheduled := false;
      child := Some(data);
      selectedDb := -1;
      return true;
    }

    /** `backgroundRewriteDoneHandler`; `tmp` is the file the child has written, which takes `room` more bytes. */
    method BackgroundRewriteDoneHandler(
      exitcode: int, bysignal: bool, openOk: bool, room: nat, renameOk: bool, tmp: Bytes)
      requires Valid() && child.Some?
      modifies this, rewriteBuf
      ensures Valid()
      ensures var success := !bysignal && exitcode == 0 && openOk && |old(Value()).rewriteBuf| <= room && renameOk;
              && Value() == Cleanup(if success then Switch(old(Value()), tmp) else old(Value()))
              && state == (if success && old(state).WaitRewrite? then On else old(state))
              && file == (if success then tmp + old(Value()).rewriteBuf else old(file))
              && aofBuf == (if success && old(fdOpen) then [] else old(aofBuf))
              && child.None? && Value().rewriteBuf == [] && data == old(data)
              && (rewriteScheduled <==> old(rewriteScheduled) || state.WaitRewrite?)
    {
      if !bysignal && exitcode == 0 {
        if openOk {
          var newFile, count := rewriteBuf.Write(tmp, room);
          if count != -1 && renameOk {
            file := newFile;
            if fdOpen {
              selectedDb := -1;
              aofBuf := [];
            }
            if state.WaitRewrite? {
              state := On;
            }
          }
        }
      }
      rewriteBuf.Reset();
      child := None;
      if state.WaitRewrite? {
        rewriteScheduled := true;
      }
    }

    /** `stopAppendOnly`, unless the process exits while flushing. */
    method StopAppendOnly(room: nat, truncateOk: bool) returns (exited: bool)
      requires Valid() && !state.Off?
      modifies this, rewriteBuf
      ensures Valid() && exited == (room < |old(aofBuf)|)
      ensures !exited ==> Value() == StopLogging(old(Value()))
      ensures !exited ==> state.Off? && !fdOpen && child.None? && file == old(file) + old(aofBuf) && data == old(data)
      ensures exited ==>
                Value() == old(Value()).(file := old(file) + if truncateOk then [] else old(aofBuf)[..room])
    {
      exited := FlushAppendOnlyFile(false, room, truncateOk);
      if exited {
        return;
      }
      fdOpen := false;
      selectedDb := -1;
      state := Off;
      if child.Some? {
        rewriteBuf.Reset();
        child := None;
      }
    }

    /** `startAppendOnly`. */
    method StartAppendOnly(openOk: bool, forkOk: bool) returns (ok: bool)
      requires Valid() && state.Off?
      modifies this
      ensures Valid() && Value() == StartLogging(old(Value()), openOk, forkOk)
      ensures if ok then state.WaitRewrite? && fdOpen && child == Some(data) else state.Off? && child == old(child)
      ensures fdOpen == openOk && data == old(data) && file == old(file) && aofBuf == old(aofBuf)
      ensures ok == (openOk && forkOk && old(child).None?)
    {
      fdOpen := openOk;
      if !fdOpen {
        return false;
      }
      ok := RewriteAppendOnlyFileBackground(forkOk);
      if !ok {
        return;
      }
      state := WaitRewrite;
    }
  }

  /** A server that starts with the log on: it runs exactly if the file loads, and holds what was loaded. */
  method BootWithLog(other: Other, n: nat, file: Bytes) returns (server: AppendOnlyFile?)
    requires Preserves(other) && 0 < n <= INT_MAX && |file| <= LONG_MAX
    ensures server != null <==> Load(other, n, file).Some?
    ensures server != null ==>
              && fresh(server) && fresh(server.rewriteBuf) && server.Valid() && Init(other, server.Value())
              && server.state.On? && server.file == file && Load(other, n, file) == Some(server.data)
  {
    hide Load, Preserves, Sane;
    var loaded := LoadAppendOnlyFile(other, n, file);
    if loaded.None? {
      return null;
    }
    LoadedIsSane(other, n, file);
    server := new AppendOnlyFile(other, true, loaded.value, file);
  }

  lemma LoggedBytes(selectedDb: int, db: nat, argv: Command)
    ensures EncodeAll(Logged(selectedDb, db, argv))
         == (if db != selectedDb then Header(STAR, 2) + EncodeArg(SELECT) + EncodeArg(Dec(db)) else []) + Encode(argv)
  {
    hide Encode, EncodeArg, Header, Dec, EncodeAll;
    OneCommand(argv);
    if db == selectedDb {
      assert Logged(selectedDb, db, argv) == [argv];
    } else {
      SelectCommand(db);
      EncodeAllAppend([[SELECT, Dec(db)]], [argv]);
    }
  }

  // --- The two resets of `aof_selected_db` ---

  /** The reset in the done handler is redundant: keeping the selected database is as good. */
  lemma SwitchResetRedundant(other: Other, s: Server, dump: seq<seq<Entry>>)
    requires Inv(other, s) && !s.state.Off? && s.child.Some? && DumpOf(dump, s.child.value)
    ensures var tmp := EncodeAll(Snapshot(dump, ITEMS_PER_CMD));
            Inv(other, Cleanup(Switch(s, tmp).(selectedDb := s.selectedDb)))
  {
    hide Sane, LogOk, DiffOk, DumpOf, Snapshot, EncodeAll, Whole;
    assert 0 < |s.data| by {
      SaneSize(s.data);
    }
    SwitchedLog(other, dump, ITEMS_PER_CMD, s.rewriteBuf, s.child.value, s.data, s.selectedDb);
    var bytes := EncodeAll(Snapshot(dump, ITEMS_PER_CMD)) + s.rewriteBuf;
    LogIsWhole(other, bytes, s.data, s.selectedDb);
    assert bytes + [] == bytes;
  }

  /** The database a client is left in by a rewritten log. */
  function LastSelected(dump: seq<seq<Entry>>, j: nat, selected: nat): nat
    requires j <= |dump|
    decreases |dump| - j
  {
    if j == |dump| then selected else LastSelected(dump, j + 1, if dump[j] == [] then selected else j)
  }

  lemma {:induction false} DbKeepsSelected(other: Other, entries: seq<Entry>, db: Db, k: nat, m: Machine)
    requires k >= 1 && m.selected < |m.data| && From(entries, db)
    requires forall i | 0 <= i < |entries| :: entries[i].key !in m.data[m.selected]
    ensures Replay(other, DbCommands(entries, k), m).selected == m.selected
  {
    hide From, DbCommands, Replay;
    ReplayDb(other, entries, db, k, m);
  }

  lemma SelectedDbSelects(other: Other, entries: seq<Entry>, db: Db, j: nat, k: nat, m: Machine)
    requires k >= 1 && m.selected < |m.data| && j < |m.data| && j <= LONG_MAX
    requires EntriesOf(entries, db) && m.data[j] == map[]
    ensures Replay(other, SelectedDbCommands(entries, j, k), m).selected == if entries == [] then m.selected else j
  {
    hide Exec, From, DbCommands, Dec;
    if entries != [] {
      ExecSelect(other, j, m);
      ReplayOne(other, [SELECT, Dec(j)], m);
      ReplayAppend(other, [[SELECT, Dec(j)]], DbCommands(entries, k), m);
      DbKeepsSelected(other, entries, db, k, m.(selected := j));
    }
  }

  lemma {:induction false} SnapshotSelects(
    other: Other, dump: seq<seq<Entry>>, data: seq<Db>, j: nat, k: nat, m: Machine)
    requires k >= 1 && DumpOf(dump, data) && |data| <= INT_MAX && j <= |data|
    requires m.selected < |m.data| == |data| && forall i | j <= i < |data| :: m.data[i] == map[]
    ensures Replay(other, SnapshotFrom(dump, j, k), m).selected == LastSelected(dump, j, m.selected)
    decreases |data| - j
  {
    hide EntriesOf, SelectedDbCommands, Stripped;
    if j < |data| {
      ReplaySelectedDb(other, dump[j], data[j], j, k, m);
      SelectedDbSelects(other, dump[j], data[j], j, k, m);
      ReplayAppend(other, SelectedDbCommands(dump[j], j, k), SnapshotFrom(dump, j + 1, k), m);
      SnapshotSelects(other, dump, data, j + 1, k, Replay(other, SelectedDbCommands(dump[j], j, k), m));
    }
  }

  /**
   The reset at the fork is needed. Were the first SET of the diff logged without a
   SELECT, the switch would preserve the dataset exactly if the rewritten log happens to
   end in the right database, or the SET changes nothing in either.
   */
  lemma ForkResetNeeded(
    other: Other, dump: seq<seq<Entry>>, data: seq<Db>, k: nat, db: nat, key: Bytes, text: Bytes)
    requires k >= 1 && 2 + 2 * k <= INT_MAX && Sane(data) && DumpOf(dump, data) && db < |data|
    requires Short(key) && Short(text)
    ensures var last := LastSelected(dump, 0, 0);
            var v := Some(Str(text));
            last < |data| &&
            (Load(other, |data|, EncodeAll(Snapshot(dump, k)) + Encode([SET, key, text]))
             == Some(Exec(other, [SET, key, text], Machine(data, db)).data)
             <==> last == db || (Get(data[last], key) == v && Get(data[db], key) == v))
  {
    hide Sane, DumpOf, Snapshot, SnapshotFrom, Replay, Exec, Encode, EncodeAll, Printable, LastSelected;
    var setCommand := [SET, key, text];
    var first := Snapshot(dump, k);
    var m := FreshMachine(|data|);
    var last := LastSelected(dump, 0, 0);
    SnapshotLeaves(other, dump, data, k);
    SetPrintable(key, text);
    OneCommand(setCommand);
    EncodeAllAppend(first, [setCommand]);
    assert AllPrintable(first + [setCommand]);
    RoundTrip(first + [setCommand]);
    ReplayAppend(other, first, [setCommand], m);
    ReplayOne(other, setCommand, Machine(data, last));
    ExecSet(other, key, text, Machine(data, last));
    ExecSet(other, key, text, Machine(data, db));
    PutsAgree(data, last, db, key, Str(text));
  }

  /** Replaying a rewritten log gives the dataset, with the last non-empty database selected. */
  lemma SnapshotLeaves(other: Other, dump: seq<seq<Entry>>, data: seq<Db>, k: nat)
    requires k >= 1 && 2 + 2 * k <= INT_MAX && Sane(data) && DumpOf(dump, data)
    ensures Replay(other, Snapshot(dump, k), FreshMachine(|data|)) == Machine(data, LastSelected(dump, 0, 0))
    ensures LastSelected(dump, 0, 0) < |data| && AllPrintable(Snapshot(dump, k))
  {
    RewriteExact(other, dump, data, k);
    SnapshotPrintable(dump, data, 0, k);
    hide Replay, DumpOf, SnapshotFrom;
    SnapshotSelects(other, dump, data, 0, k, FreshMachine(|data|));
  }

  lemma SetPrintable(key: Bytes, text: Bytes)
    requires Short(key) && Short(text)
    ensures Printable([SET, key, text])
  {
  }

  lemma PutsAgree(data: seq<Db>, a: nat, b: nat, key: Bytes, v: Value)
    requires a < |data| && b < |data|
    ensures Put(Machine(data, a), key, Some(v)).data == Put(Machine(data, b), key, Some(v)).data
        <==> a == b || (Get(data[a], key) == Some(v) && Get(data[b], key) == Some(v))
  {
    var da, db := data[a := data[a][key := v]], data[b := data[b][key := v]];
    if a != b {
      if Get(data[a], key) == Some(v) && Get(data[b], key) == Some(v) {
        assert data[a][key := v] == data[a] && data[b][key := v] == data[b];
      }
      if da == db {
        assert da[a] == data[a][key := v] && db[a] == data[a] && da[b] == data[b] && db[b] == data[b][key := v];
        assert key in data[a][key := v] && key in data[b][key := v];
      }
    }
  }
}
