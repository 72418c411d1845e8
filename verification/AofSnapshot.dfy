/**
 `rewriteAppendOnlyFile`: the log that rebuilds a whole dataset. Databases, sets, sorted
 sets and hashes are emitted in the order their iterators yield them, which is arbitrary.
 */
module AofSnapshot {
  import opened Common
  import opened AofFormat
  import opened AofRewrite

  // --- What an iteration yields ---

  predicate DistinctElems(items: seq<Item>) {
    forall i, j | 0 <= i < j < |items| :: items[i].elem != items[j].elem
  }

  predicate HasElem(items: seq<Item>, e: Bytes) {
    exists i | 0 <= i < |items| :: items[i].elem == e
  }

  ghost predicate ListsMap(items: seq<Item>, m: map<Bytes, Bytes>) {
    && DistinctElems(items)
    && (forall e :: e in m <==> HasElem(items, e))
    && (forall i | 0 <= i < |items| :: items[i].elem in m && m[items[i].elem] == items[i].attr)
  }

  /** The items are those of the value: in order for a list, each once in any order otherwise. */
  ghost predicate Lists(kind: Kind, items: seq<Item>, v: Value) {
    match kind
    case ListKind => v.List? && |v.items| == |items| && forall i | 0 <= i < |items| :: items[i].elem == v.items[i]
    case SetKind => v.Set? && DistinctElems(items) && forall e :: e in v.members <==> HasElem(items, e)
    case SortedSetKind => v.SortedSet? && ListsMap(items, v.scores)
    case HashKind => v.Hash? && ListsMap(items, v.fields)
  }

  /** A string, or the items of an aggregate; `ziplist` says that it is stored as one. */
  datatype Listing = Text(text: Bytes) | Items(kind: Kind, items: seq<Item>, ziplist: bool)

  ghost predicate Listed(l: Listing, v: Value) {
    match l
    case Text(text) => v == Str(text)
    case Items(kind, items, _) => Lists(kind, items, v)
  }

  predicate IsEmpty(v: Value) {
    match v
    case Str(_) => false
    case List(items) => items == []
    case Set(members) => members == {}
    case SortedSet(scores) => scores == map[]
    case Hash(fields) => fields == map[]
  }

  lemma EmptyIff(kind: Kind, items: seq<Item>, v: Value)
    requires Lists(kind, items, v)
    ensures IsEmpty(v) <==> items == []
  {
    if items != [] {
      assert HasElem(items, items[0].elem);
    }
  }

  // --- Rebuilding one object ---

  lemma {:induction false} FlattenSingles(kind: Kind, items: seq<Item>)
    requires Width(kind) == 1
    ensures |Flatten(Groups(kind, items))| == |items|
    ensures forall i | 0 <= i < |items| :: Flatten(Groups(kind, items))[i] == items[i].elem
  {
    if items != [] {
      GroupsTail(kind, items);
      FlattenSingles(kind, items[1..]);
      var f := Flatten(Groups(kind, items));
      assert f == [items[0].elem] + Flatten(Groups(kind, items[1..]));
      forall i | 0 <= i < |items|
        ensures f[i] == items[i].elem
      {
        if i > 0 {
          assert f[i] == Flatten(Groups(kind, items[1..]))[i - 1] == items[1..][i - 1].elem;
        }
      }
    }
  }

  lemma GroupsTail(kind: Kind, items: seq<Item>)
    requires items != []
    ensures Groups(kind, items)[0] == ItemArgs(kind, items[0]) && Groups(kind, items)[1..] == Groups(kind, items[1..])
  {
  }

  /** The map `m` extended by the pairs, the later ones winning. */
  ghost predicate Extended(m: map<Bytes, Bytes>, items: seq<Item>, r: map<Bytes, Bytes>) {
    && (forall e :: e in r <==> e in m || HasElem(items, e))
    && (forall i | 0 <= i < |items| :: items[i].elem in r && r[items[i].elem] == items[i].attr)
    && (forall e | e in m && !HasElem(items, e) :: e in r && r[e] == m[e])
  }

  lemma ExtendedTail(m: map<Bytes, Bytes>, items: seq<Item>, r: map<Bytes, Bytes>)
    requires items != [] && DistinctElems(items)
    requires Extended(m[items[0].elem := items[0].attr], items[1..], r)
    ensures Extended(m, items, r)
  {
    var first, rest := items[0], items[1..];
    assert !HasElem(rest, first.elem);
    forall e
      ensures HasElem(items, e) <==> e == first.elem || HasElem(rest, e)
    {
      if HasElem(rest, e) {
        var i :| 0 <= i < |rest| && rest[i].elem == e;
        assert items[i + 1].elem == e;
      }
      if HasElem(items, e) && e != first.elem {
        var i :| 0 <= i < |items| && items[i].elem == e;
        assert rest[i - 1].elem == e;
      }
    }
    forall i | 0 <= i < |items|
      ensures items[i].elem in r && r[items[i].elem] == items[i].attr
    {
      if i > 0 {
        assert rest[i - 1] == items[i];
      }
    }
  }

  lemma {:induction false} AddScoresOf(m: map<Bytes, Bytes>, items: seq<Item>)
    requires DistinctElems(items)
    ensures Extended(m, items, AddScores(m, Flatten(Groups(SortedSetKind, items))))
    decreases |items|
  {
    if items == [] {
      assert Flatten(Groups(SortedSetKind, items)) == [];
    } else {
      hide Extended;
      GroupsTail(SortedSetKind, items);
      var f := Flatten(Groups(SortedSetKind, items));
      var rest := Flatten(Groups(SortedSetKind, items[1..]));
      assert f == [items[0].attr, items[0].elem] + rest;
      assert f[2..] == rest;
      AddScoresOf(m[items[0].elem := items[0].attr], items[1..]);
      ExtendedTail(m, items, AddScores(m, f));
    }
  }

  lemma {:induction false} AddFieldsOf(m: map<Bytes, Bytes>, items: seq<Item>)
    requires DistinctElems(items)
    ensures Extended(m, items, AddFields(m, Flatten(Groups(HashKind, items))))
    decreases |items|
  {
    if items == [] {
      assert Flatten(Groups(HashKind, items)) == [];
    } else {
      hide Extended;
      GroupsTail(HashKind, items);
      var f := Flatten(Groups(HashKind, items));
      var rest := Flatten(Groups(HashKind, items[1..]));
      assert f == [items[0].elem, items[0].attr] + rest;
      assert f[2..] == rest;
      AddFieldsOf(m[items[0].elem := items[0].attr], items[1..]);
      ExtendedTail(m, items, AddFields(m, f));
    }
  }

  lemma ExtendedIs(items: seq<Item>, m: map<Bytes, Bytes>, r: map<Bytes, Bytes>)
    requires ListsMap(items, m) && Extended(map[], items, r)
    ensures r == m
  {
    forall e | e in m
      ensures e in r && r[e] == m[e]
    {
      assert HasElem(items, e);
      var i :| 0 <= i < |items| && items[i].elem == e;
    }
  }

  /** Adding the items of a value to a missing key gives that value back. */
  lemma AddListed(kind: Kind, items: seq<Item>, v: Value)
    requires Lists(kind, items, v)
    ensures Add(kind, None, Flatten(Groups(kind, items))) == Some(v)
  {
    var args := Flatten(Groups(kind, items));
    match kind
    case ListKind =>
      FlattenSingles(kind, items);
      assert args == v.items;
    case SetKind =>
      FlattenSingles(kind, items);
      assert forall e :: e in args <==> HasElem(items, e) by {
        forall e
          ensures e in args <==> HasElem(items, e)
        {
          if HasElem(items, e) {
            var i :| 0 <= i < |items| && items[i].elem == e;
            assert args[i] == e;
          }
        }
      }
      assert (set x | x in args) == v.members;
    case SortedSetKind =>
      AddScoresOf(map[], items);
      ExtendedIs(items, v.scores, AddScores(map[], args));
    case HashKind =>
      AddFieldsOf(map[], items);
      ExtendedIs(items, v.fields, AddFields(map[], args));
  }

  // --- Rebuilding a database ---

  datatype Entry = Entry(key: Bytes, listing: Listing)

  function EntryCommands(e: Entry, k: nat): seq<Command>
    requires k >= 1
  {
    match e.listing
    case Text(text) => [[SET, e.key, text]]
    case Items(kind, items, _) => Chunks(kind, e.key, Groups(kind, items), k)
  }

  /** The database after the entry is loaded into it: an empty aggregate leaves no trace. */
  function LoadEntry(db: Db, e: Entry, v: Value): Db {
    if IsEmpty(v) then db else db[e.key := v]
  }

  lemma {:induction false} ReplayEntry(other: Other, e: Entry, v: Value, k: nat, m: Machine)
    requires k >= 1 && m.selected < |m.data| && e.key !in m.data[m.selected] && Listed(e.listing, v)
    ensures Replay(other, EntryCommands(e, k), m)
         == m.(data := m.data[m.selected := LoadEntry(m.data[m.selected], e, v)])
  {
    hide Exec, Add, Lists, Chunks;
    match e.listing
    case Text(text) =>
      ExecSet(other, e.key, text, m);
      ReplayOne(other, [SET, e.key, text], m);
    case Items(kind, items, _) =>
      EmptyIff(kind, items, v);
      if items == [] {
        NoChunks(kind, e.key, Groups(kind, items), k);
        assert m.data[m.selected := m.data[m.selected]] == m.data;
      } else {
        ReplayChunks(other, kind, e.key, Groups(kind, items), k, m);
        AddListed(kind, items, v);
      }
  }

  lemma ReplayOne(other: Other, c: Command, m: Machine)
    requires m.selected < |m.data|
    ensures Replay(other, [c], m) == Exec(other, c, m)
  {
    hide Exec;
    var cs: seq<Command> := [c];
    assert cs[1..] == [];
    assert Replay(other, cs, m) == Replay(other, cs[1..], Exec(other, cs[0], m));
  }

  lemma NoChunks(kind: Kind, key: Bytes, groups: seq<seq<Bytes>>, k: nat)
    requires k >= 1 && groups == []
    ensures Chunks(kind, key, groups, k) == []
  {
  }

  function DbCommands(entries: seq<Entry>, k: nat): seq<Command>
    requires k >= 1
  {
    if entries == [] then [] else EntryCommands(entries[0], k) + DbCommands(entries[1..], k)
  }

  predicate DistinctKeys(entries: seq<Entry>) {
    forall i, j | 0 <= i < j < |entries| :: entries[i].key != entries[j].key
  }

  predicate HasKey(entries: seq<Entry>, key: Bytes) {
    exists i | 0 <= i < |entries| :: entries[i].key == key
  }

  /** The entries list values of `db`, each key once. */
  ghost predicate From(entries: seq<Entry>, db: Db) {
    && DistinctKeys(entries)
    && forall i | 0 <= i < |entries| :: entries[i].key in db && Listed(entries[i].listing, db[entries[i].key])
  }

  /** The entries list all of `db`. */
  ghost predicate EntriesOf(entries: seq<Entry>, db: Db) {
    From(entries, db) && forall key :: key in db <==> HasKey(entries, key)
  }

  /** The database without its empty aggregates. */
  function Stripped(db: Db): Db {
    map key | key in db && !IsEmpty(db[key]) :: db[key]
  }

  /** `base` with the non-empty values of the listed keys of `db` added. */
  function Loaded(entries: seq<Entry>, db: Db, base: Db): Db
    requires forall i | 0 <= i < |entries| :: entries[i].key in db
    decreases |entries|
  {
    if entries == [] then base
    else Loaded(entries[1..], db, LoadEntry(base, entries[0], db[entries[0].key]))
  }

  lemma {:induction false} LoadedHas(entries: seq<Entry>, db: Db, base: Db, key: Bytes)
    requires forall i | 0 <= i < |entries| :: entries[i].key in db
    ensures var r := Loaded(entries, db, base);
            if HasKey(entries, key) && !IsEmpty(db[key]) then key in r && r[key] == db[key]
            else Get(r, key) == Get(base, key)
    decreases |entries|
  {
    if entries != [] {
      var e, rest := entries[0], entries[1..];
      LoadedHas(rest, db, LoadEntry(base, e, db[e.key]), key);
      if HasKey(rest, key) {
        var i :| 0 <= i < |rest| && rest[i].key == key;
        assert entries[i + 1].key == key;
      }
      if HasKey(entries, key) && e.key != key {
        var i :| 0 <= i < |entries| && entries[i].key == key;
        assert rest[i - 1].key == key;
      }
    }
  }

  lemma LoadedIsStripped(entries: seq<Entry>, db: Db)
    requires EntriesOf(entries, db)
    ensures Loaded(entries, db, map[]) == Stripped(db)
  {
    var r := Loaded(entries, db, map[]);
    forall key
      ensures Get(r, key) == Get(Stripped(db), key)
    {
      LoadedHas(entries, db, map[], key);
    }
    assert forall key :: key in r <==> key in Stripped(db) by {
      forall key
        ensures key in r <==> key in Stripped(db)
      {
        assert Get(r, key) == Get(Stripped(db), key);
      }
    }
    forall key | key in r
      ensures r[key] == Stripped(db)[key]
    {
      assert Get(r, key) == Get(Stripped(db), key);
    }
  }

  lemma {:induction false} ReplayDb(other: Other, entries: seq<Entry>, db: Db, k: nat, m: Machine)
    requires k >= 1 && m.selected < |m.data| && From(entries, db)
    requires forall i | 0 <= i < |entries| :: entries[i].key !in m.data[m.selected]
    ensures Replay(other, DbCommands(entries, k), m)
         == m.(data := m.data[m.selected := Loaded(entries, db, m.data[m.selected])])
    decreases |entries|
  {
    hide Exec, Listed, EntryCommands, IsEmpty;
    if entries == [] {
      assert m.data[m.selected := m.data[m.selected]] == m.data;
    } else {
      var e, rest, base := entries[0], entries[1..], m.data[m.selected];
      var next := LoadEntry(base, e, db[e.key]);
      var m1 := m.(data := m.data[m.selected := next]);
      ReplayEntry(other, e, db[e.key], k, m);
      ReplayAppend(other, EntryCommands(e, k), DbCommands(rest, k), m);
      assert From(rest, db);
      ReplayDb(other, rest, db, k, m1);
      assert m1.data[m.selected := Loaded(rest, db, next)] == m.data[m.selected := Loaded(rest, db, next)];
    }
  }

  // --- Rebuilding the dataset ---

  /** The commands for database `j`; one without keys is skipped. */
  function SelectedDbCommands(entries: seq<Entry>, j: nat, k: nat): seq<Command>
    requires k >= 1
  {
    if entries == [] then [] else [[SELECT, Dec(j)]] + DbCommands(entries, k)
  }

  function SnapshotFrom(dump: seq<seq<Entry>>, j: nat, k: nat): seq<Command>
    requires k >= 1 && j <= |dump|
    decreases |dump| - j
  {
    if j == |dump| then [] else SelectedDbCommands(dump[j], j, k) + SnapshotFrom(dump, j + 1, k)
  }

  function Snapshot(dump: seq<seq<Entry>>, k: nat): seq<Command>
    requires k >= 1
  {
    SnapshotFrom(dump, 0, k)
  }

  ghost predicate DumpOf(dump: seq<seq<Entry>>, data: seq<Db>) {
    |dump| == |data| && forall j | 0 <= j < |data| :: EntriesOf(dump[j], data[j])
  }

  function StrippedAll(data: seq<Db>): (r: seq<Db>)
    ensures |r| == |data| && forall i | 0 <= i < |data| :: r[i] == Stripped(data[i])
  {
    seq(|data|, i requires 0 <= i < |data| => Stripped(data[i]))
  }

  /** The client that loads a log into `n` databases. */
  function FreshMachine(n: nat): (m: Machine)
    requires n > 0
    ensures m.selected == 0 && |m.data| == n && forall i | 0 <= i < n :: m.data[i] == map[]
  {
    Machine(seq(n, _ => map[]), 0)
  }

  lemma ReplaySelectedDb(other: Other, entries: seq<Entry>, db: Db, j: nat, k: nat, m: Machine)
    requires k >= 1 && m.selected < |m.data| && j < |m.data| && j <= LONG_MAX
    requires EntriesOf(entries, db) && m.data[j] == map[]
    ensures Replay(other, SelectedDbCommands(entries, j, k), m).data == m.data[j := Stripped(db)]
  {
    hide Exec, From, DbCommands;
    LoadedIsStripped(entries, db);
    if entries == [] {
      assert m.data[j := map[]] == m.data;
    } else {
      var m1 := m.(selected := j);
      ExecSelect(other, j, m);
      ReplayOne(other, [SELECT, Dec(j)], m);
      ReplayAppend(other, [[SELECT, Dec(j)]], DbCommands(entries, k), m);
      ReplayDb(other, entries, db, k, m1);
    }
  }

  lemma {:induction false} ReplaySnapshotFrom(
    other: Other, dump: seq<seq<Entry>>, data: seq<Db>, j: nat, k: nat, m: Machine)
    requires k >= 1 && DumpOf(dump, data) && |data| <= INT_MAX && j <= |data|
    requires m.selected < |m.data| == |data| && forall i | j <= i < |data| :: m.data[i] == map[]
    ensures Replay(other, SnapshotFrom(dump, j, k), m).data == m.data[..j] + StrippedAll(data)[j..]
    decreases |data| - j
  {
    hide EntriesOf, SelectedDbCommands, Stripped;
    if j == |data| {
      assert m.data[..j] + StrippedAll(data)[j..] == m.data;
    } else {
      ReplaySelectedDb(other, dump[j], data[j], j, k, m);
      ReplayAppend(other, SelectedDbCommands(dump[j], j, k), SnapshotFrom(dump, j + 1, k), m);
      var m1 := Replay(other, SelectedDbCommands(dump[j], j, k), m);
      assert m1.data == m.data[j := Stripped(data[j])];
      ReplaySnapshotFrom(other, dump, data, j + 1, k, m1);
      assert m1.data[..j + 1] + StrippedAll(data)[j + 1..] == m.data[..j] + StrippedAll(data)[j..];
    }
  }

  /** Loading a rewritten log rebuilds the dataset, except for empty aggregates. */
  lemma SnapshotReplays(other: Other, dump: seq<seq<Entry>>, data: seq<Db>, k: nat)
    requires k >= 1 && DumpOf(dump, data) && 0 < |data| <= INT_MAX
    ensures Replay(other, Snapshot(dump, k), FreshMachine(|data|)).data == StrippedAll(data)
  {
    hide DumpOf, StrippedAll;
    var m := FreshMachine(|data|);
    ReplaySnapshotFrom(other, dump, data, 0, k, m);
    assert m.data[..0] + StrippedAll(data)[0..] == StrippedAll(data);
  }

  predicate NoEmptyAggregates(data: seq<Db>) {
    forall i | 0 <= i < |data| :: forall key | key in data[i] :: !IsEmpty(data[i][key])
  }

  lemma StrippedIff(data: seq<Db>)
    ensures StrippedAll(data) == data <==> NoEmptyAggregates(data)
  {
    forall i | 0 <= i < |data|
      ensures Stripped(data[i]) == data[i] <==> forall key | key in data[i] :: !IsEmpty(data[i][key])
    {
      if Stripped(data[i]) == data[i] {
        forall key | key in data[i]
          ensures !IsEmpty(data[i][key])
        {
          assert key in Stripped(data[i]);
        }
      }
    }
    if StrippedAll(data) == data {
      assert forall i | 0 <= i < |data| :: Stripped(data[i]) == StrippedAll(data)[i];
    }
  }

  // --- Emitting the log ---

  /** The assertion in `rewriteSortedSetObject` that a sorted set in a ziplist has a first element fails. */
  predicate AbortsOn(l: Listing) {
    l.Items? && l.kind.SortedSetKind? && l.ziplist && l.items == []
  }

  predicate AbortsDb(entries: seq<Entry>) {
    exists i | 0 <= i < |entries| :: AbortsOn(entries[i].listing)
  }

  predicate Aborts(dump: seq<seq<Entry>>) {
    exists j | 0 <= j < |dump| :: AbortsDb(dump[j])
  }

  lemma AbortsIff(dump: seq<seq<Entry>>)
    ensures Aborts(dump) <==> exists j, i | 0 <= j < |dump| && 0 <= i < |dump[j]| ::
                                dump[j][i].listing == Items(SortedSetKind, [], true)
  {
    if Aborts(dump) {
      var j :| 0 <= j < |dump| && AbortsDb(dump[j]);
      var i :| 0 <= i < |dump[j]| && AbortsOn(dump[j][i].listing);
    }
  }

  /** A dataset without empty aggregates never makes the rewrite abort. */
  lemma NonEmptyNeverAborts(dump: seq<seq<Entry>>, data: seq<Db>)
    requires DumpOf(dump, data) && NoEmptyAggregates(data)
    ensures !Aborts(dump)
  {
    hide Lists, IsEmpty;
    forall j, i | 0 <= j < |dump| && 0 <= i < |dump[j]|
      ensures !AbortsOn(dump[j][i].listing)
    {
      var e := dump[j][i];
      assert EntriesOf(dump[j], data[j]);
      if e.listing.Items? {
        EmptyIff(e.listing.kind, e.listing.items, data[j][e.key]);
      }
    }
  }

  method RewriteEntry(r: Bytes, e: Entry, k: nat) returns (out: Option<Bytes>)
    requires k >= 1
    ensures out == if AbortsOn(e.listing) then None else Some(r + EncodeAll(EntryCommands(e, k)))
  {
    hide EncodeArg, Header, Chunks;
    match e.listing
    case Text(text) =>
      var aof := r + (Header(STAR, 3) + EncodeArg(SET));
      aof := aof + EncodeArg(e.key);
      aof := aof + EncodeArg(text);
      ThreeArgs(SET, e.key, text);
      assert aof == r + EncodeAll(EntryCommands(e, k));
      out := Some(aof);
    case Items(kind, items, ziplist) =>
      if kind.SortedSetKind? && ziplist && |items| == 0 {
        return None;
      }
      var aof := RewriteAggregate(r, kind, e.key, items, k);
      out := Some(aof);
  }

  lemma ThreeArgs(a: Bytes, b: Bytes, c: Bytes)
    ensures EncodeAll([[a, b, c]]) == Header(STAR, 3) + EncodeArg(a) + EncodeArg(b) + EncodeArg(c)
  {
    hide EncodeArg, Header;
    var cmd := [a, b, c];
    TwoArgs(b, c);
    assert cmd[1..] == [b, c];
    assert EncodeArgs(cmd) == EncodeArg(a) + EncodeArgs([b, c]);
    OneCommand(cmd);
  }

  lemma OneCommand(c: Command)
    ensures EncodeAll([c]) == Encode(c)
  {
    hide Encode;
    var cs: seq<Command> := [c];
    assert cs[1..] == [];
    assert EncodeAll(cs) == Encode(cs[0]) + EncodeAll(cs[1..]);
  }

  method RewriteDb(r: Bytes, entries: seq<Entry>, k: nat) returns (out: Option<Bytes>)
    requires k >= 1
    ensures out == if AbortsDb(entries) then None else Some(r + EncodeAll(DbCommands(entries, k)))
  {
    hide EncodeAll, EntryCommands, AbortsOn;
    var aof := r;
    var i := 0;
    assert entries[0..] == entries;
    while i < |entries|
      invariant 0 <= i <= |entries| && forall j | 0 <= j < i :: !AbortsOn(entries[j].listing)
      invariant aof + EncodeAll(DbCommands(entries[i..], k)) == r + EncodeAll(DbCommands(entries, k))
    {
      var next := RewriteEntry(aof, entries[i], k);
      if next.None? {
        return None;
      }
      assert entries[i..][1..] == entries[i + 1..];
      EncodeAllAppend(EntryCommands(entries[i], k), DbCommands(entries[i + 1..], k));
      aof := next.value;
      i := i + 1;
    }
    assert EncodeAll(DbCommands(entries[i..], k)) == [] by {
      NoneToEncode();
    }
    assert aof == r + EncodeAll(DbCommands(entries, k));
    out := Some(aof);
  }

  lemma NoneToEncode()
    ensures EncodeAll([]) == []
  {
  }

  /** `rewriteAppendOnlyFile`, up to the rename; nothing is left behind if it aborts. */
  method RewriteAppendOnlyFile(dump: seq<seq<Entry>>, k: nat) returns (out: Option<Bytes>)
    requires k >= 1
    ensures out == if Aborts(dump) then None else Some(EncodeAll(Snapshot(dump, k)))
    ensures out.None? <==> exists j, i | 0 <= j < |dump| && 0 <= i < |dump[j]| ::
                             dump[j][i].listing == Items(SortedSetKind, [], true)
  {
    AbortsIff(dump);
    hide EncodeAll, Encode, SelectedDbCommands, AbortsDb;
    var aof: Bytes := [];
    var j := 0;
    while j < |dump|
      invariant 0 <= j <= |dump| && forall i | 0 <= i < j :: !AbortsDb(dump[i])
      invariant aof + EncodeAll(SnapshotFrom(dump, j, k)) == EncodeAll(Snapshot(dump, k))
    {
      var next := RewriteSelectedDb(aof, dump[j], j, k);
      if next.None? {
        return None;
      }
      EncodeAllAppend(SelectedDbCommands(dump[j], j, k), SnapshotFrom(dump, j + 1, k));
      aof := next.value;
      j := j + 1;
    }
    NoneToEncode();
    assert aof == EncodeAll(Snapshot(dump, k));
    out := Some(aof);
  }

  method RewriteSelectedDb(r: Bytes, entries: seq<Entry>, j: nat, k: nat) returns (out: Option<Bytes>)
    requires k >= 1
    ensures out == if AbortsDb(entries) then None else Some(r + EncodeAll(SelectedDbCommands(entries, j, k)))
  {
    hide EncodeAll, EncodeArg, Header, DbCommands, AbortsOn;
    if |entries| == 0 {
      NoneToEncode();
      assert r == r + EncodeAll(SelectedDbCommands(entries, j, k));
      return Some(r);
    }
    var aof := r + (Header(STAR, 2) + EncodeArg(SELECT));
    aof := aof + EncodeArg(Dec(j));
    SelectCommand(j);
    EncodeAllAppend([[SELECT, Dec(j)]], DbCommands(entries, k));
    assert aof + EncodeAll(DbCommands(entries, k)) == r + EncodeAll(SelectedDbCommands(entries, j, k));
    out := RewriteDb(aof, entries, k);
  }

  lemma SelectCommand(j: nat)
    ensures EncodeAll([[SELECT, Dec(j)]]) == Header(STAR, 2) + EncodeArg(SELECT) + EncodeArg(Dec(j))
  {
    hide EncodeArg, Header;
    TwoArgs(SELECT, Dec(j));
    OneCommand([SELECT, Dec(j)]);
  }

  /**
   Rewriting yields a log, and one that preserves the dataset, exactly if there is no empty
   list, set, sorted set or hash: such a value is lost, or aborts the rewrite.
   */
  lemma RewriteExact(other: Other, dump: seq<seq<Entry>>, data: seq<Db>, k: nat)
    requires k >= 1 && DumpOf(dump, data) && 0 < |data| <= INT_MAX
    ensures !Aborts(dump) && Replay(other, Snapshot(dump, k), FreshMachine(|data|)).data == data
        <==> NoEmptyAggregates(data)
  {
    hide DumpOf, StrippedAll, NoEmptyAggregates, Replay, Aborts;
    SnapshotReplays(other, dump, data, k);
    StrippedIff(data);
    if NoEmptyAggregates(data) {
      NonEmptyNeverAborts(dump, data);
    }
  }

  // --- Everything emitted can be printed and parsed ---

  predicate Short(b: Bytes) {
    |b| <= LONG_MAX
  }

  predicate AllShort(args: seq<Bytes>) {
    forall i | 0 <= i < |args| :: Short(args[i])
  }

  predicate MapFits(m: map<Bytes, Bytes>) {
    forall e | e in m :: Short(e) && Short(m[e])
  }

  /** The strings of a value have lengths that fit a `long`. */
  predicate ValueFits(v: Value) {
    match v
    case Str(text) => Short(text)
    case List(items) => AllShort(items)
    case Set(members) => forall e | e in members :: Short(e)
    case SortedSet(scores) => MapFits(scores)
    case Hash(fields) => MapFits(fields)
  }

  predicate DbFits(db: Db) {
    forall key | key in db :: Short(key) && ValueFits(db[key])
  }

  lemma ItemsFit(kind: Kind, items: seq<Item>, v: Value)
    requires Lists(kind, items, v) && ValueFits(v)
    ensures forall i | 0 <= i < |items| :: AllShort(ItemArgs(kind, items[i]))
  {
    forall i | 0 <= i < |items|
      ensures AllShort(ItemArgs(kind, items[i]))
    {
      assert HasElem(items, items[i].elem);
      if kind.ListKind? {
        assert Short(v.items[i]);
      }
    }
  }

  lemma {:induction false} FlattenShort(groups: seq<seq<Bytes>>)
    requires forall i | 0 <= i < |groups| :: AllShort(groups[i])
    ensures AllShort(Flatten(groups))
  {
    if groups != [] {
      FlattenShort(groups[1..]);
    }
  }

  lemma {:induction false} ChunksPrintable(kind: Kind, key: Bytes, groups: seq<seq<Bytes>>, k: nat)
    requires k >= 1 && 2 + 2 * k <= INT_MAX && Short(key)
    requires Grouped(kind, groups) && forall i | 0 <= i < |groups| :: AllShort(groups[i])
    ensures AllPrintable(Chunks(kind, key, groups, k))
    decreases |groups|
  {
    hide AllShort;
    if groups != [] {
      var n := Min(k, |groups|);
      FlattenLength(kind, groups[..n]);
      FlattenShort(groups[..n]);
      assert Printable([NameOf(kind), key] + Flatten(groups[..n])) by {
        ChunkPrintable(kind, key, Flatten(groups[..n]));
      }
      ChunksPrintable(kind, key, groups[n..], k);
    }
  }

  lemma ChunkPrintable(kind: Kind, key: Bytes, args: seq<Bytes>)
    requires Short(key) && AllShort(args) && 2 + |args| <= INT_MAX
    ensures Printable([NameOf(kind), key] + args)
  {
  }

  lemma {:induction false} DbPrintable(entries: seq<Entry>, db: Db, k: nat)
    requires k >= 1 && 2 + 2 * k <= INT_MAX && From(entries, db) && DbFits(db)
    ensures AllPrintable(DbCommands(entries, k))
  {
    hide Printable, Chunks, Lists;
    if entries != [] {
      var e := entries[0];
      assert AllPrintable(EntryCommands(e, k)) by {
        EntryPrintable(e, db[e.key], k);
      }
      assert From(entries[1..], db);
      DbPrintable(entries[1..], db, k);
    }
  }

  lemma EntryPrintable(e: Entry, v: Value, k: nat)
    requires k >= 1 && 2 + 2 * k <= INT_MAX && Listed(e.listing, v) && Short(e.key) && ValueFits(v)
    ensures AllPrintable(EntryCommands(e, k))
  {
    match e.listing
    case Text(_) =>
    case Items(kind, items, _) =>
      ItemsFit(kind, items, v);
      ChunksPrintable(kind, e.key, Groups(kind, items), k);
  }

  lemma SelectPrintable(j: nat)
    requires j <= LONG_MAX
    ensures Printable([SELECT, Dec(j)])
  {
    DecShort(j);
  }

  lemma {:induction false} SnapshotPrintable(dump: seq<seq<Entry>>, data: seq<Db>, j: nat, k: nat)
    requires k >= 1 && 2 + 2 * k <= INT_MAX && DumpOf(dump, data) && |data| <= INT_MAX && j <= |data|
    requires forall i | 0 <= i < |data| :: DbFits(data[i])
    ensures AllPrintable(SnapshotFrom(dump, j, k))
    decreases |data| - j
  {
    hide Printable, DbFits, From;
    if j < |data| {
      SnapshotPrintable(dump, data, j + 1, k);
      SelectPrintable(j);
      DbPrintable(dump[j], data[j], k);
      assert AllPrintable(SelectedDbCommands(dump[j], j, k));
    }
  }
}
