/**
 Log rewriting of `aof.c`: `rewriteAppendOnlyFile` and the functions it uses to emit
 lists, sets, sorted sets and hashes in chunks, against the replay of a log by
 `loadAppendOnlyFile`.

 Datasets have no expiry times. Scores are their printed text. Commands that rewriting
 does not emit act on the dataset through a function `other` that is left open.
 */
module AofRewrite {
  import opened Common
  import opened AofFormat

  datatype Value =
    | Str(text: Bytes)
    | List(items: seq<Bytes>)
    | Set(members: set<Bytes>)
    | SortedSet(scores: map<Bytes, Bytes>)
    | Hash(fields: map<Bytes, Bytes>)

  type Db = map<Bytes, Value>

  /** The client that replays: the databases, and the one it has selected. */
  datatype Machine = Machine(data: seq<Db>, selected: nat)

  /** What all other write commands do to the dataset, given the selected database. */
  type Other = (Command, nat, seq<Db>) -> seq<Db>

  const SELECT: Bytes := [83, 69, 76, 69, 67, 84]
  const SET: Bytes := [83, 69, 84]
  const RPUSH: Bytes := [82, 80, 85, 83, 72]
  const SADD: Bytes := [83, 65, 68, 68]
  const ZADD: Bytes := [90, 65, 68, 68]
  const HMSET: Bytes := [72, 77, 83, 69, 84]

  lemma NamesDiffer()
    ensures SELECT != SET && SELECT != RPUSH && SELECT != SADD && SELECT != ZADD && SELECT != HMSET
    ensures SET != RPUSH && SET != SADD && SET != ZADD && SET != HMSET
    ensures RPUSH != SADD && RPUSH != ZADD && RPUSH != HMSET
    ensures SADD != ZADD && SADD != HMSET
    ensures ZADD != HMSET
  {
    assert |SELECT| == 6 && |SET| == 3 && |RPUSH| == |HMSET| == 5 && |SADD| == |ZADD| == 4;
    assert RPUSH[0] != HMSET[0] && SADD[0] != ZADD[0];
  }

  // --- The commands that rebuild objects ---

  datatype Kind = ListKind | SetKind | SortedSetKind | HashKind

  function NameOf(kind: Kind): Bytes {
    match kind
    case ListKind => RPUSH
    case SetKind => SADD
    case SortedSetKind => ZADD
    case HashKind => HMSET
  }

  /** The arguments per item: sorted sets and hashes take pairs. */
  function Width(kind: Kind): nat {
    if kind.SortedSetKind? || kind.HashKind? then 2 else 1
  }

  /** ZADD takes the score before the member. */
  function AddScores(m: map<Bytes, Bytes>, args: seq<Bytes>): map<Bytes, Bytes>
    decreases |args|
  {
    if |args| < 2 then m else AddScores(m[args[1] := args[0]], args[2..])
  }

  /** HMSET takes the field before the value. */
  function AddFields(m: map<Bytes, Bytes>, args: seq<Bytes>): map<Bytes, Bytes>
    decreases |args|
  {
    if |args| < 2 then m else AddFields(m[args[0] := args[1]], args[2..])
  }

  /** The value of a key after adding to it; adding to a value of another kind is an error that changes nothing. */
  function Add(kind: Kind, was: Option<Value>, args: seq<Bytes>): Option<Value> {
    match kind
    case ListKind =>
      if was.None? then Some(List(args)) else if was.value.List? then Some(List(was.value.items + args)) else was
    case SetKind =>
      if was.None? then Some(Set(set x | x in args))
      else if was.value.Set? then Some(Set(was.value.members + set x | x in args)) else was
    case SortedSetKind =>
      if was.None? then Some(SortedSet(AddScores(map[], args)))
      else if was.value.SortedSet? then Some(SortedSet(AddScores(was.value.scores, args))) else was
    case HashKind =>
      if was.None? then Some(Hash(AddFields(map[], args)))
      else if was.value.Hash? then Some(Hash(AddFields(was.value.fields, args))) else was
  }

  function Get(db: Db, key: Bytes): Option<Value> {
    if key in db then Some(db[key]) else None
  }

  function Put(m: Machine, key: Bytes, v: Option<Value>): (m': Machine)
    requires m.selected < |m.data|
    ensures m'.selected == m.selected && |m'.data| == |m.data|
  {
    if v.None? then m else m.(data := m.data[m.selected := m.data[m.selected][key := v.value]])
  }

  predicate Adds(c: Command, kind: Kind) {
    |c| >= 2 + Width(kind) && c[0] == NameOf(kind) && |c| % Width(kind) == 0
  }

  function Exec(other: Other, c: Command, m: Machine): (m': Machine)
    requires m.selected < |m.data|
    ensures m'.selected < |m'.data| == |m.data|
  {
    if |c| == 2 && c[0] == SELECT then
      var id := Strtol(c[1]);
      if 0 <= id < |m.data| then m.(selected := id) else m
    else if |c| == 3 && c[0] == SET then Put(m, c[1], Some(Str(c[2])))
    else if Adds(c, ListKind) then Put(m, c[1], Add(ListKind, Get(m.data[m.selected], c[1]), c[2..]))
    else if Adds(c, SetKind) then Put(m, c[1], Add(SetKind, Get(m.data[m.selected], c[1]), c[2..]))
    else if Adds(c, SortedSetKind) then Put(m, c[1], Add(SortedSetKind, Get(m.data[m.selected], c[1]), c[2..]))
    else if Adds(c, HashKind) then Put(m, c[1], Add(HashKind, Get(m.data[m.selected], c[1]), c[2..]))
    else
      var data := other(c, m.selected, m.data);
      if |data| == |m.data| then m.(data := data) else m
  }

  function Replay(other: Other, cs: seq<Command>, m: Machine): (m': Machine)
    requires m.selected < |m.data|
    ensures m'.selected < |m'.data| == |m.data|
  {
    if cs == [] then m else Replay(other, cs[1..], Exec(other, cs[0], m))
  }

  lemma {:induction false} ReplayAppend(other: Other, a: seq<Command>, b: seq<Command>, m: Machine)
    requires m.selected < |m.data|
    ensures Replay(other, a + b, m) == Replay(other, b, Replay(other, a, m))
  {
    hide Exec;
    if a == [] {
      assert a + b == b;
    } else {
      assert (a + b)[0] == a[0] && (a + b)[1..] == a[1..] + b;
      ReplayAppend(other, a[1..], b, Exec(other, a[0], m));
    }
  }

  lemma ExecSelect(other: Other, id: nat, m: Machine)
    requires m.selected < |m.data| && id < |m.data| && id <= LONG_MAX
    ensures Exec(other, [SELECT, Dec(id)], m) == m.(selected := id)
  {
    DigitsDec(id, []);
    assert Dec(id) + [] == Dec(id);
    assert IsDigit(Dec(id)[0]);
    assert Strtol(Dec(id)) == id;
  }

  lemma ExecSet(other: Other, key: Bytes, text: Bytes, m: Machine)
    requires m.selected < |m.data|
    ensures Exec(other, [SET, key, text], m) == Put(m, key, Some(Str(text)))
  {
    NamesDiffer();
  }

  lemma ExecAdd(other: Other, kind: Kind, key: Bytes, args: seq<Bytes>, m: Machine)
    requires m.selected < |m.data| && |args| >= Width(kind) && |args| % Width(kind) == 0
    ensures Exec(other, [NameOf(kind), key] + args, m) == Put(m, key, Add(kind, Get(m.data[m.selected], key), args))
  {
    NamesDiffer();
    var c := [NameOf(kind), key] + args;
    assert c[0] == NameOf(kind) && c[1] == key && c[2..] == args;
    assert Adds(c, kind);
  }

  // --- Adding in pieces ---

  lemma {:induction false} AddScoresAppend(m: map<Bytes, Bytes>, a: seq<Bytes>, b: seq<Bytes>)
    requires |a| % 2 == 0
    ensures AddScores(m, a + b) == AddScores(AddScores(m, a), b)
    decreases |a|
  {
    if a == [] {
      assert a + b == b;
    } else {
      assert (a + b)[2..] == a[2..] + b;
      AddScoresAppend(m[a[1] := a[0]], a[2..], b);
    }
  }

  lemma {:induction false} AddFieldsAppend(m: map<Bytes, Bytes>, a: seq<Bytes>, b: seq<Bytes>)
    requires |a| % 2 == 0
    ensures AddFields(m, a + b) == AddFields(AddFields(m, a), b)
    decreases |a|
  {
    if a == [] {
      assert a + b == b;
    } else {
      assert (a + b)[2..] == a[2..] + b;
      AddFieldsAppend(m[a[0] := a[1]], a[2..], b);
    }
  }

  lemma AddAppend(kind: Kind, was: Option<Value>, a: seq<Bytes>, b: seq<Bytes>)
    requires |a| % Width(kind) == 0
    ensures Add(kind, Add(kind, was, a), b) == Add(kind, was, a + b)
  {
    match kind
    case ListKind =>
      assert was.Some? && was.value.List? ==> was.value.items + a + b == was.value.items + (a + b);
    case SetKind =>
      assert (set x | x in a + b) == (set x | x in a) + (set x | x in b);
      assert was.Some? && was.value.Set? ==>
          was.value.members + (set x | x in a) + (set x | x in b)
          == was.value.members + ((set x | x in a) + (set x | x in b));
    case SortedSetKind =>
      AddScoresAppend(if was.Some? && was.value.SortedSet? then was.value.scores else map[], a, b);
    case HashKind =>
      AddFieldsAppend(if was.Some? && was.value.Hash? then was.value.fields else map[], a, b);
  }

  // --- Chunks ---

  function Flatten(groups: seq<seq<Bytes>>): seq<Bytes> {
    if groups == [] then [] else groups[0] + Flatten(groups[1..])
  }

  function Min(a: nat, b: nat): nat {
    if a < b then a else b
  }

  /** One command for every `k` items, the last one with what is left. */
  function Chunks(kind: Kind, key: Bytes, groups: seq<seq<Bytes>>, k: nat): seq<Command>
    requires k >= 1
    decreases |groups|
  {
    if groups == [] then []
    else
      var n := Min(k, |groups|);
      [[NameOf(kind), key] + Flatten(groups[..n])] + Chunks(kind, key, groups[n..], k)
  }

  predicate Grouped(kind: Kind, groups: seq<seq<Bytes>>) {
    forall i | 0 <= i < |groups| :: |groups[i]| == Width(kind)
  }

  lemma {:induction false} FlattenLength(kind: Kind, groups: seq<seq<Bytes>>)
    requires Grouped(kind, groups)
    ensures |Flatten(groups)| == |groups| * Width(kind)
  {
    if groups != [] {
      FlattenLength(kind, groups[1..]);
    }
  }

  /** Every command but the last one has `k` items, and the last one has at most `k`. */
  lemma {:induction false} ChunkSizes(kind: Kind, key: Bytes, groups: seq<seq<Bytes>>, k: nat, i: nat)
    requires k >= 1 && Grouped(kind, groups) && i < |Chunks(kind, key, groups, k)|
    ensures var cs := Chunks(kind, key, groups, k);
            && (i + 1 < |cs| ==> |cs[i]| == 2 + k * Width(kind))
            && 2 < |cs[i]| <= 2 + k * Width(kind)
    decreases |groups|
  {
    hide Flatten, NameOf;
    var n := Min(k, |groups|);
    FlattenLength(kind, groups[..n]);
    MultipleOrder(n, k, Width(kind));
    if i > 0 {
      ChunkSizes(kind, key, groups[n..], k, i - 1);
    }
  }

  lemma MultipleOrder(a: nat, b: nat, w: nat)
    requires 0 < a <= b && 1 <= w <= 2
    ensures 0 < a * w <= b * w
  {
  }

  lemma {:induction false} FlattenAppend(a: seq<seq<Bytes>>, b: seq<seq<Bytes>>)
    ensures Flatten(a + b) == Flatten(a) + Flatten(b)
  {
    if a == [] {
      assert a + b == b;
    } else {
      assert (a + b)[0] == a[0] && (a + b)[1..] == a[1..] + b;
      FlattenAppend(a[1..], b);
    }
  }

  lemma PutPut(m: Machine, key: Bytes, v: Option<Value>, v': Option<Value>)
    requires m.selected < |m.data| && v.Some? && v'.Some?
    ensures Put(Put(m, key, v), key, v') == Put(m, key, v')
    ensures Get(Put(m, key, v).data[m.selected], key) == v
  {
    var db := m.data[m.selected];
    assert db[key := v.value][key := v'.value] == db[key := v'.value];
    assert m.data[m.selected := db[key := v.value]][m.selected := db[key := v'.value]]
        == m.data[m.selected := db[key := v'.value]];
  }

  /** Replaying the chunks adds all the items, in order, whatever the chunk size. */
  lemma {:induction false} ReplayChunks(
    other: Other, kind: Kind, key: Bytes, groups: seq<seq<Bytes>>, k: nat, m: Machine)
    requires k >= 1 && Grouped(kind, groups) && groups != [] && m.selected < |m.data|
    ensures Replay(other, Chunks(kind, key, groups, k), m)
         == Put(m, key, Add(kind, Get(m.data[m.selected], key), Flatten(groups)))
    decreases |groups|
  {
    hide Exec, Add, Put, Get;
    var n := Min(k, |groups|);
    var was := Get(m.data[m.selected], key);
    var args := Flatten(groups[..n]);
    var rest := Chunks(kind, key, groups[n..], k);
    FlattenLength(kind, groups[..n]);
    ExecAdd(other, kind, key, args, m);
    var m1 := Put(m, key, Add(kind, was, args));
    assert Chunks(kind, key, groups, k)[0] == [NameOf(kind), key] + args;
    assert Chunks(kind, key, groups, k)[1..] == rest;
    assert Replay(other, Chunks(kind, key, groups, k), m) == Replay(other, rest, m1);
    assert groups[..n] + groups[n..] == groups;
    if n == |groups| {
      assert groups[n..] == [] && groups[..n] == groups;
    } else {
      FlattenAppend(groups[..n], groups[n..]);
      AddAppend(kind, was, args, Flatten(groups[n..]));
      ChunkThen(kind, key, groups, n, k, m);
      ReplayChunks(other, kind, key, groups[n..], k, m1);
    }
  }

  lemma ChunkThen(kind: Kind, key: Bytes, groups: seq<seq<Bytes>>, n: nat, k: nat, m: Machine)
    requires m.selected < |m.data| && n <= |groups|
    ensures var was := Get(m.data[m.selected], key);
            var m1 := Put(m, key, Add(kind, was, Flatten(groups[..n])));
            && m1.selected == m.selected < |m1.data|
            && Put(m1, key, Add(kind, Get(m1.data[m1.selected], key), Flatten(groups[n..])))
               == Put(m, key, Add(kind, Add(kind, was, Flatten(groups[..n])), Flatten(groups[n..])))
  {
    var was := Get(m.data[m.selected], key);
    var v := Add(kind, was, Flatten(groups[..n]));
    PutPut(m, key, v, Add(kind, v, Flatten(groups[n..])));
  }

  // --- Emitting the chunks ---

  /** An item as the iteration yields it: an element, or a member with its score, or a field with its value. */
  datatype Item = Item(elem: Bytes, attr: Bytes)

  function ItemArgs(kind: Kind, item: Item): (args: seq<Bytes>)
    ensures |args| == Width(kind)
  {
    match kind
    case ListKind => [item.elem]
    case SetKind => [item.elem]
    case SortedSetKind => [item.attr, item.elem]
    case HashKind => [item.elem, item.attr]
  }

  function Groups(kind: Kind, items: seq<Item>): (groups: seq<seq<Bytes>>)
    ensures Grouped(kind, groups) && |groups| == |items|
    ensures forall i | 0 <= i < |items| :: groups[i] == ItemArgs(kind, items[i])
  {
    seq(|items|, i requires 0 <= i < |items| => ItemArgs(kind, items[i]))
  }

  /** The command for a single item: scores before members, and fields before values. */
  lemma OneItemCommands(key: Bytes, elem: Bytes, attr: Bytes, k: nat)
    requires k >= 1
    ensures Chunks(ListKind, key, Groups(ListKind, [Item(elem, attr)]), k) == [[RPUSH, key, elem]]
    ensures Chunks(SetKind, key, Groups(SetKind, [Item(elem, attr)]), k) == [[SADD, key, elem]]
    ensures Chunks(SortedSetKind, key, Groups(SortedSetKind, [Item(elem, attr)]), k) == [[ZADD, key, attr, elem]]
    ensures Chunks(HashKind, key, Groups(HashKind, [Item(elem, attr)]), k) == [[HMSET, key, elem, attr]]
  {
    SingleChunk(ListKind, key, Item(elem, attr), k);
    SingleChunk(SetKind, key, Item(elem, attr), k);
    SingleChunk(SortedSetKind, key, Item(elem, attr), k);
    SingleChunk(HashKind, key, Item(elem, attr), k);
    assert [RPUSH, key] + [elem] == [RPUSH, key, elem] && [SADD, key] + [elem] == [SADD, key, elem];
    assert [ZADD, key] + [attr, elem] == [ZADD, key, attr, elem];
    assert [HMSET, key] + [elem, attr] == [HMSET, key, elem, attr];
  }

  lemma SingleChunk(kind: Kind, key: Bytes, item: Item, k: nat)
    requires k >= 1
    ensures Chunks(kind, key, Groups(kind, [item]), k) == [[NameOf(kind), key] + ItemArgs(kind, item)]
  {
    hide NameOf, ItemArgs;
    var groups := Groups(kind, [item]);
    assert groups == [ItemArgs(kind, item)];
    assert groups[..1] == groups && groups[1..] == [];
    assert Flatten(groups) == ItemArgs(kind, item) + Flatten([]) == ItemArgs(kind, item);
    assert Chunks(kind, key, groups[1..], k) == [];
  }

  /** What is still to be written of the items of an open chunk that has `count` of its `k` items, and after it. */
  ghost function InChunk(kind: Kind, key: Bytes, rest: seq<seq<Bytes>>, k: nat, count: nat): Bytes
    requires count < k
  {
    var n := Min(k - count, |rest|);
    EncodeArgs(Flatten(rest[..n])) + EncodeAll(Chunks(kind, key, rest[n..], k))
  }

  ghost function Pending(kind: Kind, key: Bytes, rest: seq<seq<Bytes>>, k: nat, count: nat): Bytes
    requires count < k
  {
    if count == 0 then EncodeAll(Chunks(kind, key, rest, k)) else InChunk(kind, key, rest, k, count)
  }

  /** The header of a chunk announces as many arguments as follow. */
  lemma OpenChunk(kind: Kind, key: Bytes, rest: seq<seq<Bytes>>, k: nat)
    requires k >= 1 && Grouped(kind, rest) && rest != []
    ensures Pending(kind, key, rest, k, 0)
         == Header(STAR, 2 + Min(k, |rest|) * Width(kind)) + EncodeArg(NameOf(kind)) + EncodeArg(key)
            + InChunk(kind, key, rest, k, 0)
  {
    hide EncodeArg, EncodeArgs, EncodeAll, Chunks, Header, Flatten, NameOf;
    var n := Min(k, |rest|);
    var args := Flatten(rest[..n]);
    var c := [NameOf(kind), key] + args;
    FlattenLength(kind, rest[..n]);
    assert |c| == 2 + n * Width(kind);
    EncodeArgsAppend([NameOf(kind), key], args);
    TwoArgs(NameOf(kind), key);
    FirstChunk(kind, key, rest, k);
  }

  lemma FirstChunk(kind: Kind, key: Bytes, rest: seq<seq<Bytes>>, k: nat)
    requires k >= 1 && rest != []
    ensures var n := Min(k, |rest|);
            EncodeAll(Chunks(kind, key, rest, k))
            == Encode([NameOf(kind), key] + Flatten(rest[..n])) + EncodeAll(Chunks(kind, key, rest[n..], k))
  {
    hide Encode, Flatten, NameOf;
    var n := Min(k, |rest|);
    var cs := Chunks(kind, key, rest, k);
    assert cs[0] == [NameOf(kind), key] + Flatten(rest[..n]) && cs[1..] == Chunks(kind, key, rest[n..], k);
  }

  lemma TwoArgs(a: Bytes, b: Bytes)
    ensures EncodeArgs([a, b]) == EncodeArg(a) + EncodeArg(b)
    ensures EncodeArgs([a]) == EncodeArg(a)
  {
    assert [a, b][1..] == [b] && [b][1..] == [] && [a][1..] == [];
    assert EncodeArgs([b]) == EncodeArg(b) + EncodeArgs([]);
  }

  lemma FlattenFirst(rest: seq<seq<Bytes>>, n: nat)
    requires 1 <= n <= |rest|
    ensures EncodeArgs(Flatten(rest[..n])) == EncodeArgs(rest[0]) + EncodeArgs(Flatten(rest[1..][..n - 1]))
  {
    hide EncodeArgs;
    assert rest[..n][0] == rest[0] && rest[..n][1..] == rest[1..][..n - 1];
    EncodeArgsAppend(rest[0], Flatten(rest[1..][..n - 1]));
  }

  lemma WriteItem(kind: Kind, key: Bytes, rest: seq<seq<Bytes>>, k: nat, count: nat)
    requires count < k && rest != []
    ensures InChunk(kind, key, rest, k, count)
         == EncodeArgs(rest[0]) + Pending(kind, key, rest[1..], k, if count + 1 == k then 0 else count + 1)
  {
    hide EncodeAll, Chunks, EncodeArgs, Flatten;
    var n := Min(k - count, |rest|);
    FlattenFirst(rest, n);
    assert rest[1..][n - 1..] == rest[n..];
    if count + 1 == k {
      assert rest[1..][..0] == [];
      NoArgsToEncode();
    }
  }

  lemma NoArgsToEncode()
    ensures EncodeArgs(Flatten([])) == []
  {
  }

  lemma NothingPending(kind: Kind, key: Bytes, k: nat, count: nat)
    requires count < k
    ensures Pending(kind, key, [], k, count) == []
  {
  }

  method WriteChunkHeader(r: Bytes, kind: Kind, key: Bytes, cmdItems: nat) returns (out: Bytes)
    ensures out == r + (Header(STAR, 2 + cmdItems * Width(kind)) + EncodeArg(NameOf(kind)) + EncodeArg(key))
  {
    hide Header, EncodeArg, NameOf, Width;
    out := r + Header(STAR, 2 + cmdItems * Width(kind));
    out := out + EncodeArg(NameOf(kind));
    out := out + EncodeArg(key);
  }

  method WriteItemArgs(r: Bytes, kind: Kind, item: Item) returns (out: Bytes)
    ensures out == r + EncodeArgs(ItemArgs(kind, item))
  {
    hide EncodeArg, EncodeArgs;
    TwoArgs(item.elem, item.attr);
    TwoArgs(item.attr, item.elem);
    match kind {
      case ListKind => out := r + EncodeArg(item.elem);
      case SetKind => out := r + EncodeArg(item.elem);
      case SortedSetKind =>
        out := r + EncodeArg(item.attr);
        out := out + EncodeArg(item.elem);
      case HashKind =>
        out := r + EncodeArg(item.elem);
        out := out + EncodeArg(item.attr);
    }
  }

  /**
   The loop of `rewriteListObject`, `rewriteSetObject`, `rewriteSortedSetObject` and
   `rewriteHashObject`, for any number `k` of items per command.
   */
  method RewriteAggregate(r: Bytes, kind: Kind, key: Bytes, items: seq<Item>, k: nat) returns (out: Bytes)
    requires k >= 1
    ensures out == r + EncodeAll(Chunks(kind, key, Groups(kind, items), k))
  {
    hide EncodeAll, EncodeArg, EncodeArgs, ItemArgs, Chunks, InChunk, Pending, Header, NameOf, Width, Groups;
    ghost var groups := Groups(kind, items);
    PendingStart(kind, key, groups, k);
    ghost var all := r + Pending(kind, key, groups, k, 0);
    out := r;
    var count, left, j := 0, |items|, 0;
    assert groups[0..] == groups;
    while j < |items|
      invariant 0 <= j <= |items| && left == |items| - j && 0 <= count < k
      invariant out + Pending(kind, key, groups[j..], k, count) == all
    {
      ghost var rest := groups[j..];
      if count == 0 {
        var cmdItems := if left > k then k else left;
        out := WriteChunkHeader(out, kind, key, cmdItems);
        OpenChunk(kind, key, rest, k);
      } else {
        PendingInside(kind, key, rest, k, count);
      }
      assert out + InChunk(kind, key, rest, k, count) == all;
      WriteItem(kind, key, rest, k, count);
      out := WriteItemArgs(out, kind, items[j]);
      assert rest[1..] == groups[j + 1..] && rest[0] == ItemArgs(kind, items[j]);
      count := count + 1;
      if count == k {
        count := 0;
      }
      left := left - 1;
      j := j + 1;
      assert out + Pending(kind, key, groups[j..], k, count) == all;
    }
    assert groups[j..] == [];
    NothingPending(kind, key, k, count);
  }

  lemma PendingStart(kind: Kind, key: Bytes, rest: seq<seq<Bytes>>, k: nat)
    requires k >= 1
    ensures Pending(kind, key, rest, k, 0) == EncodeAll(Chunks(kind, key, rest, k))
  {
  }

  lemma PendingInside(kind: Kind, key: Bytes, rest: seq<seq<Bytes>>, k: nat, count: nat)
    requires 0 < count < k
    ensures Pending(kind, key, rest, k, count) == InChunk(kind, key, rest, k, count)
  {
  }
}
