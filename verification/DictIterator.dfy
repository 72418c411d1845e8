/**
 The safe iterator of `dict.c`. While one is running, rehash steps are suspended, and
 lookups, insertions, a newly started expansion and the deletion of the entry just
 returned may happen between calls. The result is about whole iterations: a key that
 is present throughout is returned exactly once.
 */
module DictIterator {
  import opened Common
  import opened Words
  import opened DictTables
  import opened Dicts

  /**
   A `dictIterator`. Entries are named by their keys: `entry` is the one returned last,
   `nextEntry` the one that followed it in its chain when it was returned.
   */
  datatype Iter<K> = Iter(table: nat, index: int, entry: Option<K>, nextEntry: Option<K>)

  function Start<K>(): Iter<K> {
    Iter(0, -1, None, None)
  }

  // --- Counting what is still to come ---

  ghost function Count<K, V>(c: Chain<K, V>, x: K): nat {
    if c == [] then 0 else Digit(c[0].key == x) + Count(c[1..], x)
  }

  ghost function FlatCount<K, V>(bs: seq<Chain<K, V>>, x: K): nat {
    if bs == [] then 0 else Count(bs[0], x) + FlatCount(bs[1..], x)
  }

  /** The chain from the entry with key `k` on. */
  function From<K(==), V>(c: Chain<K, V>, k: K): Chain<K, V> {
    if c == [] || c[0].key == k then c else From(c[1..], k)
  }

  function Rest<K(==), V>(c: Chain<K, V>, next: Option<K>): Chain<K, V> {
    if next.None? then [] else From(c, next.value)
  }

  /** The iterator points at an entry of a bucket, and its saved successor is still in that bucket. */
  ghost predicate OnEntry<K, V>(s: State<K, V>, it: Iter<K>) {
    && it.entry.Some?
    && it.table < 2
    && (it.table == 1 ==> s.rehashidx != -1)
    && 0 <= it.index < |TableOf(s, it.table).buckets|
    && it.nextEntry != it.entry
    && (it.nextEntry.Some? ==>
          exists j :: 0 <= j < |TableOf(s, it.table).buckets[it.index]| &&
                      TableOf(s, it.table).buckets[it.index][j].key == it.nextEntry.value)
  }

  /** How many entries with key `x` lie ahead when bucket `index` of a table has been dealt with. */
  ghost function AheadOf<K, V>(s: State<K, V>, table: nat, index: int, x: K): nat
    requires -1 <= index < |TableOf(s, table).buckets|
  {
    FlatCount(TableOf(s, table).buckets[index + 1..], x) +
    if table == 0 && s.rehashidx != -1 then FlatCount(s.ht1.buckets, x) else 0
  }

  /** How many entries with key `x` are still to be returned. */
  ghost function Remaining<K, V>(s: State<K, V>, it: Iter<K>, x: K): nat
    requires it == Start() || OnEntry(s, it)
  {
    (if it.entry.None? then 0 else Count(Rest(TableOf(s, it.table).buckets[it.index], it.nextEntry), x)) +
    AheadOf(s, it.table, it.index, x)
  }

  // --- One call ---

  function Successor<K(==), V>(c: Chain<K, V>): Option<K> {
    if |c| > 1 then Some(c[1].key) else None
  }

  /** The first entry after bucket `index` of a table, and the iterator that has just returned it. */
  function Advance<K(==), V>(s: State<K, V>, table: nat, index: int): (r: Option<Iter<K>>)
    requires table < 2 && -1 <= index < |TableOf(s, table).buckets|
    requires s.rehashidx != -1 ==> |s.ht1.buckets| > 0
    ensures r.Some? ==> r.value.entry.Some?
    decreases 2 - table, |TableOf(s, table).buckets| - index
  {
    var t := TableOf(s, table);
    if index + 1 < |t.buckets| then
      if t.buckets[index + 1] != [] then
        Some(Iter(table, index + 1, Some(t.buckets[index + 1][0].key), Successor(t.buckets[index + 1])))
      else Advance(s, table, index + 1)
    else if s.rehashidx != -1 && table == 0 then
      if s.ht1.buckets[0] != [] then
        Some(Iter(1, 0, Some(s.ht1.buckets[0][0].key), Successor(s.ht1.buckets[0])))
      else Advance(s, 1, 0)
    else None
  }

  /** What `dictNext` does: follow the saved successor, or go on to the next buckets. */
  function After<K(==), V>(s: State<K, V>, it: Iter<K>): (r: Option<Iter<K>>)
    requires it.table < 2 && -1 <= it.index < |TableOf(s, it.table).buckets|
    requires s.rehashidx != -1 ==> |s.ht1.buckets| > 0
    requires it.entry.Some? ==> it.index >= 0
    ensures r.Some? ==> r.value.entry.Some?
  {
    if it.entry.Some? && it.nextEntry.Some? then
      var c := From(TableOf(s, it.table).buckets[it.index], it.nextEntry.value);
      Some(it.(entry := it.nextEntry, nextEntry := Successor(c)))
    else Advance(s, it.table, it.index)
  }

  lemma {:induction false} FromStartsAt<K, V>(c: Chain<K, V>, k: K, j: nat)
    requires j < |c| && c[j].key == k
    ensures From(c, k) != [] && From(c, k)[0].key == k
  {
    if c[0].key != k {
      FromStartsAt(c[1..], k, j - 1);
    }
  }

  lemma {:induction false} FromSuccessor<K, V>(c: Chain<K, V>, k: K)
    requires forall j, l | 0 <= j < l < |c| :: c[j].key != c[l].key
    requires |From(c, k)| > 1
    ensures From(c, From(c, k)[1].key) == From(c, k)[1..]
    ensures From(c, k)[0].key != From(c, k)[1].key
    ensures exists j :: 0 <= j < |c| && c[j].key == From(c, k)[1].key
  {
    if c[0].key == k {
      assert c[1..][0].key == c[1].key;
      assert From(c, c[1].key) == From(c[1..], c[1].key) == c[1..];
    } else {
      FromSuccessor(c[1..], k);
      var j :| 0 <= j < |c[1..]| && c[1..][j].key == From(c, k)[1].key;
      assert c[j + 1].key == From(c, k)[1].key;
    }
  }

  /** After returning the head of a suffix of a chain, the rest of that suffix is still to come. */
  lemma RestAfter<K, V>(c: Chain<K, V>, k: K, x: K)
    requires forall j, l | 0 <= j < l < |c| :: c[j].key != c[l].key
    requires From(c, k) != [] && From(c, k)[0].key == k
    ensures Count(From(c, k), x) == Digit(k == x) + Count(Rest(c, Successor(From(c, k))), x)
    ensures Successor(From(c, k)) != Some(k)
    ensures Successor(From(c, k)).Some? ==>
              exists j :: 0 <= j < |c| && c[j].key == Successor(From(c, k)).value
  {
    if |From(c, k)| > 1 {
      FromSuccessor(c, k);
    } else {
      assert From(c, k)[1..] == [];
    }
  }

  lemma ChainKeysDistinct<K(!new), V(!new)>(hash: K -> nat, s: State<K, V>, table: nat, i: nat)
    requires StateValid(hash, s) && i < |TableOf(s, table).buckets|
    ensures var c := TableOf(s, table).buckets[i];
            forall j, l | 0 <= j < l < |c| :: c[j].key != c[l].key
  {
    assert ChainValid(hash, |TableOf(s, table).buckets|, i, TableOf(s, table).buckets[i]);
  }

  /** Entering a bucket: its head is returned, the rest of it and what lies beyond are still to come. */
  lemma EnterBucket<K(!new), V(!new)>(hash: K -> nat, s: State<K, V>, table: nat, index: nat, x: K)
    requires StateValid(hash, s) && table < 2 && (table == 1 ==> s.rehashidx != -1)
    requires index < |TableOf(s, table).buckets| && TableOf(s, table).buckets[index] != []
    ensures var c := TableOf(s, table).buckets[index];
            var it := Iter(table, index, Some(c[0].key), Successor(c));
            && OnEntry(s, it)
            && Count(c, x) + AheadOf(s, table, index, x) == Digit(c[0].key == x) + Remaining(s, it, x)
  {
    var c := TableOf(s, table).buckets[index];
    ChainKeysDistinct(hash, s, table, index);
    RestAfter(c, c[0].key, x);
  }

  lemma {:induction false} AdvanceReturns<K(!new), V(!new)>(hash: K -> nat, s: State<K, V>, table: nat, index: int, x: K)
    requires StateValid(hash, s) && table < 2 && (table == 1 ==> s.rehashidx != -1)
    requires -1 <= index < |TableOf(s, table).buckets|
    ensures var r := Advance(s, table, index);
            if r.None? then AheadOf(s, table, index, x) == 0
            else
              && OnEntry(s, r.value)
              && AheadOf(s, table, index, x) == Digit(r.value.entry.value == x) + Remaining(s, r.value, x)
    decreases 2 - table, |TableOf(s, table).buckets| - index
  {
    var t := TableOf(s, table);
    if index + 1 < |t.buckets| {
      assert t.buckets[index + 1..][0] == t.buckets[index + 1];
      assert t.buckets[index + 1..][1..] == t.buckets[index + 2..];
      assert AheadOf(s, table, index, x) == Count(t.buckets[index + 1], x) + AheadOf(s, table, index + 1, x);
      if t.buckets[index + 1] != [] {
        EnterBucket(hash, s, table, index + 1, x);
      } else {
        AdvanceReturns(hash, s, table, index + 1, x);
      }
    } else {
      assert t.buckets[index + 1..] == [];
      if s.rehashidx != -1 && table == 0 {
        assert s.ht1.buckets[0 + 1..] == s.ht1.buckets[1..];
        assert AheadOf(s, table, index, x) == Count(s.ht1.buckets[0], x) + AheadOf(s, 1, 0, x);
        if s.ht1.buckets[0] != [] {
          EnterBucket(hash, s, 1, 0, x);
        } else {
          AdvanceReturns(hash, s, 1, 0, x);
        }
      }
    }
  }

  /** A call returns one of the entries still to come, and is left with the others. */
  lemma AfterReturns<K(!new), V(!new)>(hash: K -> nat, s: State<K, V>, it: Iter<K>, x: K)
    requires StateValid(hash, s) && (it == Start() || OnEntry(s, it))
    ensures var r := After(s, it);
            if r.None? then Remaining(s, it, x) == 0
            else
              && OnEntry(s, r.value)
              && Remaining(s, it, x) == Digit(r.value.entry.value == x) + Remaining(s, r.value, x)
  {
    if it.entry.Some? && it.nextEntry.Some? {
      var c, k := TableOf(s, it.table).buckets[it.index], it.nextEntry.value;
      ChainKeysDistinct(hash, s, it.table, it.index);
      var j :| 0 <= j < |c| && c[j].key == k;
      FromStartsAt(c, k, j);
      RestAfter(c, k, x);
    } else {
      AdvanceReturns(hash, s, it.table, it.index, x);
    }
  }

  // --- What may happen between calls ---

  /** A lookup, an insertion, an overwrite, a newly started expansion, or the deletion of the last entry returned. */
  ghost predicate SafeOp<K(!new), V(!new)>(hash: K -> nat, s: State<K, V>, s': State<K, V>, last: Option<K>) {
    || ExpandedFrom(hash, s, s')
    || (exists k :: Inserted(hash, s, s', k))
    || (exists k :: Overwritten(s, s', k))
    || (last.Some? && Unlinked(s, s', last.value))
  }

  lemma {:induction false} CountAppend<K, V>(c: Chain<K, V>, c': Chain<K, V>, x: K)
    ensures Count(c + c', x) == Count(c, x) + Count(c', x)
  {
    if c == [] {
      assert c + c' == c';
    } else {
      CountAppend(c[1..], c', x);
      assert (c + c')[1..] == c[1..] + c';
    }
  }

  lemma {:induction false} FlatCountUpdate<K, V>(bs: seq<Chain<K, V>>, i: nat, c: Chain<K, V>, x: K)
    requires i < |bs| && Count(c, x) == Count(bs[i], x)
    ensures FlatCount(bs[i := c], x) == FlatCount(bs, x)
  {
    if i == 0 {
      assert bs[i := c][1..] == bs[1..];
    } else {
      FlatCountUpdate(bs[1..], i - 1, c, x);
      assert bs[i := c][1..] == bs[1..][i - 1 := c];
    }
  }

  lemma SuffixCountUpdate<K, V>(bs: seq<Chain<K, V>>, i: nat, c: Chain<K, V>, from: nat, x: K)
    requires i < |bs| && from <= |bs| && Count(c, x) == Count(bs[i], x)
    ensures FlatCount(bs[i := c][from..], x) == FlatCount(bs[from..], x)
  {
    if i < from {
      assert bs[i := c][from..] == bs[from..];
    } else {
      assert bs[i := c][from..] == bs[from..][i - from := c];
      FlatCountUpdate(bs[from..], i - from, c, x);
    }
  }

  /** A bucket changed without losing or gaining `x`, and without disturbing the rest of the iterator's chain. */
  lemma BucketChange<K(!new), V(!new)>(s: State<K, V>, table: nat, i: nat, c: Chain<K, V>, used: nat, it: Iter<K>, x: K)
    requires table < 2 && i < |TableOf(s, table).buckets| && (table == 1 ==> s.rehashidx != -1)
    requires OnEntry(s, it)
    requires var b := TableOf(s, table).buckets[i];
             && Count(c, x) == Count(b, x)
             && (it.table == table && it.index == i && it.nextEntry.Some? ==>
                   && Count(From(c, it.nextEntry.value), x) == Count(From(b, it.nextEntry.value), x)
                   && exists j :: 0 <= j < |c| && c[j].key == it.nextEntry.value)
    ensures var s' := WithTable(s, table, SetBucket(TableOf(s, table), i, c, used));
            OnEntry(s', it) && Remaining(s', it, x) == Remaining(s, it, x)
  {
    hide Count, From, FlatCount;
    var t := TableOf(s, table);
    var s' := WithTable(s, table, SetBucket(t, i, c, used));
    assert TableOf(s', it.table).buckets[it.index] ==
           if table == it.table && i == it.index then c else TableOf(s, it.table).buckets[it.index];
    AheadUnchanged(s, table, i, c, used, it, x);
    hide AheadOf;
  }

  lemma AheadUnchanged<K(!new), V(!new)>(
    s: State<K, V>, table: nat, i: nat, c: Chain<K, V>, used: nat, it: Iter<K>, x: K)
    requires table < 2 && i < |TableOf(s, table).buckets| && it.table < 2
    requires -1 <= it.index < |TableOf(s, it.table).buckets| && Count(c, x) == Count(TableOf(s, table).buckets[i], x)
    ensures var s' := WithTable(s, table, SetBucket(TableOf(s, table), i, c, used));
            && it.index < |TableOf(s', it.table).buckets|
            && AheadOf(s', it.table, it.index, x) == AheadOf(s, it.table, it.index, x)
  {
    hide Count, FlatCount;
    var t := TableOf(s, table);
    SuffixCountUpdate(t.buckets, i, c, 0, x);
    assert t.buckets[0..] == t.buckets && t.buckets[i := c][0..] == t.buckets[i := c];
    if table == it.table {
      SuffixCountUpdate(t.buckets, i, c, it.index + 1, x);
    }
  }

  lemma InsertIs<K(!new), V(!new)>(hash: K -> nat, s: State<K, V>, e: Entry<K, V>)
    requires |(if s.rehashidx == -1 then s.ht0 else s.ht1).buckets| > 0
    ensures var table := if s.rehashidx == -1 then 0 else 1;
            var t := TableOf(s, table);
            var i := Slot(|t.buckets|, hash(e.key));
            i < |t.buckets| && Insert(hash, s, e) == WithTable(s, table, SetBucket(t, i, [e] + t.buckets[i], t.used + 1))
  {
  }

  lemma InsertKeepsRemaining<K(!new), V(!new)>(hash: K -> nat, s: State<K, V>, e: Entry<K, V>, it: Iter<K>, x: K)
    requires StateValid(hash, s) && OnEntry(s, it)
    requires !HasKey(hash, s.ht0, e.key) && !HasKey(hash, s.ht1, e.key)
    requires |(if s.rehashidx == -1 then s.ht0 else s.ht1).buckets| > 0
    requires x != e.key
    ensures var s' := Insert(hash, s, e);
            OnEntry(s', it) && Remaining(s', it, x) == Remaining(s, it, x)
  {
    var table := if s.rehashidx == -1 then 0 else 1;
    var t := TableOf(s, table);
    var i := Slot(|t.buckets|, hash(e.key));
    var b := t.buckets[i];
    var c := [e] + b;
    InsertIs(hash, s, e);
    hide Remaining, Insert;
    assert c[1..] == b;
    if it.table == table && it.index == i && it.nextEntry.Some? {
      var j :| 0 <= j < |b| && b[j].key == it.nextEntry.value;
      assert ChainValid(hash, |t.buckets|, i, b);
      assert Has(hash, t, b[j]);
      assert HasKey(hash, t, b[j].key);
      assert c[j + 1].key == it.nextEntry.value;
    }
    BucketChange(s, table, i, c, t.used + 1, it, x);
  }

  lemma {:induction false} OverwriteCounts<K, V>(c: Chain<K, V>, j: nat, v: V, k: K, x: K)
    requires j < |c|
    ensures var c' := c[j := Entry(c[j].key, v)];
            Count(c', x) == Count(c, x) && Count(From(c', k), x) == Count(From(c, k), x)
  {
    var c' := c[j := Entry(c[j].key, v)];
    if j == 0 {
      assert c'[1..] == c[1..];
    } else {
      assert c'[1..] == c[1..][j - 1 := Entry(c[j].key, v)];
      OverwriteCounts(c[1..], j - 1, v, k, x);
    }
  }

  lemma OverwriteKeepsRemaining<K(!new), V(!new)>(
    hash: K -> nat, s: State<K, V>, table: nat, i: nat, j: nat, v: V, k: K, it: Iter<K>, x: K)
    requires StateValid(hash, s) && OnEntry(s, it) && At(s, table, i, j, k)
    ensures var s' := WithTable(s, table, SetVal(TableOf(s, table), i, j, v));
            OnEntry(s', it) && Remaining(s', it, x) == Remaining(s, it, x)
  {
    var t := TableOf(s, table);
    var b := t.buckets[i];
    var c := b[j := Entry(b[j].key, v)];
    OverwriteCounts(b, j, v, k, x);
    if it.table == table && it.index == i && it.nextEntry.Some? {
      OverwriteCounts(b, j, v, it.nextEntry.value, x);
      var l :| 0 <= l < |b| && b[l].key == it.nextEntry.value;
      assert c[l].key == it.nextEntry.value;
    }
    BucketChange(s, table, i, c, t.used, it, x);
  }

  lemma {:induction false} UnlinkCount<K, V>(c: Chain<K, V>, j: nat, x: K)
    requires j < |c| && c[j].key != x
    ensures Count(Without(c, j), x) == Count(c, x)
  {
    if j == 0 {
      assert Without(c, j) == c[1..];
    } else {
      assert Without(c, j)[1..] == Without(c[1..], j - 1);
      UnlinkCount(c[1..], j - 1, x);
    }
  }

  lemma {:induction false} UnlinkFromCount<K, V>(c: Chain<K, V>, j: nat, k: K, x: K)
    requires j < |c| && c[j].key != x && c[j].key != k
    ensures Count(From(Without(c, j), k), x) == Count(From(c, k), x)
  {
    if j == 0 {
      assert Without(c, j) == c[1..];
    } else {
      assert Without(c, j)[1..] == Without(c[1..], j - 1);
      UnlinkFromCount(c[1..], j - 1, k, x);
      UnlinkCount(c, j, x);
    }
  }

  lemma UnlinkKeepsRemaining<K(!new), V(!new)>(
    s: State<K, V>, table: nat, i: nat, j: nat, k: K, it: Iter<K>, x: K)
    requires OnEntry(s, it) && At(s, table, i, j, k) && TableOf(s, table).used > 0
    requires table == 1 ==> s.rehashidx != -1
    requires x != k && it.nextEntry != Some(k)
    ensures var s' := WithTable(s, table, Unlink(TableOf(s, table), i, j));
            OnEntry(s', it) && Remaining(s', it, x) == Remaining(s, it, x)
  {
    hide Count, From, FlatCount, Remaining;
    var t := TableOf(s, table);
    var b := t.buckets[i];
    UnlinkCount(b, j, x);
    if it.table == table && it.index == i && it.nextEntry.Some? {
      UnlinkFromCount(b, j, it.nextEntry.value, x);
      var l :| 0 <= l < |b| && b[l].key == it.nextEntry.value;
      assert Without(b, j)[if l < j then l else l - 1].key == it.nextEntry.value;
    }
    BucketChange(s, table, i, Without(b, j), t.used - 1, it, x);
  }

  lemma {:induction false} FlatCountOfEmpty<K, V>(bs: seq<Chain<K, V>>, x: K)
    requires Total(bs) == 0
    ensures FlatCount(bs, x) == 0
  {
    if bs != [] {
      FlatCountOfEmpty(bs[1..], x);
    }
  }

  lemma ExpandKeepsRemaining<K(!new), V(!new)>(hash: K -> nat, s: State<K, V>, s': State<K, V>, it: Iter<K>, x: K)
    requires StateValid(hash, s) && OnEntry(s, it) && ExpandedFrom(hash, s, s')
    ensures OnEntry(s', it) && Remaining(s', it, x) == Remaining(s, it, x)
  {
    if s' != s {
      FlatCountOfEmpty(s'.ht1.buckets, x);
    }
  }

  ghost predicate InDict<K(!new), V(!new)>(hash: K -> nat, s: State<K, V>, x: K) {
    HasKey(hash, s.ht0, x) || HasKey(hash, s.ht1, x)
  }

  lemma UnlinkedIsGone<K(!new), V(!new)>(hash: K -> nat, s: State<K, V>, s': State<K, V>, table: nat, i: nat, j: nat, k: K)
    requires StateValid(hash, s) && At(s, table, i, j, k)
    requires TableOf(s, table).used > 0 && s' == WithTable(s, table, Unlink(TableOf(s, table), i, j))
    ensures !InDict(hash, s', k)
  {
    UnlinkValid(hash, TableOf(s, table), i, j);
    var e := TableOf(s, table).buckets[i][j];
    assert Has(hash, TableOf(s, table), Entry(k, e.val));
    assert HasKey(hash, TableOf(s, table), k);
  }

  /** No operation allowed between calls changes what is still to come, for keys that stay. */
  lemma SafeOpKeepsRemaining<K(!new), V(!new)>(hash: K -> nat, s: State<K, V>, s': State<K, V>, it: Iter<K>, x: K)
    requires StateValid(hash, s) && OnEntry(s, it) && SafeOp(hash, s, s', it.entry)
    requires InDict(hash, s, x) && InDict(hash, s', x)
    ensures OnEntry(s', it) && Remaining(s', it, x) == Remaining(s, it, x)
  {
    hide Remaining, OnEntry, StateValid, HasKey;
    if ExpandedFrom(hash, s, s') {
      ExpandKeepsRemaining(hash, s, s', it, x);
    } else if k :| Inserted(hash, s, s', k) {
      var v :| s' == Insert(hash, s, Entry(k, v));
      InsertKeepsRemaining(hash, s, Entry(k, v), it, x);
    } else if k :| Overwritten(s, s', k) {
      var table, i, j, v :|
        At(s, table, i, j, k) && s' == WithTable(s, table, SetVal(TableOf(s, table), i, j, v));
      OverwriteKeepsRemaining(hash, s, table, i, j, v, k, it, x);
    } else {
      var k := it.entry.value;
      var table, i, j :|
        At(s, table, i, j, k) && TableOf(s, table).used > 0 &&
        s' == WithTable(s, table, Unlink(TableOf(s, table), i, j));
      SecondTableWhileRehashing(hash, s, table);
      SavedSuccessorDiffers(s, it);
      UnlinkedIsGone(hash, s, s', table, i, j, k);
      UnlinkKeepsRemaining(s, table, i, j, k, it, x);
    }
  }

  lemma SavedSuccessorDiffers<K, V>(s: State<K, V>, it: Iter<K>)
    requires OnEntry(s, it)
    ensures it.nextEntry != it.entry
  {
  }

  lemma SecondTableWhileRehashing<K(!new), V(!new)>(hash: K -> nat, s: State<K, V>, table: nat)
    requires StateValid(hash, s) && |TableOf(s, table).buckets| > 0
    ensures table == 1 ==> s.rehashidx != -1
  {
  }

  // --- Whole iterations ---

  lemma {:induction false} CountOnce<K, V>(c: Chain<K, V>, x: K)
    requires forall j, l | 0 <= j < l < |c| :: c[j].key != c[l].key
    ensures Count(c, x) == Digit(exists j :: 0 <= j < |c| && c[j].key == x)
  {
    if c != [] {
      CountOnce(c[1..], x);
      assert forall j | 0 <= j < |c[1..]| :: c[1..][j] == c[j + 1];
      assert forall j | 0 < j < |c| :: c[j] == c[1..][j - 1];
    }
  }

  lemma {:induction false} FlatCountAt<K, V>(bs: seq<Chain<K, V>>, i: nat, x: K)
    requires i < |bs|
    requires forall j | 0 <= j < |bs| && j != i :: Count(bs[j], x) == 0
    ensures FlatCount(bs, x) == Count(bs[i], x)
  {
    if i == 0 {
      FlatCountNone(bs[1..], x);
    } else {
      FlatCountAt(bs[1..], i - 1, x);
    }
  }

  lemma {:induction false} FlatCountNone<K, V>(bs: seq<Chain<K, V>>, x: K)
    requires forall j | 0 <= j < |bs| :: Count(bs[j], x) == 0
    ensures FlatCount(bs, x) == 0
  {
    if bs != [] {
      FlatCountNone(bs[1..], x);
    }
  }

  /** A well-formed table holds a key once or not at all. */
  lemma TableCount<K(!new), V(!new)>(hash: K -> nat, t: Table<K, V>, x: K)
    requires TableValid(hash, t)
    ensures FlatCount(t.buckets, x) == Digit(HasKey(hash, t, x))
  {
    if |t.buckets| > 0 {
      var i := Slot(|t.buckets|, hash(x));
      forall j | 0 <= j < |t.buckets|
        ensures Count(t.buckets[j], x) == Digit(j == i && HasKey(hash, t, x))
      {
        var c := t.buckets[j];
        assert ChainValid(hash, |t.buckets|, j, c);
        CountOnce(c, x);
        if l :| 0 <= l < |c| && c[l].key == x {
          assert Has(hash, t, Entry(x, c[l].val));
        }
        if j == i && HasKey(hash, t, x) {
          var v :| Has(hash, t, Entry(x, v));
          var l :| 0 <= l < |c| && c[l] == Entry(x, v);
          assert c[l].key == x;
        }
      }
      FlatCountAt(t.buckets, i, x);
    }
  }

  /** At the start everything is still to come, once. */
  lemma StartRemaining<K(!new), V(!new)>(hash: K -> nat, s: State<K, V>, x: K)
    requires StateValid(hash, s)
    ensures Remaining(s, Start(), x) == Digit(InDict(hash, s, x))
  {
    TableCount(hash, s.ht0, x);
    TableCount(hash, s.ht1, x);
    assert s.ht0.buckets[0..] == s.ht0.buckets;
  }

  datatype Step<K> = Call(result: Option<K>) | Between

  datatype Config<K, V> = Config(s: State<K, V>, it: Iter<K>)

  ghost predicate StepOk<K(!new), V(!new)>(hash: K -> nat, a: Config<K, V>, step: Step<K>, b: Config<K, V>) {
    && StateValid(hash, a.s)
    && (a.it == Start() || OnEntry(a.s, a.it))
    && match step
       case Call(r) =>
         && b.s == a.s
         && (r.Some? <==> After(a.s, a.it).Some?)
         && (r.Some? ==> b.it == After(a.s, a.it).value && r == b.it.entry)
       case Between =>
         a.it != Start() && b.it == a.it && SafeOp(hash, a.s, b.s, a.it.entry)
  }

  ghost function TimesReturned<K>(steps: seq<Step<K>>, x: K): nat {
    if steps == [] then 0 else Digit(steps[0] == Call(Some(x))) + TimesReturned(steps[1..], x)
  }

  /** A run from `configs[0]`: calls, and operations between them, until a call returns NULL. */
  ghost predicate Run<K(!new), V(!new)>(hash: K -> nat, configs: seq<Config<K, V>>, steps: seq<Step<K>>) {
    && |steps| > 0
    && |configs| == |steps| + 1
    && (forall i | 0 <= i < |steps| :: StepOk(hash, configs[i], steps[i], configs[i + 1]))
    && (forall i | 0 <= i < |steps| :: steps[i] == Call(None) <==> i == |steps| - 1)
  }

  /** What is still to come at any point of a run is what the rest of the run returns. */
  lemma {:induction false} RunReturnsRemaining<K(!new), V(!new)>(
    hash: K -> nat, configs: seq<Config<K, V>>, steps: seq<Step<K>>, x: K)
    requires Run(hash, configs, steps)
    requires configs[0].it == Start() || OnEntry(configs[0].s, configs[0].it)
    requires forall i | 0 <= i < |configs| :: InDict(hash, configs[i].s, x)
    ensures TimesReturned(steps, x) == Remaining(configs[0].s, configs[0].it, x)
    decreases |steps|
  {
    hide Remaining, OnEntry, HasKey, StateValid, After, SafeOp, InDict;
    var a, b := configs[0], configs[1];
    assert StepOk(hash, a, steps[0], configs[0 + 1]);
    assert InDict(hash, a.s, x);
    assert InDict(hash, b.s, x);
    if steps[0].Call? {
      AfterReturns(hash, a.s, a.it, x);
    } else {
      SafeOpKeepsRemaining(hash, a.s, b.s, a.it, x);
    }
    if |steps| > 1 {
      RunTail(hash, configs, steps, x);
      RunReturnsRemaining(hash, configs[1..], steps[1..], x);
    } else {
      assert steps[0] == Call(None);
      assert steps[1..] == [];
    }
  }

  lemma RunTail<K(!new), V(!new)>(hash: K -> nat, configs: seq<Config<K, V>>, steps: seq<Step<K>>, x: K)
    requires Run(hash, configs, steps) && |steps| > 1
    requires forall i | 0 <= i < |configs| :: InDict(hash, configs[i].s, x)
    ensures Run(hash, configs[1..], steps[1..])
    ensures forall i | 0 <= i < |configs[1..]| :: InDict(hash, configs[1..][i].s, x)
  {
    hide StepOk, InDict;
    var configs', steps' := configs[1..], steps[1..];
    forall i | 0 <= i < |steps'|
      ensures StepOk(hash, configs'[i], steps'[i], configs'[i + 1])
    {
      assert StepOk(hash, configs[i + 1], steps[i + 1], configs[i + 1 + 1]);
    }
  }

  /** A key that is in the dictionary throughout the iteration is returned exactly once. */
  lemma ReturnedExactlyOnce<K(!new), V(!new)>(
    hash: K -> nat, configs: seq<Config<K, V>>, steps: seq<Step<K>>, x: K)
    requires Run(hash, configs, steps) && configs[0].it == Start()
    requires forall i | 0 <= i < |configs| :: InDict(hash, configs[i].s, x)
    ensures TimesReturned(steps, x) == 1
  {
    hide Remaining;
    assert StepOk(hash, configs[0], steps[0], configs[0 + 1]);
    assert InDict(hash, configs[0].s, x);
    RunReturnsRemaining(hash, configs, steps, x);
    StartRemaining(hash, configs[0].s, x);
  }

  // --- The iterator object ---

  /** The loop of `dictNext`, on the fields of the iterator. */
  method Walk<K(==, !new), V(!new)>(s: State<K, V>, it: Iter<K>) returns (r: Option<Iter<K>>)
    requires it.table < 2 && -1 <= it.index < |TableOf(s, it.table).buckets|
    requires s.rehashidx != -1 ==> |s.ht1.buckets| > 0
    requires it.table == 1 ==> s.rehashidx != -1
    requires it.entry.Some? ==> it.index >= 0
    ensures r == After(s, it)
  {
    var table, index, entry := it.table, it.index, it.entry;
    ghost var first := true;
    while true
      invariant table < 2 && -1 <= index < |TableOf(s, table).buckets|
      invariant table == 1 ==> s.rehashidx != -1
      invariant first ==> table == it.table && index == it.index && entry == it.entry
      invariant !first ==> entry.None? && After(s, it) == Advance(s, table, index)
      decreases first, 2 - table, |TableOf(s, table).buckets| - index
    {
      if entry.None? {
        index := index + 1;
        if index >= |TableOf(s, table).buckets| {
          if s.rehashidx != -1 && table == 0 {
            table := 1;
            index := 0;
          } else {
            return None;
          }
        }
        var c := TableOf(s, table).buckets[index];
        entry := if c != [] then Some(c[0].key) else None;
      } else {
        entry := it.nextEntry;
      }
      if entry.Some? {
        var c := TableOf(s, table).buckets[index];
        return Some(Iter(table, index, entry, Successor(From(c, entry.value))));
      }
      first := false;
    }
  }

  class SafeIterator<K(==, !new), V(!new)> {
    const d: Dict<K, V>
    var it: Iter<K>

    /** `dictGetSafeIterator`. */
    constructor (d: Dict<K, V>)
      ensures this.d == d && it == Start()
    {
      this.d := d;
      it := Start();
    }

    /**
     `dictNext`: the first call suspends rehashing. Each call returns what `After`
     says, the key of the entry it has moved to.
     */
    method Next() returns (r: Option<K>)
      requires d.Valid() && (it == Start() || OnEntry(d.Current(), it))
      modifies this`it, d`iterators
      ensures d.Valid() && d.Current() == old(d.Current()) && d.contents == old(d.contents)
      ensures d.iterators == old(d.iterators) + Digit(old(it) == Start())
      ensures r.Some? <==> After(d.Current(), old(it)).Some?
      ensures r.Some? ==> it == After(d.Current(), old(it)).value && r == it.entry
    {
      if it.index == -1 && it.table == 0 {
        d.iterators := d.iterators + 1;
      }
      var next := Walk(d.Current(), it);
      if next.None? {
        return None;
      }
      it := next.value;
      return it.entry;
    }
  }
}
