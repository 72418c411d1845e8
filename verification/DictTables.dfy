/**
 The two hash tables of `dict.c` as values: buckets, chains and counters, what
 makes them well formed, and what inserting and unlinking one entry does to the
 set of entries they hold.
 */
module DictTables {
  import opened Words

  datatype Entry<K, V> = Entry(key: K, val: V)

  type Chain<K, V> = seq<Entry<K, V>>

  /** A `dictht`: `size` is the number of buckets, a power of two or zero. */
  datatype Table<K, V> = Table(buckets: seq<Chain<K, V>>, used: nat)

  /** A `dict`: entries live in `ht0`, or in both tables while `rehashidx != -1`. */
  datatype State<K, V> = State(ht0: Table<K, V>, ht1: Table<K, V>, rehashidx: int)

  const DICT_HT_INITIAL_SIZE: nat := 4

  function EmptyTable<K, V>(): Table<K, V> {
    Table([], 0)
  }

  // --- Sizes ---

  function Log2(m: nat): nat {
    if m <= 1 then 0 else 1 + Log2(m / 2)
  }

  lemma {:induction false} Log2OfPow2(k: nat)
    ensures Log2(Pow2(k)) == k
  {
    if k > 0 {
      Log2OfPow2(k - 1);
    }
  }

  predicate IsPow2(m: nat) {
    m == Pow2(Log2(m))
  }

  /** `h & sizemask`. */
  function Slot(size: nat, h: nat): (i: nat)
    requires size > 0
    ensures i < size
  {
    AndBound(h, size - 1);
    And(h, size - 1)
  }

  lemma SlotIsLow(size: nat, h: nat)
    requires size > 0 && IsPow2(size)
    ensures Slot(size, h) == Low(Log2(size), h)
  {
    AndMask(Log2(size), h);
  }

  // --- Well-formed chains and tables ---

  ghost predicate ChainValid<K, V>(hash: K -> nat, size: nat, i: nat, c: Chain<K, V>)
    requires size > 0
  {
    && (forall j | 0 <= j < |c| :: Slot(size, hash(c[j].key)) == i)
    && (forall j, l | 0 <= j < l < |c| :: c[j].key != c[l].key)
  }

  ghost function Total<K, V>(bs: seq<Chain<K, V>>): nat {
    if bs == [] then 0 else |bs[0]| + Total(bs[1..])
  }

  ghost predicate TableValid<K, V>(hash: K -> nat, t: Table<K, V>) {
    && (|t.buckets| > 0 ==> IsPow2(|t.buckets|))
    && (forall i | 0 <= i < |t.buckets| :: ChainValid(hash, |t.buckets|, i, t.buckets[i]))
    && t.used == Total(t.buckets)
  }

  /** Whether the entry is in the table, in the bucket given by its hash. */
  ghost predicate Has<K, V>(hash: K -> nat, t: Table<K, V>, e: Entry<K, V>) {
    |t.buckets| > 0 && e in t.buckets[Slot(|t.buckets|, hash(e.key))]
  }

  ghost predicate HasKey<K, V(!new)>(hash: K -> nat, t: Table<K, V>, k: K) {
    exists v :: Has(hash, t, Entry(k, v))
  }

  lemma {:induction false} TotalUpdate<K, V>(bs: seq<Chain<K, V>>, i: nat, c: Chain<K, V>)
    requires i < |bs|
    ensures Total(bs[i := c]) == Total(bs) - |bs[i]| + |c|
  {
    if i == 0 {
      assert bs[i := c][1..] == bs[1..];
    } else {
      TotalUpdate(bs[1..], i - 1, c);
      assert bs[i := c][1..] == bs[1..][i - 1 := c];
    }
  }

  lemma {:induction false} TotalBound<K, V>(bs: seq<Chain<K, V>>, i: nat)
    requires i < |bs|
    ensures |bs[i]| <= Total(bs)
  {
    if i > 0 {
      TotalBound(bs[1..], i - 1);
    }
  }

  lemma {:induction false} TotalPositive<K, V>(bs: seq<Chain<K, V>>)
    ensures Total(bs) > 0 ==> exists i :: 0 <= i < |bs| && bs[i] != []
  {
    if bs != [] {
      TotalPositive(bs[1..]);
      if bs[0] == [] && Total(bs) > 0 {
        var i :| 0 <= i < |bs[1..]| && bs[1..][i] != [];
        assert bs[i + 1] != [];
      }
    }
  }

  lemma {:induction false} TotalOfEmpties<K, V>(bs: seq<Chain<K, V>>)
    requires forall i | 0 <= i < |bs| :: bs[i] == []
    ensures Total(bs) == 0
  {
    if bs != [] {
      TotalOfEmpties(bs[1..]);
    }
  }

  /** How many buckets hold an entry. */
  ghost function NonEmpty<K, V>(bs: seq<Chain<K, V>>): nat {
    if bs == [] then 0 else NonEmpty(bs[1..]) + if bs[0] == [] then 0 else 1
  }

  lemma {:induction false} NonEmptyCleared<K, V>(bs: seq<Chain<K, V>>, i: nat)
    requires i < |bs| && bs[i] != []
    ensures NonEmpty(bs) == NonEmpty(bs[i := []]) + 1
  {
    if i > 0 {
      NonEmptyCleared(bs[1..], i - 1);
      assert bs[i := []][1..] == bs[1..][i - 1 := []];
    } else {
      assert bs[i := []][1..] == bs[1..];
    }
  }

  lemma {:induction false} NonEmptyNone<K, V>(bs: seq<Chain<K, V>>)
    ensures NonEmpty(bs) == 0 <==> Total(bs) == 0
  {
    if bs != [] {
      NonEmptyNone(bs[1..]);
    }
  }

  /** A table whose buckets are all `NULL`. */
  function FreshTable<K, V>(size: nat): Table<K, V> {
    Table(seq(size, i => []), 0)
  }

  lemma FreshTableValid<K, V>(hash: K -> nat, size: nat)
    requires IsPow2(size)
    ensures TableValid(hash, FreshTable<K, V>(size))
    ensures forall e: Entry<K, V> :: !Has(hash, FreshTable(size), e)
  {
    TotalOfEmpties(FreshTable<K, V>(size).buckets);
  }

  // --- One entry in, one entry out ---

  function SetBucket<K, V>(t: Table<K, V>, i: nat, c: Chain<K, V>, used: nat): Table<K, V>
    requires i < |t.buckets|
  {
    Table(t.buckets[i := c], used)
  }

  /** A new entry goes in front of its chain. */
  function Push<K, V>(hash: K -> nat, t: Table<K, V>, e: Entry<K, V>): Table<K, V>
    requires |t.buckets| > 0
  {
    var i := Slot(|t.buckets|, hash(e.key));
    SetBucket(t, i, [e] + t.buckets[i], t.used + 1)
  }

  lemma PushValid<K, V(!new)>(hash: K -> nat, t: Table<K, V>, e: Entry<K, V>)
    requires TableValid(hash, t) && |t.buckets| > 0 && !HasKey(hash, t, e.key)
    ensures TableValid(hash, Push(hash, t, e))
    ensures forall f :: Has(hash, Push(hash, t, e), f) <==> f == e || Has(hash, t, f)
  {
    var i := Slot(|t.buckets|, hash(e.key));
    var c := t.buckets[i];
    TotalUpdate(t.buckets, i, [e] + c);
    forall j | 0 <= j < |c|
      ensures c[j].key != e.key
    {
      assert c[j].key == e.key ==> Has(hash, t, Entry(e.key, c[j].val));
    }
    assert ChainValid(hash, |t.buckets|, i, [e] + c);
  }

  function Without<T>(s: seq<T>, j: nat): seq<T>
    requires j < |s|
  {
    s[..j] + s[j + 1..]
  }

  /** Unlinking entry `j` of bucket `i`. */
  function Unlink<K, V>(t: Table<K, V>, i: nat, j: nat): Table<K, V>
    requires i < |t.buckets| && j < |t.buckets[i]| && t.used > 0
  {
    SetBucket(t, i, Without(t.buckets[i], j), t.used - 1)
  }

  lemma UnlinkValid<K, V(!new)>(hash: K -> nat, t: Table<K, V>, i: nat, j: nat)
    requires TableValid(hash, t) && i < |t.buckets| && j < |t.buckets[i]|
    ensures t.used > 0 && TableValid(hash, Unlink(t, i, j))
    ensures Has(hash, t, t.buckets[i][j])
    ensures forall f :: Has(hash, Unlink(t, i, j), f) <==> Has(hash, t, f) && f.key != t.buckets[i][j].key
  {
    var c := t.buckets[i];
    TotalBound(t.buckets, i);
    TotalUpdate(t.buckets, i, Without(c, j));
    assert ChainValid(hash, |t.buckets|, i, c);
    WithoutMembers(c, j);
    assert ChainValid(hash, |t.buckets|, i, Without(c, j));
  }

  lemma WithoutMembers<K, V>(c: Chain<K, V>, j: nat)
    requires j < |c|
    requires forall l, m | 0 <= l < m < |c| :: c[l].key != c[m].key
    ensures forall f :: f in Without(c, j) <==> f in c && f.key != c[j].key
    ensures forall l, m | 0 <= l < m < |Without(c, j)| :: Without(c, j)[l].key != Without(c, j)[m].key
  {
    var w := Without(c, j);
    forall f | f in c && f.key != c[j].key
      ensures f in w
    {
      var l :| 0 <= l < |c| && c[l] == f;
      assert w[if l < j then l else l - 1] == f;
    }
  }

  /** Overwriting the value of entry `j` of bucket `i`. */
  function SetVal<K, V>(t: Table<K, V>, i: nat, j: nat, v: V): Table<K, V>
    requires i < |t.buckets| && j < |t.buckets[i]|
  {
    var c := t.buckets[i];
    SetBucket(t, i, c[j := Entry(c[j].key, v)], t.used)
  }

  lemma SetValValid<K, V(!new)>(hash: K -> nat, t: Table<K, V>, i: nat, j: nat, v: V)
    requires TableValid(hash, t) && i < |t.buckets| && j < |t.buckets[i]|
    ensures TableValid(hash, SetVal(t, i, j, v))
    ensures var k := t.buckets[i][j].key;
            forall f :: Has(hash, SetVal(t, i, j, v), f) <==>
                        f == Entry(k, v) || (Has(hash, t, f) && f.key != k)
  {
    var c := t.buckets[i];
    var c' := c[j := Entry(c[j].key, v)];
    TotalUpdate(t.buckets, i, c');
    assert ChainValid(hash, |t.buckets|, i, c);
    assert ChainValid(hash, |t.buckets|, i, c');
    forall f
      ensures f in c' <==> f == Entry(c[j].key, v) || (f in c && f.key != c[j].key)
    {
      if f in c && f.key != c[j].key {
        var l :| 0 <= l < |c| && c[l] == f;
        assert c'[l] == f;
      }
      assert c'[j] == Entry(c[j].key, v);
    }
  }

  // --- The whole dictionary ---

  ghost predicate Maps<K, V>(hash: K -> nat, s: State<K, V>, e: Entry<K, V>) {
    Has(hash, s.ht0, e) || Has(hash, s.ht1, e)
  }

  /** Both tables are well formed, no key is in both, and the migrated part of `ht0` is empty. */
  ghost predicate StateValid<K(!new), V(!new)>(hash: K -> nat, s: State<K, V>) {
    && TableValid(hash, s.ht0)
    && TableValid(hash, s.ht1)
    && (forall k :: !(HasKey(hash, s.ht0, k) && HasKey(hash, s.ht1, k)))
    && (if s.rehashidx == -1 then s.ht1 == EmptyTable()
        else
          && 0 <= s.rehashidx <= |s.ht0.buckets|
          && |s.ht0.buckets| > 0
          && |s.ht1.buckets| > 0
          && forall i | 0 <= i < s.rehashidx :: s.ht0.buckets[i] == [])
  }

  /** The two tables together hold exactly the map `m`, and `used` counts it. */
  ghost predicate Represents<K(!new), V(!new)>(hash: K -> nat, s: State<K, V>, m: map<K, V>) {
    && (forall e :: Maps(hash, s, e) <==> e.key in m && m[e.key] == e.val)
    && |m| == s.ht0.used + s.ht1.used
  }

  /** The number of buckets of the table `dictScan` walks: the smaller of the two while rehashing. */
  function SmallSize<K, V>(s: State<K, V>): nat {
    if s.rehashidx == -1 || |s.ht0.buckets| <= |s.ht1.buckets| then |s.ht0.buckets| else |s.ht1.buckets|
  }

  /** The number of buckets of the other table, or the same one when not rehashing. */
  function LargeSize<K, V>(s: State<K, V>): nat {
    if s.rehashidx == -1 || |s.ht0.buckets| > |s.ht1.buckets| then |s.ht0.buckets| else |s.ht1.buckets|
  }

  /** Moving the first entry of the bucket at `rehashidx` to the new table changes no content. */
  function MoveHead<K, V>(hash: K -> nat, s: State<K, V>): State<K, V>
    requires 0 <= s.rehashidx < |s.ht0.buckets| && |s.ht1.buckets| > 0
    requires s.ht0.buckets[s.rehashidx] != [] && s.ht0.used > 0
  {
    State(Unlink(s.ht0, s.rehashidx, 0), Push(hash, s.ht1, s.ht0.buckets[s.rehashidx][0]), s.rehashidx)
  }

  lemma MoveHeadKeeps<K(!new), V(!new)>(hash: K -> nat, s: State<K, V>, m: map<K, V>)
    requires StateValid(hash, s) && Represents(hash, s, m)
    requires 0 <= s.rehashidx < |s.ht0.buckets| && s.ht0.buckets[s.rehashidx] != []
    ensures s.ht0.used > 0
    ensures StateValid(hash, MoveHead(hash, s)) && Represents(hash, MoveHead(hash, s), m)
  {
    var e := s.ht0.buckets[s.rehashidx][0];
    UnlinkValid(hash, s.ht0, s.rehashidx, 0);
    assert HasKey(hash, s.ht0, e.key);
    PushValid(hash, s.ht1, e);
    var s' := MoveHead(hash, s);
    forall k | HasKey(hash, s'.ht0, k)
      ensures !HasKey(hash, s'.ht1, k)
    {
      var v :| Has(hash, s'.ht0, Entry(k, v));
      assert HasKey(hash, s.ht0, k);
    }
    forall f
      ensures Maps(hash, s', f) <==> Maps(hash, s, f)
    {
      if Has(hash, s.ht0, f) && f.key == e.key {
        SameKeySameEntry(hash, s.ht0, e, f);
      }
    }
  }

  lemma SameKeySameEntry<K, V>(hash: K -> nat, t: Table<K, V>, e: Entry<K, V>, f: Entry<K, V>)
    requires TableValid(hash, t) && Has(hash, t, e) && Has(hash, t, f) && e.key == f.key
    ensures e == f
  {
    var i := Slot(|t.buckets|, hash(e.key));
    assert ChainValid(hash, |t.buckets|, i, t.buckets[i]);
  }

  /** When the old table is used up, the new one takes its place. */
  /** The state in the middle of moving a bucket, of which the entries `de` are left. */
  function Unmoved<K, V>(ht0: Table<K, V>, ht1: Table<K, V>, idx: nat, de: Chain<K, V>): State<K, V>
    requires idx < |ht0.buckets|
  {
    State(Table(ht0.buckets[idx := de], ht0.used), ht1, idx)
  }

  lemma MoveStep<K(!new), V(!new)>(
    hash: K -> nat, ht0: Table<K, V>, ht1: Table<K, V>, idx: nat, de: Chain<K, V>, m: map<K, V>)
    requires idx < |ht0.buckets| && de != [] && |ht1.buckets| > 0
    requires StateValid(hash, Unmoved(ht0, ht1, idx, de)) && Represents(hash, Unmoved(ht0, ht1, idx, de), m)
    ensures ht0.used > 0 && |Push(hash, ht1, de[0]).buckets| == |ht1.buckets|
    ensures var s' := Unmoved(ht0.(used := ht0.used - 1), Push(hash, ht1, de[0]), idx, de[1..]);
            StateValid(hash, s') && Represents(hash, s', m)
  {
    hide StateValid, Represents, Slot;
    var s := Unmoved(ht0, ht1, idx, de);
    MoveHeadKeeps(hash, s, m);
    assert s.ht0.buckets[idx := de[1..]] == ht0.buckets[idx := de[1..]];
    assert Without(de, 0) == de[1..];
  }

  lemma SecondTable<K(!new), V(!new)>(hash: K -> nat, s: State<K, V>)
    requires StateValid(hash, s) && s.rehashidx != -1
    ensures |s.ht1.buckets| > 0
  {
  }

  lemma PastEmptyBucket<K(!new), V(!new)>(hash: K -> nat, s: State<K, V>, m: map<K, V>)
    requires StateValid(hash, s) && Represents(hash, s, m)
    requires 0 <= s.rehashidx < |s.ht0.buckets| && s.ht0.buckets[s.rehashidx] == []
    ensures var s' := s.(rehashidx := s.rehashidx + 1); StateValid(hash, s') && Represents(hash, s', m)
  {
  }

  lemma FinishKeeps<K(!new), V(!new)>(hash: K -> nat, s: State<K, V>, m: map<K, V>)
    requires StateValid(hash, s) && Represents(hash, s, m) && s.rehashidx != -1 && s.ht0.used == 0
    ensures var s' := State(s.ht1, EmptyTable(), -1);
            StateValid(hash, s') && Represents(hash, s', m)
  {
    forall e
      ensures !Has(hash, s.ht0, e)
    {
      TotalBound(s.ht0.buckets, Slot(|s.ht0.buckets|, hash(e.key)));
    }
  }

  /** Where a search of one bucket leaves a key. */
  lemma SearchResult<K, V(!new)>(hash: K -> nat, t: Table<K, V>, k: K, j: nat)
    requires TableValid(hash, t) && |t.buckets| > 0
    requires var c := t.buckets[Slot(|t.buckets|, hash(k))];
             j <= |c| && (if j < |c| then c[j].key == k else forall l | 0 <= l < |c| :: c[l].key != k)
    ensures var c := t.buckets[Slot(|t.buckets|, hash(k))];
            if j < |c| then Has(hash, t, c[j]) else !HasKey(hash, t, k)
  {
  }

  lemma HasKeyInMap<K(!new), V(!new)>(hash: K -> nat, s: State<K, V>, m: map<K, V>, k: K)
    requires Represents(hash, s, m)
    ensures k in m <==> HasKey(hash, s.ht0, k) || HasKey(hash, s.ht1, k)
  {
    if k in m {
      assert Maps(hash, s, Entry(k, m[k]));
    }
    if HasKey(hash, s.ht0, k) {
      var v :| Has(hash, s.ht0, Entry(k, v));
      assert Maps(hash, s, Entry(k, v));
    }
    if HasKey(hash, s.ht1, k) {
      var v :| Has(hash, s.ht1, Entry(k, v));
      assert Maps(hash, s, Entry(k, v));
    }
  }

  lemma NothingInEmpty<K(!new), V(!new)>(hash: K -> nat, s: State<K, V>, m: map<K, V>, k: K)
    requires StateValid(hash, s) && Represents(hash, s, m) && |s.ht0.buckets| == 0
    ensures k !in m && s.rehashidx == -1
  {
    HasKeyInMap(hash, s, m, k);
  }

  /** New keys go to the new table while rehashing, to the only table otherwise. */
  function Insert<K, V>(hash: K -> nat, s: State<K, V>, e: Entry<K, V>): State<K, V>
    requires |(if s.rehashidx == -1 then s.ht0 else s.ht1).buckets| > 0
  {
    if s.rehashidx == -1 then s.(ht0 := Push(hash, s.ht0, e)) else s.(ht1 := Push(hash, s.ht1, e))
  }

  lemma InsertKeeps<K(!new), V(!new)>(hash: K -> nat, s: State<K, V>, m: map<K, V>, e: Entry<K, V>)
    requires StateValid(hash, s) && Represents(hash, s, m) && e.key !in m
    requires |(if s.rehashidx == -1 then s.ht0 else s.ht1).buckets| > 0
    ensures StateValid(hash, Insert(hash, s, e))
    ensures Represents(hash, Insert(hash, s, e), m[e.key := e.val])
  {
    HasKeyInMap(hash, s, m, e.key);
    var s' := Insert(hash, s, e);
    if s.rehashidx == -1 {
      PushValid(hash, s.ht0, e);
    } else {
      PushValid(hash, s.ht1, e);
    }
    assert m[e.key := e.val].Keys == m.Keys + {e.key};
    forall k
      ensures !(HasKey(hash, s'.ht0, k) && HasKey(hash, s'.ht1, k))
    {
      HasKeyAfterPush(hash, s.ht0, e, k);
      HasKeyAfterPush(hash, s.ht1, e, k);
    }
  }

  lemma HasKeyAfterPush<K(!new), V(!new)>(hash: K -> nat, t: Table<K, V>, e: Entry<K, V>, k: K)
    requires TableValid(hash, t) && !HasKey(hash, t, e.key)
    ensures |t.buckets| > 0 ==> (HasKey(hash, Push(hash, t, e), k) <==> k == e.key || HasKey(hash, t, k))
  {
    if |t.buckets| > 0 {
      PushValid(hash, t, e);
      var t' := Push(hash, t, e);
      assert Has(hash, t', e);
      if HasKey(hash, t', k) {
        var v :| Has(hash, t', Entry(k, v));
        assert Entry(k, v) == e || Has(hash, t, Entry(k, v));
      }
      if HasKey(hash, t, k) {
        var v :| Has(hash, t, Entry(k, v));
        assert Has(hash, t', Entry(k, v));
      }
    }
  }

  /** Replacing one table by one with fewer keys keeps the tables disjoint. */
  lemma StillDisjoint<K(!new), V(!new)>(hash: K -> nat, s: State<K, V>, s': State<K, V>)
    requires forall k :: !(HasKey(hash, s.ht0, k) && HasKey(hash, s.ht1, k))
    requires forall k :: HasKey(hash, s'.ht0, k) ==> HasKey(hash, s.ht0, k)
    requires forall k :: HasKey(hash, s'.ht1, k) ==> HasKey(hash, s.ht1, k)
    ensures forall k :: !(HasKey(hash, s'.ht0, k) && HasKey(hash, s'.ht1, k))
  {
  }

  /** The state with the given table in place of `ht0` (`which == 0`) or of `ht1`. */
  function WithTable<K, V>(s: State<K, V>, which: nat, t: Table<K, V>): State<K, V> {
    if which == 0 then s.(ht0 := t) else s.(ht1 := t)
  }

  function TableOf<K, V>(s: State<K, V>, which: nat): Table<K, V> {
    if which == 0 then s.ht0 else s.ht1
  }

  lemma UnlinkKeeps<K(!new), V(!new)>(hash: K -> nat, s: State<K, V>, m: map<K, V>, which: nat, i: nat, j: nat)
    requires StateValid(hash, s) && Represents(hash, s, m)
    requires i < |TableOf(s, which).buckets| && j < |TableOf(s, which).buckets[i]|
    ensures var t := TableOf(s, which);
            && t.used > 0
            && StateValid(hash, WithTable(s, which, Unlink(t, i, j)))
            && Represents(hash, WithTable(s, which, Unlink(t, i, j)), m - {t.buckets[i][j].key})
  {
    var t := TableOf(s, which);
    var e := t.buckets[i][j];
    UnlinkValid(hash, t, i, j);
    var s' := WithTable(s, which, Unlink(t, i, j));
    forall k
      ensures HasKey(hash, Unlink(t, i, j), k) ==> HasKey(hash, t, k)
    {
      if HasKey(hash, Unlink(t, i, j), k) {
        var v :| Has(hash, Unlink(t, i, j), Entry(k, v));
        assert Has(hash, t, Entry(k, v));
      }
    }
    StillDisjoint(hash, s, s');
    assert Maps(hash, s, e);
    assert HasKey(hash, t, e.key);
    assert !HasKey(hash, TableOf(s, 1 - Digit(which != 0)), e.key);
    assert (m - {e.key}).Keys == m.Keys - {e.key};
    forall f
      ensures Maps(hash, s', f) <==> Maps(hash, s, f) && f.key != e.key
    {
      assert Has(hash, TableOf(s, 1 - Digit(which != 0)), f) ==> HasKey(hash, TableOf(s, 1 - Digit(which != 0)), f.key);
    }
  }

  lemma SetValKeeps<K(!new), V(!new)>(hash: K -> nat, s: State<K, V>, m: map<K, V>, which: nat, i: nat, j: nat, v: V)
    requires StateValid(hash, s) && Represents(hash, s, m)
    requires i < |TableOf(s, which).buckets| && j < |TableOf(s, which).buckets[i]|
    ensures var t := TableOf(s, which);
            && StateValid(hash, WithTable(s, which, SetVal(t, i, j, v)))
            && Represents(hash, WithTable(s, which, SetVal(t, i, j, v)), m[t.buckets[i][j].key := v])
  {
    var t := TableOf(s, which);
    var e := t.buckets[i][j];
    UnlinkValid(hash, t, i, j);
    SetValValid(hash, t, i, j, v);
    var s' := WithTable(s, which, SetVal(t, i, j, v));
    assert Has(hash, t, e);
    assert HasKey(hash, t, e.key);
    forall k
      ensures HasKey(hash, SetVal(t, i, j, v), k) ==> HasKey(hash, t, k)
    {
      if HasKey(hash, SetVal(t, i, j, v), k) {
        var x :| Has(hash, SetVal(t, i, j, v), Entry(k, x));
        assert k == e.key || Has(hash, t, Entry(k, x));
      }
    }
    StillDisjoint(hash, s, s');
    assert Maps(hash, s, e);
    assert m[e.key := v].Keys == m.Keys;
    var other := TableOf(s, 1 - Digit(which != 0));
    assert !HasKey(hash, other, e.key);
    forall f
      ensures Maps(hash, s', f) <==> f == Entry(e.key, v) || (Maps(hash, s, f) && f.key != e.key)
    {
      assert Has(hash, other, f) ==> HasKey(hash, other, f.key);
    }
  }

  // --- What the operations may do while a safe iterator is running ---

  /** An expansion has been started, or nothing has happened. */
  ghost predicate ExpandedFrom<K(!new), V(!new)>(hash: K -> nat, s: State<K, V>, s': State<K, V>) {
    || s' == s
    || (s.rehashidx == -1 && s'.rehashidx == 0 && s'.ht0 == s.ht0 && s'.ht1.used == 0 && StateValid(hash, s'))
  }

  /** A key that was absent has been inserted. */
  ghost predicate Inserted<K(!new), V(!new)>(hash: K -> nat, s: State<K, V>, s': State<K, V>, k: K) {
    && |(if s.rehashidx == -1 then s.ht0 else s.ht1).buckets| > 0
    && !HasKey(hash, s.ht0, k)
    && !HasKey(hash, s.ht1, k)
    && exists v :: s' == Insert(hash, s, Entry(k, v))
  }

  ghost predicate At<K, V>(s: State<K, V>, table: nat, i: nat, j: nat, k: K) {
    && table < 2
    && i < |TableOf(s, table).buckets|
    && j < |TableOf(s, table).buckets[i]|
    && TableOf(s, table).buckets[i][j].key == k
  }

  /** The entry of key `k` has been unlinked. */
  ghost predicate Unlinked<K, V>(s: State<K, V>, s': State<K, V>, k: K) {
    exists table, i, j ::
      At(s, table, i, j, k) && TableOf(s, table).used > 0 &&
      s' == WithTable(s, table, Unlink(TableOf(s, table), i, j))
  }

  /** The value of key `k` has been overwritten. */
  ghost predicate Overwritten<K, V(!new)>(s: State<K, V>, s': State<K, V>, k: K) {
    exists table, i, j, v ::
      At(s, table, i, j, k) && s' == WithTable(s, table, SetVal(TableOf(s, table), i, j, v))
  }
}
