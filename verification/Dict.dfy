/**
 The dictionary of `dict.c`: a map kept in two hash tables, from the first of which
 entries migrate to the second a bucket at a time.
 */
module Dicts {
  import opened Common
  import opened Words
  import opened DictTables

  const FORCE_RESIZE_RATIO: nat := 5

  /** `_dictNextPower`: the least power of two that is at least 4 and at least `size`. */
  method NextPower(size: nat) returns (i: nat)
    ensures IsPow2(i) && i >= size && i >= DICT_HT_INITIAL_SIZE
    ensures i > DICT_HT_INITIAL_SIZE ==> i < 2 * size
  {
    i := DICT_HT_INITIAL_SIZE;
    ghost var k := 2;
    assert i == Pow2(k);
    while i < size
      invariant i == Pow2(k) && i >= DICT_HT_INITIAL_SIZE
      invariant i > DICT_HT_INITIAL_SIZE ==> i < 2 * size
      decreases size - i
    {
      i := i * 2;
      k := k + 1;
    }
    Log2OfPow2(k);
  }

  /** Walking one chain: the position of the key, or the length of the chain. */
  method FindInChain<K(==), V>(c: Chain<K, V>, k: K) returns (j: nat)
    ensures j <= |c|
    ensures if j < |c| then c[j].key == k else forall l | 0 <= l < |c| :: c[l].key != k
  {
    j := 0;
    while j < |c| && c[j].key != k
      invariant j <= |c| && forall l | 0 <= l < j :: c[l].key != k
    {
      j := j + 1;
    }
  }

  class Dict<K(==, !new), V(!new)> {
    const hash: K -> nat
    var ht0: Table<K, V>
    var ht1: Table<K, V>
    var rehashidx: int
    var iterators: nat

    /** The map the dictionary stands for. */
    ghost var contents: map<K, V>

    function Current(): State<K, V>
      reads this
    {
      State(ht0, ht1, rehashidx)
    }

    ghost predicate Valid()
      reads this
    {
      StateValid(hash, Current()) && Represents(hash, Current(), contents)
    }

    constructor (hash: K -> nat)
      ensures Valid() && contents == map[] && iterators == 0 && this.hash == hash
    {
      this.hash := hash;
      ht0, ht1, rehashidx, iterators := EmptyTable(), EmptyTable(), -1, 0;
      contents := map[];
    }

    /**
     `dictExpand`: refused while rehashing or when the entries would not fit. It changes
     no content, and it only makes the scanned table smaller when asked for fewer buckets
     than there are.
     */
    method Expand(size: nat) returns (ok: bool)
      requires Valid()
      modifies this`ht0, this`ht1, this`rehashidx
      ensures Valid() && contents == old(contents)
      ensures ok == (old(rehashidx) == -1 && old(ht0.used) <= size)
      ensures !ok ==> Current() == old(Current())
      ensures ok && old(|ht0.buckets|) == 0 ==> rehashidx == -1
      ensures ok && old(|ht0.buckets|) > 0 ==> ht0 == old(ht0) && rehashidx == 0 && ht1.used == 0
      ensures ok ==>
                var n := if old(|ht0.buckets|) == 0 then |ht0.buckets| else |ht1.buckets|;
                n >= size && n >= DICT_HT_INITIAL_SIZE && (n > DICT_HT_INITIAL_SIZE ==> n < 2 * size)
      ensures size >= old(SmallSize(Current())) ==> old(SmallSize(Current())) <= SmallSize(Current())
      ensures ok ==> |ht0.buckets| > 0
    {
      var realsize := NextPower(size);
      if rehashidx != -1 || ht0.used > size {
        return false;
      }
      var n := FreshTable(realsize);
      FreshTableValid<K, V>(hash, realsize);
      if |ht0.buckets| == 0 {
        ht0 := n;
        return true;
      }
      ht1 := n;
      rehashidx := 0;
      return true;
    }

    /** `dictResize`: shrink to the least size that holds the entries. */
    method Resize(canResize: bool) returns (ok: bool)
      requires Valid()
      modifies this`ht0, this`ht1, this`rehashidx
      ensures Valid() && contents == old(contents)
      ensures ok == (canResize && old(rehashidx) == -1)
      ensures ok ==>
                var n := if old(|ht0.buckets|) == 0 then |ht0.buckets| else |ht1.buckets|;
                var m := if old(ht0.used) < DICT_HT_INITIAL_SIZE then DICT_HT_INITIAL_SIZE else old(ht0.used);
                m <= n && (n > DICT_HT_INITIAL_SIZE ==> n < 2 * m)
      ensures !ok ==> Current() == old(Current())
    {
      if !canResize || rehashidx != -1 {
        return false;
      }
      var minimal := ht0.used;
      if minimal < DICT_HT_INITIAL_SIZE {
        minimal := DICT_HT_INITIAL_SIZE;
      }
      ok := Expand(minimal);
    }

    /** Move every entry of the bucket at `rehashidx`, then clear the bucket. */
    method MoveBucket()
      requires Valid()
      requires 0 <= rehashidx < |ht0.buckets| && ht0.buckets[rehashidx] != []
      modifies this`ht0, this`ht1, this`rehashidx
      ensures Valid() && contents == old(contents)
      ensures rehashidx == old(rehashidx) + 1
      ensures ht0.buckets == old(ht0.buckets)[old(rehashidx) := []] && |ht1.buckets| == old(|ht1.buckets|)
      ensures NonEmpty(ht0.buckets) + 1 == old(NonEmpty(ht0.buckets))
    {
      hide NonEmpty, StateValid, Represents, Slot, Push;
      NonEmptyCleared(ht0.buckets, rehashidx);
      SecondTable(hash, Current());
      var de := ht0.buckets[rehashidx];
      assert Current() == Unmoved(ht0, ht1, rehashidx, de);
      while de != []
        invariant 0 <= rehashidx < |ht0.buckets| && rehashidx == old(rehashidx)
        invariant ht0.buckets == old(ht0.buckets) && |ht1.buckets| == old(|ht1.buckets|) > 0
        invariant StateValid(hash, Unmoved(ht0, ht1, rehashidx, de))
        invariant Represents(hash, Unmoved(ht0, ht1, rehashidx, de), contents)
        decreases |de|
      {
        MoveStep(hash, ht0, ht1, rehashidx, de, contents);
        var nextde := de[1..];
        ht1 := Push(hash, ht1, de[0]);
        ht0 := ht0.(used := ht0.used - 1);
        de := nextde;
      }
      ht0 := ht0.(buckets := ht0.buckets[rehashidx := []]);
      PastEmptyBucket(hash, Current(), contents);
      rehashidx := rehashidx + 1;
    }

    /**
     `dictRehash`: exactly `n` buckets migrate, empty ones not counted, and if there are
     fewer then the table is exchanged. Nothing observable changes, and the assertion
     that `rehashidx` stays inside the old table holds.
     */
    method Rehash(n: nat) returns (more: bool)
      requires Valid()
      modifies this`ht0, this`ht1, this`rehashidx
      ensures Valid() && contents == old(contents)
      ensures more ==> rehashidx != -1
      ensures !more ==> rehashidx == -1
      ensures more ==> rehashidx >= old(rehashidx) + n
      ensures old(rehashidx) != -1 ==> (more <==> n <= old(NonEmpty(ht0.buckets)))
      ensures more ==> NonEmpty(ht0.buckets) + n == old(NonEmpty(ht0.buckets))
      ensures !more && old(rehashidx) != -1 ==> |ht0.buckets| == old(|ht1.buckets|)
      ensures old(rehashidx) == -1 ==> Current() == old(Current())
      ensures old(SmallSize(Current())) <= SmallSize(Current())
      ensures |ht0.buckets| > 0 || old(|ht0.buckets|) == 0
    {
      if rehashidx == -1 {
        return false;
      }
      var left := n;
      while left > 0
        invariant Valid() && contents == old(contents) && rehashidx != -1
        invariant |ht0.buckets| == old(|ht0.buckets|) && |ht1.buckets| == old(|ht1.buckets|)
        invariant rehashidx >= old(rehashidx) + n - left && NonEmpty(ht0.buckets) + n - left == old(NonEmpty(ht0.buckets))
      {
        left := left - 1;
        NonEmptyNone(ht0.buckets);
        if ht0.used == 0 {
          FinishRehash();
          return false;
        }
        SkipEmpty();
        MoveBucket();
      }
      return true;
    }

    /** All entries have moved: the second table takes the place of the first. */
    method FinishRehash()
      requires Valid() && rehashidx != -1 && ht0.used == 0
      modifies this`ht0, this`ht1, this`rehashidx
      ensures Valid() && ht0 == old(ht1) && rehashidx == -1 && |ht0.buckets| > 0
    {
      FinishKeeps(hash, Current(), contents);
      ht0 := ht1;
      ht1 := EmptyTable();
      rehashidx := -1;
    }

    /** The loop to the next bucket that is not empty; there is one. */
    method SkipEmpty()
      requires Valid() && rehashidx != -1 && ht0.used > 0
      modifies this`rehashidx
      ensures Valid() && old(rehashidx) <= rehashidx < |ht0.buckets| && ht0.buckets[rehashidx] != []
    {
      TotalPositive(ht0.buckets);
      ghost var next :| 0 <= next < |ht0.buckets| && ht0.buckets[next] != [];
      assert rehashidx <= next < |ht0.buckets|;
      while ht0.buckets[rehashidx] == []
        invariant 0 <= old(rehashidx) <= rehashidx <= next && Valid()
        decreases next - rehashidx
      {
        rehashidx := rehashidx + 1;
      }
    }

    /** `_dictRehashStep`: one step, unless a safe iterator is running. */
    method RehashStep()
      requires Valid()
      modifies this`ht0, this`ht1, this`rehashidx
      ensures Valid() && contents == old(contents)
      ensures iterators > 0 ==> Current() == old(Current())
      ensures iterators == 0 ==> rehashidx == -1 || rehashidx > old(rehashidx)
      ensures old(rehashidx) != -1 && rehashidx == -1 ==> |ht0.buckets| == old(|ht1.buckets|)
      ensures iterators == 0 && old(rehashidx) != -1 ==>
                if old(NonEmpty(ht0.buckets)) == 0 then rehashidx == -1
                else rehashidx != -1 && NonEmpty(ht0.buckets) + 1 == old(NonEmpty(ht0.buckets))
      ensures old(rehashidx) == -1 ==> Current() == old(Current())
      ensures old(SmallSize(Current())) <= SmallSize(Current())
      ensures |ht0.buckets| > 0 || old(|ht0.buckets|) == 0
    {
      if iterators == 0 {
        var _ := Rehash(1);
      }
    }

    /**
     The loop over the tables that `dictFind`, `_dictKeyIndex` and `dictGenericDelete`
     share: the second table is only looked at while rehashing. `table == 2` means not found.
     */
    method Search(k: K) returns (table: nat, idx: nat, j: nat)
      requires Valid() && |ht0.buckets| > 0
      ensures table <= 2
      ensures table == 2 <==> k !in contents
      ensures table < 2 ==>
                var t := TableOf(Current(), table);
                idx < |t.buckets| && j < |t.buckets[idx]| && t.buckets[idx][j] == Entry(k, contents[k])
    {
      HasKeyInMap(hash, Current(), contents, k);
      table, idx, j := 0, 0, 0;
      while table <= 1
        invariant 0 <= table <= 2
        invariant table >= 1 ==> rehashidx != -1
        invariant table >= 1 ==> !HasKey(hash, ht0, k)
        invariant table >= 2 ==> !HasKey(hash, ht1, k)
      {
        var t := TableOf(Current(), table);
        idx := Slot(|t.buckets|, hash(k));
        j := FindInChain(t.buckets[idx], k);
        SearchResult(hash, t, k, j);
        if j < |t.buckets[idx]| {
          assert Maps(hash, Current(), t.buckets[idx][j]);
          return;
        }
        if rehashidx == -1 {
          return 2, 0, 0;
        }
        table := table + 1;
      }
    }

    /** `dictFind`. */
    method Find(k: K) returns (r: Option<V>)
      requires Valid()
      modifies this`ht0, this`ht1, this`rehashidx
      ensures Valid() && contents == old(contents)
      ensures r == if k in contents then Some(contents[k]) else None
      ensures old(SmallSize(Current())) <= SmallSize(Current())
      ensures iterators == 0 && old(rehashidx) != -1 ==> rehashidx == -1 || rehashidx > old(rehashidx)
      ensures iterators > 0 ==> Current() == old(Current())
    {
      hide StateValid, Represents, NonEmpty, Slot, HasKey;
      if |ht0.buckets| == 0 {
        NothingInEmpty(hash, Current(), contents, k);
        return None;
      }
      if rehashidx != -1 {
        RehashStep();
      }
      var table, idx, j := Search(k);
      if table < 2 {
        return Some(TableOf(Current(), table).buckets[idx][j].val);
      }
      return None;
    }

    /** `_dictExpandIfNeeded`: never fails, and the next insertion has a table to go to. */
    method ExpandIfNeeded(canResize: bool) returns (ok: bool)
      requires Valid()
      modifies this`ht0, this`ht1, this`rehashidx
      ensures ok && Valid() && contents == old(contents)
      ensures |ht0.buckets| > 0
      ensures old(SmallSize(Current())) <= SmallSize(Current())
      ensures old(rehashidx) != -1 ==> Current() == old(Current())
      ensures old(|ht0.buckets|) > 0 ==> ht0 == old(ht0)
      ensures old(|ht0.buckets|) > 0 && Current() != old(Current()) ==> rehashidx == 0 && ht1.used == 0
      ensures old(|ht0.buckets|) == 0 ==> rehashidx == -1
      ensures old(rehashidx) == -1 && old(|ht0.buckets|) > 0 ==>
                (rehashidx == 0 <==>
                 ht0.used >= |ht0.buckets| && (canResize || ht0.used / |ht0.buckets| > FORCE_RESIZE_RATIO))
      ensures old(rehashidx) == -1 && rehashidx == 0 ==>
                2 * ht0.used <= |ht1.buckets| && (|ht1.buckets| > DICT_HT_INITIAL_SIZE ==> |ht1.buckets| < 4 * ht0.used)
      ensures old(|ht0.buckets|) == 0 ==> |ht0.buckets| < 2 * DICT_HT_INITIAL_SIZE
    {
      if rehashidx != -1 {
        return true;
      }
      if |ht0.buckets| == 0 {
        assert ht0.used == 0;
        ok := Expand(DICT_HT_INITIAL_SIZE);
        return;
      }
      if ht0.used >= |ht0.buckets| && (canResize || ht0.used / |ht0.buckets| > FORCE_RESIZE_RATIO) {
        ok := Expand(ht0.used * 2);
        return;
      }
      return true;
    }

    /** `_dictKeyIndex`: -1 exactly when the key exists, else its slot in the table it will be put in. */
    method KeyIndex(k: K, canResize: bool) returns (index: int)
      requires Valid()
      modifies this`ht0, this`ht1, this`rehashidx
      ensures Valid() && contents == old(contents)
      ensures index == -1 <==> k in contents
      ensures var t := if rehashidx == -1 then ht0 else ht1;
              |t.buckets| > 0 && (index != -1 ==> index == Slot(|t.buckets|, hash(k)))
      ensures old(SmallSize(Current())) <= SmallSize(Current())
      ensures old(|ht0.buckets|) > 0 ==> ht0 == old(ht0)
      ensures old(|ht0.buckets|) > 0 && Current() != old(Current()) ==>
                old(rehashidx) == -1 && rehashidx == 0 && ht1.used == 0
      ensures old(|ht0.buckets|) == 0 ==> rehashidx == -1
    {
      var ok := ExpandIfNeeded(canResize);
      if !ok {
        return -1;
      }
      var table, _, _ := Search(k);
      if table < 2 {
        return -1;
      }
      return Slot(if rehashidx == -1 then |ht0.buckets| else |ht1.buckets|, hash(k));
    }

    /** `dictAdd`: adds the pair exactly when the key is absent. */
    method Add(k: K, v: V, canResize: bool) returns (ok: bool)
      requires Valid()
      modifies this`ht0, this`ht1, this`rehashidx, this`contents
      ensures Valid()
      ensures ok == (k !in old(contents))
      ensures contents == if ok then old(contents)[k := v] else old(contents)
      ensures ok ==> FrontOfChain(k, v)
      ensures iterators == 0 && old(rehashidx) != -1 ==>
                rehashidx == -1 || rehashidx > old(rehashidx) || |ht0.buckets| == old(|ht1.buckets|)
      ensures old(SmallSize(Current())) <= SmallSize(Current())
      ensures |ht0.buckets| > 0
      ensures iterators > 0 && old(|ht0.buckets|) > 0 ==>
                exists mid :: ExpandedFrom(hash, old(Current()), mid) &&
                              if ok then Inserted(hash, mid, Current(), k) else Current() == mid
    {
      hide StateValid, Represents, NonEmpty, Slot, Insert, HasKey;
      if rehashidx != -1 {
        RehashStep();
      }
      var index := KeyIndex(k, canResize);
      ghost var mid := Current();
      assert iterators > 0 && old(|ht0.buckets|) > 0 ==> ExpandedFrom(hash, old(Current()), mid);
      if index == -1 {
        return false;
      }
      HasKeyInMap(hash, mid, contents, k);
      InsertAt(index, k, v);
      assert Inserted(hash, mid, Current(), k);
      return true;
    }

    /** The entry is the first one of its chain, in the second table while rehashing. */
    ghost predicate FrontOfChain(k: K, v: V)
      reads this
    {
      var t := if rehashidx == -1 then ht0 else ht1;
      |t.buckets| > 0 && var c := t.buckets[Slot(|t.buckets|, hash(k))]; c != [] && c[0] == Entry(k, v)
    }

    /** The second half of `dictAddRaw`: link the new entry in front of its chain. */
    method InsertAt(index: nat, k: K, v: V)
      requires Valid() && k !in contents
      requires var t := if rehashidx == -1 then ht0 else ht1;
               |t.buckets| > 0 && index == Slot(|t.buckets|, hash(k))
      modifies this`ht0, this`ht1, this`contents
      ensures Valid() && contents == old(contents)[k := v]
      ensures Current() == Insert(hash, old(Current()), Entry(k, v))
      ensures |ht0.buckets| == old(|ht0.buckets|) && |ht1.buckets| == old(|ht1.buckets|)
      ensures FrontOfChain(k, v)
    {
      InsertKeeps(hash, Current(), contents, Entry(k, v));
      if rehashidx != -1 {
        ht1 := SetBucket(ht1, index, [Entry(k, v)] + ht1.buckets[index], ht1.used + 1);
      } else {
        ht0 := SetBucket(ht0, index, [Entry(k, v)] + ht0.buckets[index], ht0.used + 1);
      }
      contents := contents[k := v];
    }

    /** Unlink entry `j` of bucket `i` from a table. */
    method UnlinkAt(table: nat, i: nat, j: nat)
      requires Valid()
      requires i < |TableOf(Current(), table).buckets| && j < |TableOf(Current(), table).buckets[i]|
      modifies this`ht0, this`ht1, this`contents
      ensures Valid()
      ensures contents == old(contents) - {old(TableOf(Current(), table).buckets[i][j].key)}
      ensures |ht0.buckets| == old(|ht0.buckets|) && |ht1.buckets| == old(|ht1.buckets|)
      ensures table < 2 ==>
                Unlinked(old(Current()), Current(), old(TableOf(Current(), table).buckets[i][j].key))
    {
      ghost var k := TableOf(Current(), table).buckets[i][j].key;
      UnlinkKeeps(hash, Current(), contents, table, i, j);
      if table == 0 {
        ht0 := Unlink(ht0, i, j);
      } else {
        ht1 := Unlink(ht1, i, j);
      }
      contents := contents - {k};
      assert table < 2 ==> At(old(Current()), table, i, j, k);
    }

    /** Overwrite the value of entry `j` of bucket `i` of a table. */
    method OverwriteAt(table: nat, i: nat, j: nat, v: V)
      requires Valid()
      requires table < 2
      requires i < |TableOf(Current(), table).buckets| && j < |TableOf(Current(), table).buckets[i]|
      modifies this`ht0, this`ht1, this`contents
      ensures Valid()
      ensures contents == old(contents)[old(TableOf(Current(), table).buckets[i][j].key) := v]
      ensures |ht0.buckets| == old(|ht0.buckets|) && |ht1.buckets| == old(|ht1.buckets|)
      ensures Overwritten(old(Current()), Current(), old(TableOf(Current(), table).buckets[i][j].key))
    {
      ghost var k := TableOf(Current(), table).buckets[i][j].key;
      SetValKeeps(hash, Current(), contents, table, i, j, v);
      if table == 0 {
        ht0 := SetVal(ht0, i, j, v);
      } else {
        ht1 := SetVal(ht1, i, j, v);
      }
      contents := contents[k := v];
      assert At(old(Current()), table, i, j, k);
    }

    /** `dictReplace`: the key maps to the value afterwards, whether or not it existed. */
    method Replace(k: K, v: V, canResize: bool) returns (added: bool)
      requires Valid()
      modifies this`ht0, this`ht1, this`rehashidx, this`contents
      ensures Valid()
      ensures contents == old(contents)[k := v]
      ensures added == (k !in old(contents))
      ensures old(SmallSize(Current())) <= SmallSize(Current())
      ensures iterators > 0 && old(|ht0.buckets|) > 0 ==>
                exists mid :: ExpandedFrom(hash, old(Current()), mid) &&
                              if added then Inserted(hash, mid, Current(), k) else Overwritten(mid, Current(), k)
    {
      hide StateValid, Represents, NonEmpty, Slot, Insert, HasKey;
      added := Add(k, v, canResize);
      if added {
        return;
      }
      if rehashidx != -1 {
        RehashStep();
      }
      ghost var mid := Current();
      var table, i, j := Search(k);
      assert At(mid, table, i, j, k);
      OverwriteAt(table, i, j, v);
    }

    /** `dictGenericDelete`: removes the key exactly when it is present. */
    method Delete(k: K) returns (ok: bool)
      requires Valid()
      modifies this`ht0, this`ht1, this`rehashidx, this`contents
      ensures Valid()
      ensures ok == (k in old(contents))
      ensures contents == old(contents) - {k}
      ensures old(SmallSize(Current())) <= SmallSize(Current())
      ensures iterators == 0 && old(rehashidx) != -1 ==> rehashidx == -1 || rehashidx > old(rehashidx)
      ensures iterators > 0 ==>
                if ok then Unlinked(old(Current()), Current(), k) else Current() == old(Current())
    {
      hide StateValid, Represents, NonEmpty, Slot, Insert, HasKey;
      assert k !in contents ==> contents - {k} == contents;
      if |ht0.buckets| == 0 {
        NothingInEmpty(hash, Current(), contents, k);
        return false;
      }
      if rehashidx != -1 {
        RehashStep();
      }
      var table, i, j := Search(k);
      if table < 2 {
        UnlinkAt(table, i, j);
        return true;
      }
      return false;
    }
  }
}
