/**
 `dictScan`: a stateless cursor over a table that may change size between calls.

 A call with cursor `v` is responsible for the hashes whose reversed digits lie from
 those of `v` up to those of the cursor it returns. Everything below follows from
 that reading: when a call meets its responsibility, for which cursors it does not,
 and what a whole iteration from cursor 0 back to cursor 0 guarantees.
 */
module DictScan {
  import opened Words
  import opened DictTables

  // --- What one call visits ---

  /** Log2 of the number of buckets of the smaller table. */
  function SmallBits<K, V>(s: State<K, V>): nat {
    Log2(SmallSize(s))
  }

  /** By how many digits the mask of the larger table is longer. */
  function ExtraBits<K, V>(s: State<K, V>): int {
    Log2(LargeSize(s)) - Log2(SmallSize(s))
  }

  function SmallTable<K, V>(s: State<K, V>): Table<K, V> {
    if s.rehashidx == -1 || |s.ht0.buckets| <= |s.ht1.buckets| then s.ht0 else s.ht1
  }

  function LargeTable<K, V>(s: State<K, V>): Table<K, V> {
    if s.rehashidx == -1 || |s.ht0.buckets| > |s.ht1.buckets| then s.ht0 else s.ht1
  }

  /** The digits of `v` that the larger mask covers and the smaller one does not. */
  function Field(k: nat, d: nat, v: nat): (f: nat)
    ensures f < Pow2(d)
  {
    Low(d, High(k, v))
  }

  /** The hash agrees with the cursor in the smaller table, and its field in the larger one is not behind. */
  predicate Reached(k: nat, d: nat, v: nat, h: nat) {
    Low(k, h) == Low(k, v) && Field(k, d, h) >= Field(k, d, v)
  }

  ghost predicate Visited<K, V>(hash: K -> nat, s: State<K, V>, v: nat, e: Entry<K, V>)
    requires ExtraBits(s) >= 0
  {
    || (Has(hash, SmallTable(s), e) && Low(SmallBits(s), hash(e.key)) == Low(SmallBits(s), v))
    || (s.rehashidx != -1 && Has(hash, LargeTable(s), e) &&
        Reached(SmallBits(s), ExtraBits(s), v, hash(e.key)))
  }

  /** The successor of `v` in reverse binary order on `k` digits, 0 after the last. */
  function NextCursor(k: nat, v: nat): (c: nat)
    ensures c < Pow2(k)
  {
    Rank(Inc(k, Rank(v, k)), k)
  }

  // --- Sizes ---

  ghost predicate Scannable<K(!new), V(!new)>(n: nat, hash: K -> nat, s: State<K, V>) {
    StateValid(hash, s) && LargeSize(s) <= Pow2(n)
  }

  lemma Sizes<K(!new), V(!new)>(n: nat, hash: K -> nat, s: State<K, V>)
    requires Scannable(n, hash, s) && s.ht0.used + s.ht1.used > 0
    ensures SmallSize(s) == |SmallTable(s).buckets| == Pow2(SmallBits(s))
    ensures LargeSize(s) == |LargeTable(s).buckets| == Pow2(SmallBits(s) + ExtraBits(s))
    ensures 0 <= ExtraBits(s) && SmallBits(s) + ExtraBits(s) <= n
    ensures TableValid(hash, SmallTable(s)) && TableValid(hash, LargeTable(s))
  {
    assert |s.ht0.buckets| > 0 by {
      TotalOfEmpties(EmptyTable<K, V>().buckets);
    }
    Pow2Order(Log2(SmallSize(s)), Log2(LargeSize(s)));
    Pow2Order(Log2(LargeSize(s)), n);
  }

  lemma {:induction false} Pow2Order(a: nat, b: nat)
    requires Pow2(a) <= Pow2(b)
    ensures a <= b
  {
    if a > b {
      Pow2Monotone(b + 1, a);
    }
  }

  lemma BucketIs<K, V>(hash: K -> nat, t: Table<K, V>, k: nat, i: nat)
    requires TableValid(hash, t) && |t.buckets| == Pow2(k) && i < Pow2(k)
    ensures forall e :: e in t.buckets[i] <==> Has(hash, t, e) && Low(k, hash(e.key)) == i
  {
    assert ChainValid(hash, |t.buckets|, i, t.buckets[i]);
    forall e: Entry<K, V>
      ensures Slot(|t.buckets|, hash(e.key)) == Low(k, hash(e.key))
    {
      Log2OfPow2(k);
      SlotIsLow(|t.buckets|, hash(e.key));
    }
  }

  // --- The inner loop over the expansions of the cursor ---

  lemma {:induction false} LowInc(d: nat, v: nat)
    ensures Low(d, v + 1) == if Low(d, v) + 1 == Pow2(d) then 0 else Low(d, v) + 1
    decreases d
  {
    if d > 0 {
      if v % 2 == 0 {
        assert (v + 1) / 2 == v / 2 && (v + 1) % 2 == 1;
      } else {
        assert (v + 1) / 2 == v / 2 + 1 && (v + 1) % 2 == 0;
      }
      LowInc(d - 1, v / 2);
    }
  }

  lemma {:induction false} LowOnes(d: nat, m: nat)
    requires d <= m
    ensures Low(d, Pow2(m) - 1) == Pow2(d) - 1
    decreases d
  {
    if d > 0 {
      HalfOnes(m);
      LowOnes(d - 1, m - 1);
    }
  }

  /** `v = (((v | m0) + 1) & ~m0) | (v & m0)`. */
  function NextExpansion(n: nat, m0: nat, v: nat): nat
    requires m0 < Pow2(n) && v < Pow2(n)
  {
    OrBound(n, v, m0);
    Or(And(Inc(n, Or(v, m0)), Not(n, m0)), And(v, m0))
  }

  /** One more than the last number of a block is the first number of the next block. */
  lemma IncBlock(n: nat, k: nat, q: nat)
    requires k <= n && q < Pow2(n - k)
    ensures Up(k, q) + Pow2(k) - 1 < Pow2(n)
    ensures Inc(n, Up(k, q) + Pow2(k) - 1) == Up(k, Inc(n - k, q))
  {
    hide Rank, Up, Low, High, Pow2, And, Or, Xor;
    UpPlusOne(k, q);
    UpPow2(k, n - k);
    UpMonotone(k, q + 1, Pow2(n - k));
    UpMonotone(k, Pow2(n - k), q + 1);
    UpOfZero(k);
  }

  lemma NextExpansionIs(n: nat, k: nat, v: nat)
    requires k <= n && v < Pow2(n)
    ensures Pow2(k) <= Pow2(n) && High(k, v) < Pow2(n - k)
    ensures NextExpansion(n, Pow2(k) - 1, v) == Up(k, Inc(n - k, High(k, v))) + Low(k, v)
  {
    hide Rank, Up, Low, High, Pow2, And, Or, Xor;
    var q := High(k, v);
    Pow2Monotone(k, n);
    OrMask(k, v);
    UpPow2(k, n - k);
    BelowUp(k, v, Pow2(n - k));
    IncBlock(n, k, q);
    var q' := Inc(n - k, q);
    CutUp(k, q', 0);
    AndHigh(n, k, Up(k, q'));
    AndMask(k, v);
    OrDisjoint(k, q', Low(k, v));
  }

  lemma LowOfInc(d: nat, m: nat, q: nat)
    requires d <= m && q < Pow2(m)
    ensures Low(d, Inc(m, q)) == Inc(d, Low(d, q))
  {
    hide Low, Pow2;
    LowInc(d, q);
    LowOnes(d, m);
    LowOfZero(d);
  }

  /** The step keeps the digits of the smaller mask and counts the field up, wrapping to 0. */
  lemma NextExpansionCounts(n: nat, k: nat, d: nat, v: nat)
    requires k + d <= n && v < Pow2(n)
    ensures Pow2(k) <= Pow2(n)
    ensures var v' := NextExpansion(n, Pow2(k) - 1, v);
            v' < Pow2(n) && Low(k, v') == Low(k, v) && Field(k, d, v') == Inc(d, Field(k, d, v))
  {
    hide Rank, Up, Low, High, Pow2, And, Or, Xor;
    NextExpansionIs(n, k, v);
    var q' := Inc(n - k, High(k, v));
    CutUp(k, q', Low(k, v));
    UpPow2(k, n - k);
    BelowUp(k, Up(k, q') + Low(k, v), Pow2(n - k));
    LowOfInc(d, n - k, High(k, v));
  }

  lemma UpPlusOne(k: nat, q: nat)
    ensures Up(k, q + 1) == Up(k, q) + Pow2(k)
  {
    UpMinus(k, q + 1, q);
    UpPow2(k, 0);
  }

  /** `v & (m0 ^ m1)` tests the field. */
  lemma FieldTest(k: nat, d: nat, v: nat)
    ensures And(v, Xor(Pow2(k) - 1, Pow2(k + d) - 1)) != 0 <==> Field(k, d, v) != 0
  {
    XorMasks(k, k + d);
    AndRange(k, d, v);
    UpOfZero(k);
    UpMonotone(k, Field(k, d, v), 0);
  }

  // --- The cursor ---

  lemma {:induction false} RankOfZero(n: nat)
    ensures Rank(0, n) == 0
  {
    if n > 0 {
      RankOfZero(n - 1);
    }
  }

  /** The reversed cursor after a call. */
  lemma CursorRank(n: nat, k: nat, v: nat)
    requires k <= n
    ensures Rank(NextCursor(k, v), n) == Up(n - k, Inc(k, Rank(v, k)))
  {
    hide Rank, Up, Low, High, Pow2, And, Or, Xor;
    var c := NextCursor(k, v);
    RankInvolution(Inc(k, Rank(v, k)), k);
    RankSplit(c, k, n - k);
    LowSmall(k, c);
    RankOfZero(n - k);
  }

  /** The returned cursor is 0 exactly when the call was the last one. */
  lemma CursorZero(k: nat, v: nat)
    ensures NextCursor(k, v) == 0 <==> Rank(v, k) + 1 == Pow2(k)
  {
    RankOfZero(k);
    RankInvolution(Inc(k, Rank(v, k)), k);
  }

  lemma BlockEnd(n: nat, k: nat, v: nat)
    requires k <= n
    ensures Pow2(k) <= Pow2(n)
    ensures var x := Low(k, v) + Pow2(n) - Pow2(k);
            Low(k, x) == Low(k, v) && High(k, x) == Pow2(n - k) - 1
  {
    Pow2Monotone(k, n);
    UpPow2(k, n - k);
    UpMinus(k, Pow2(n - k), 1);
    UpPow2(k, 0);
    CutUp(k, Pow2(n - k) - 1, Low(k, v));
  }

  lemma RankOfBlockEnd(n: nat, k: nat, v: nat)
    requires k <= n
    ensures Pow2(k) <= Pow2(n)
    ensures Rank(Low(k, v) + Pow2(n) - Pow2(k), n) == Up(n - k, Rank(v, k)) + Pow2(n - k) - 1
  {
    hide Rank, Up, Low, High, Pow2, And, Or, Xor;
    BlockEnd(n, k, v);
    var x := Low(k, v) + Pow2(n) - Pow2(k);
    RankSplit(x, k, n - k);
    RankSame(x, v, k);
    RankOnes(n - k);
  }

  /** `v |= ~m0; v = rev(v); v++; v = rev(v)`. */
  lemma ReverseIncrement(n: nat, k: nat, v: nat)
    requires k <= n && v < Pow2(n)
    ensures Pow2(k) <= Pow2(n) && Or(v, Not(n, Pow2(k) - 1)) < Pow2(n)
    ensures Rank(Inc(n, Rank(Or(v, Not(n, Pow2(k) - 1)), n)), n) == NextCursor(k, v)
  {
    hide Rank, Up, Low, High, Pow2, And, Or, Xor;
    OrHigh(n, k, v);
    RankOfBlockEnd(n, k, v);
    IncBlock(n, n - k, Rank(v, k));
    CursorRank(n, k, v);
    RankInvolution(NextCursor(k, v), n);
  }

  // --- The method ---

  method Emit<K, V>(c: Chain<K, V>, ghost before: seq<Entry<K, V>>, emitted: seq<Entry<K, V>>)
    returns (r: seq<Entry<K, V>>)
    requires emitted == before
    ensures r == before + c
  {
    r := emitted;
    var j := 0;
    while j < |c|
      invariant 0 <= j <= |c| && r == before + c[..j]
    {
      r := r + [c[j]];
      j := j + 1;
    }
    assert c[..|c|] == c;
  }

  /**
   `dictScan` on words of 2^w digits. `emitted` is the sequence of callback calls; they
   are exactly for the entries `Visited` describes.
   */
  method Scan<K(!new), V(!new)>(w: nat, ghost hash: K -> nat, s: State<K, V>, v: nat)
    returns (next: nat, emitted: seq<Entry<K, V>>)
    requires Scannable(Pow2(w), hash, s) && v < Pow2(Pow2(w))
    ensures s.ht0.used + s.ht1.used == 0 ==> next == 0 && emitted == []
    ensures s.ht0.used + s.ht1.used > 0 ==>
              && next == NextCursor(SmallBits(s), v)
              && ExtraBits(s) >= 0
              && forall e :: e in emitted <==> Visited(hash, s, v, e)
    ensures DistinctKeys(emitted)
  {
    hide Rank, Up, Low, High, Pow2, And, Or, Xor;
    if s.ht0.used + s.ht1.used == 0 {
      return 0, [];
    }
    var n := Pow2(w);
    ghost var k, d := SmallBits(s), ExtraBits(s);
    Sizes(n, hash, s);
    var t0 := SmallTable(s);
    var m0 := |t0.buckets| - 1;
    AndMask(k, v);
    BucketIs(hash, t0, k, Low(k, v));
    emitted := Emit(t0.buckets[And(v, m0)], [], []);
    assert ChainValid(hash, |t0.buckets|, And(v, m0), t0.buckets[And(v, m0)]);
    var u := v;
    if s.rehashidx != -1 {
      var more;
      u, more := ScanExpansions(n, hash, s, v);
      TablesDistinct(hash, s, emitted, more);
      emitted := emitted + more;
    }
    ReverseIncrement(n, k, u);
    RankSame(u, v, k);
    u := Or(u, Not(n, m0));
    u := Words.Rev(w, u);
    u := Inc(n, u);
    next := Words.Rev(w, u);
  }

  /** The `do … while` loop of `dictScan`: the expansions of the cursor into the larger table. */
  method ScanExpansions<K(!new), V(!new)>(n: nat, ghost hash: K -> nat, s: State<K, V>, v: nat)
    returns (u: nat, emitted: seq<Entry<K, V>>)
    requires Scannable(n, hash, s) && v < Pow2(n)
    requires s.ht0.used + s.ht1.used > 0 && s.rehashidx != -1
    ensures u < Pow2(n) && Low(SmallBits(s), u) == Low(SmallBits(s), v)
    ensures ExtraBits(s) >= 0
    ensures forall e :: e in emitted <==>
                        Has(hash, LargeTable(s), e) && Reached(SmallBits(s), ExtraBits(s), v, hash(e.key))
    ensures DistinctKeys(emitted)
  {
    hide Rank, Up, Low, High, Pow2, And, Or, Xor;
    Sizes(n, hash, s);
    ghost var k, d := SmallBits(s), ExtraBits(s);
    var t1 := LargeTable(s);
    var m0, m1 := |SmallTable(s).buckets| - 1, |t1.buckets| - 1;
    Pow2Monotone(k, n);
    emitted := [];
    u := v;
    var first := true;
    ghost var c := Field(k, d, v);
    while first || And(u, Xor(m0, m1)) != 0
      invariant u < Pow2(n) && Low(k, u) == Low(k, v)
      invariant Field(k, d, v) <= c <= Pow2(d) && first == (c == Field(k, d, v))
      invariant Field(k, d, u) == if c == Pow2(d) then 0 else c
      invariant EmittedUpTo(hash, t1, k, d, v, c, emitted) && DistinctKeys(emitted)
      decreases Pow2(d) - c
    {
      FieldTest(k, d, u);
      AndMask(k + d, u);
      EmitOne(hash, t1, k, d, v, u, emitted);
      ExpansionDistinct(hash, t1, k, d, v, u, emitted);
      emitted := emitted + t1.buckets[And(u, m1)];
      NextExpansionCounts(n, k, d, u);
      u := NextExpansion(n, m0, u);
      first := false;
      c := c + 1;
    }
    FieldTest(k, d, u);
    assert c == Pow2(d);
  }

  ghost predicate DistinctKeys<K, V>(es: seq<Entry<K, V>>) {
    forall i, j | 0 <= i < j < |es| :: es[i].key != es[j].key
  }

  lemma DistinctAppend<K, V>(a: seq<Entry<K, V>>, b: seq<Entry<K, V>>)
    requires DistinctKeys(a) && DistinctKeys(b) && forall e, f | e in a && f in b :: e.key != f.key
    ensures DistinctKeys(a + b)
  {
    forall i, j | 0 <= i < j < |a + b|
      ensures (a + b)[i].key != (a + b)[j].key
    {
      if i < |a| <= j {
        assert (a + b)[i] in a && (a + b)[j] in b;
      }
    }
  }

  /** An expansion emits no key that was emitted before it. */
  lemma ExpansionDistinct<K(!new), V(!new)>(
    hash: K -> nat, t: Table<K, V>, k: nat, d: nat, v: nat, u: nat, emitted: seq<Entry<K, V>>)
    requires TableValid(hash, t) && |t.buckets| == Pow2(k + d) && DistinctKeys(emitted)
    requires EmittedUpTo(hash, t, k, d, v, Field(k, d, u), emitted)
    ensures DistinctKeys(emitted + t.buckets[Low(k + d, u)])
  {
    hide Low, Field, Pow2, Has, Reached, Slot;
    var bucket := t.buckets[Low(k + d, u)];
    ExpansionBucket(hash, t, k, d, u);
    assert ChainValid(hash, |t.buckets|, Low(k + d, u), bucket);
    forall e, f | e in emitted && f in bucket
      ensures e.key != f.key
    {
      assert Field(k, d, hash(e.key)) < Field(k, d, u) == Field(k, d, hash(f.key));
    }
    DistinctAppend(emitted, bucket);
  }

  /** No key is in both tables. */
  lemma TablesDistinct<K(!new), V(!new)>(
    hash: K -> nat, s: State<K, V>, small: seq<Entry<K, V>>, large: seq<Entry<K, V>>)
    requires StateValid(hash, s) && s.rehashidx != -1 && DistinctKeys(small) && DistinctKeys(large)
    requires forall e | e in small :: Has(hash, SmallTable(s), e)
    requires forall e | e in large :: Has(hash, LargeTable(s), e)
    ensures DistinctKeys(small + large)
  {
    hide Has, TableValid;
    forall e, f | e in small && f in large
      ensures e.key != f.key
    {
      assert Has(hash, SmallTable(s), Entry(e.key, e.val)) && Has(hash, LargeTable(s), Entry(f.key, f.val));
      assert HasKey(hash, SmallTable(s), e.key) && HasKey(hash, LargeTable(s), f.key);
    }
    DistinctAppend(small, large);
  }

  /** The callback has been called for the expansions from that of `v` up to field `c`. */
  ghost predicate EmittedUpTo<K(!new), V(!new)>(
    hash: K -> nat, t: Table<K, V>, k: nat, d: nat, v: nat, c: nat, emitted: seq<Entry<K, V>>)
  {
    forall e :: e in emitted <==>
                Has(hash, t, e) && Reached(k, d, v, hash(e.key)) && Field(k, d, hash(e.key)) < c
  }

  lemma EmitOne<K(!new), V(!new)>(
    hash: K -> nat, t: Table<K, V>, k: nat, d: nat, v: nat, u: nat, emitted: seq<Entry<K, V>>)
    requires TableValid(hash, t) && |t.buckets| == Pow2(k + d)
    requires Low(k, u) == Low(k, v) && Field(k, d, u) >= Field(k, d, v)
    requires EmittedUpTo(hash, t, k, d, v, Field(k, d, u), emitted)
    ensures EmittedUpTo(hash, t, k, d, v, Field(k, d, u) + 1, emitted + t.buckets[Low(k + d, u)])
  {
    ExpansionBucket(hash, t, k, d, u);
  }

  /** A bucket of the larger table holds the hashes with the cursor's low digits and field. */
  lemma ExpansionBucket<K, V>(hash: K -> nat, t: Table<K, V>, k: nat, d: nat, u: nat)
    requires TableValid(hash, t) && |t.buckets| == Pow2(k + d)
    ensures forall e :: e in t.buckets[Low(k + d, u)] <==>
                        Has(hash, t, e) && Low(k, hash(e.key)) == Low(k, u) && Field(k, d, hash(e.key)) == Field(k, d, u)
  {
    hide Rank, Up, Low, High, Pow2, And, Or, Xor;
    BucketIs(hash, t, k + d, Low(k + d, u));
    forall e: Entry<K, V>
      ensures Low(k + d, hash(e.key)) == Low(k + d, u) <==>
              Low(k, hash(e.key)) == Low(k, u) && Field(k, d, hash(e.key)) == Field(k, d, u)
    {
      SameLowAndField(k, d, hash(e.key), u);
    }
  }

  lemma SameLowAndField(k: nat, d: nat, a: nat, b: nat)
    ensures Low(k + d, a) == Low(k + d, b) <==> Low(k, a) == Low(k, b) && Field(k, d, a) == Field(k, d, b)
  {
    hide Rank, Up, Low, High, Pow2, And, Or, Xor;
    LowSplit(k, d, a);
    LowSplit(k, d, b);
    CutUp(k, Field(k, d, a), Low(k, a));
    CutUp(k, Field(k, d, b), Low(k, b));
  }

  // --- What one call is responsible for, and when it meets it ---

  /** The hashes the cursor moves past in one call: reversed, from `v` up to the returned cursor. */
  predicate Due(n: nat, k: nat, v: nat, h: nat) {
    Rank(v, n) <= Rank(h, n) && (NextCursor(k, v) == 0 || Rank(h, n) < Rank(NextCursor(k, v), n))
  }

  lemma NotPast(n: nat, k: nat, v: nat, h: nat)
    requires k <= n
    ensures NextCursor(k, v) == 0 || Rank(h, n) < Rank(NextCursor(k, v), n) <==> Rank(h, k) <= Rank(v, k)
  {
    hide Rank, Up, Low, High, Pow2, And, Or, Xor;
    CursorZero(k, v);
    CursorRank(n, k, v);
    RankHigh(h, k, n - k);
    BelowUp(n - k, Rank(h, n), Rank(v, k) + 1);
  }

  lemma NotBehind(n: nat, k: nat, v: nat, h: nat)
    requires k <= n && Rank(v, n) <= Rank(h, n)
    ensures Rank(v, k) <= Rank(h, k)
  {
    hide Rank, Up, Low, High, Pow2, And, Or, Xor;
    RankHigh(h, k, n - k);
    RankHigh(v, k, n - k);
    HighMonotone(n - k, Rank(v, n), Rank(h, n));
  }

  /** They are the hashes of the cursor's bucket that are not behind the cursor. */
  lemma DueIsBucket(n: nat, k: nat, v: nat, h: nat)
    requires k <= n
    ensures Due(n, k, v, h) <==> Low(k, h) == Low(k, v) && Rank(v, n) <= Rank(h, n)
  {
    hide Rank, Up, Low, High, Pow2, And, Or, Xor;
    NotPast(n, k, v, h);
    RankSame(h, v, k);
    if Rank(v, n) <= Rank(h, n) {
      NotBehind(n, k, v, h);
    }
  }

  /** The binary digits of `f` are ones from the bottom up, with none missing. */
  predicate OnesFromBottom(f: nat) {
    And(f, f + 1) == 0
  }

  lemma OnesStep(f: nat)
    ensures OnesFromBottom(f) <==> f == 0 || (f % 2 == 1 && OnesFromBottom(f / 2))
  {
    AndStep(f, f + 1);
    if f % 2 == 0 {
      assert (f + 1) / 2 == f / 2;
      AndSelf(f / 2);
    } else {
      assert (f + 1) / 2 == f / 2 + 1;
    }
  }

  lemma {:induction false} AndSelf(a: nat)
    ensures And(a, a) == a
  {
    if a > 0 {
      AndSelf(a / 2);
    }
  }

  /** Below such a number, counting up and counting up in reverse agree. */
  lemma {:induction false} OnesOrder(d: nat, f: nat, x: nat)
    requires OnesFromBottom(f) && f < Pow2(d) && x < f
    ensures Rank(x, d) < Rank(f, d)
    decreases d
  {
    OnesStep(f);
    if x % 2 == 1 {
      OnesOrder(d - 1, f / 2, x / 2);
    }
  }

  /** Below any other number, some number comes later in reverse order. */
  lemma {:induction false} GapBelow(d: nat, f: nat) returns (x: nat)
    requires !OnesFromBottom(f) && f < Pow2(d)
    ensures x < f && Rank(x, d) > Rank(f, d)
    decreases d
  {
    hide Rank, OnesFromBottom;
    OnesStep(f);
    RankStep(f, d);
    if f % 2 == 0 {
      x := f - 1;
    } else {
      var y := GapBelow(d - 1, f / 2);
      x := 2 * y + 1;
    }
    RankStep(x, d);
  }

  lemma RankStep(v: nat, n: nat)
    ensures n > 0 ==> Rank(v, n) == (if v % 2 == 1 then Pow2(n - 1) else 0) + Rank(v / 2, n - 1)
  {
  }

  /** Every hash the call is responsible for is in a bucket it visits. */
  ghost predicate CallComplete(n: nat, k: nat, d: nat, v: nat) {
    forall h: nat | h < Pow2(n) && Due(n, k, v, h) :: Reached(k, d, v, h)
  }

  /** With the same low digits, reverse order is decided by the fields first. */
  lemma FieldOrder(n: nat, k: nat, d: nat, v: nat, h: nat)
    requires k + d <= n && Low(k, h) == Low(k, v)
    ensures Rank(v, n) <= Rank(h, n) ==> Rank(Field(k, d, v), d) <= Rank(Field(k, d, h), d)
    ensures Rank(Field(k, d, v), d) < Rank(Field(k, d, h), d) ==> Rank(v, n) <= Rank(h, n)
  {
    hide Rank, Up, Low, High, Pow2;
    var m := n - k;
    RankSplit(v, k, m);
    RankSplit(h, k, m);
    RankSame(h, v, k);
    RankHigh(High(k, v), d, m - d);
    RankHigh(High(k, h), d, m - d);
    LowLow(d, d, High(k, v));
    LowLow(d, d, High(k, h));
    RankSame(High(k, v), Field(k, d, v), d);
    RankSame(High(k, h), Field(k, d, h), d);
    if Rank(v, n) <= Rank(h, n) {
      HighMonotone(m - d, Rank(High(k, v), m), Rank(High(k, h), m));
    } else {
      HighMonotone(m - d, Rank(High(k, h), m), Rank(High(k, v), m));
    }
  }

  /**
   A call is complete exactly when the cursor digits between the two masks are ones
   from the bottom up. This always holds when they are all zero, and when the tables
   differ by at most a factor of two; it can fail after the table shrinks by four.
   */
  lemma CompleteIff(n: nat, k: nat, d: nat, v: nat)
    requires k + d <= n
    ensures CallComplete(n, k, d, v) <==> OnesFromBottom(Field(k, d, v))
  {
    hide Rank, Up, Low, High, Pow2, And, Or, Xor;
    var f := Field(k, d, v);
    if OnesFromBottom(f) {
      forall h: nat | h < Pow2(n) && Due(n, k, v, h)
        ensures Reached(k, d, v, h)
      {
        DueIsBucket(n, k, v, h);
        FieldOrder(n, k, d, v, h);
        if Field(k, d, h) < f {
          OnesOrder(d, f, Field(k, d, h));
        }
      }
    } else {
      var x := GapBelow(d, f);
      var h := Up(k, x) + Low(k, v);
      CutUp(k, x, Low(k, v));
      LowSmall(d, x);
      UpPow2(k, n - k);
      Pow2Monotone(d, n - k);
      BelowUp(k, h, Pow2(n - k));
      FieldOrder(n, k, d, v, h);
      DueIsBucket(n, k, v, h);
      assert !Reached(k, d, v, h);
    }
  }

  lemma SmallFieldComplete(k: nat, d: nat, v: nat)
    requires d <= 1 || High(k, v) == 0
    ensures OnesFromBottom(Field(k, d, v))
  {
    OnesStep(Field(k, d, v));
    OnesStep(0);
    if High(k, v) == 0 {
      LowOfZero(d);
    } else {
      assert Pow2(1) == 2 && Pow2(0) == 1;
    }
  }

  /** A complete call passes every present entry it is responsible for to the callback. */
  lemma CompleteCallVisits<K(!new), V(!new)>(n: nat, hash: K -> nat, s: State<K, V>, v: nat, e: Entry<K, V>)
    requires Scannable(n, hash, s) && Maps(hash, s, e) && hash(e.key) < Pow2(n)
    requires Due(n, SmallBits(s), v, hash(e.key))
    requires ExtraBits(s) >= 0 ==> OnesFromBottom(Field(SmallBits(s), ExtraBits(s), v))
    ensures s.ht0.used + s.ht1.used > 0
    ensures ExtraBits(s) >= 0 && Visited(hash, s, v, e)
  {
    hide Rank, Up, Low, High, Pow2, And, Or, Xor;
    PresentMeansUsed(hash, s, e);
    Sizes(n, hash, s);
    CompleteIff(n, SmallBits(s), ExtraBits(s), v);
    DueIsBucket(n, SmallBits(s), v, hash(e.key));
  }

  lemma PresentMeansUsed<K(!new), V(!new)>(hash: K -> nat, s: State<K, V>, e: Entry<K, V>)
    requires StateValid(hash, s) && Maps(hash, s, e)
    ensures s.ht0.used + s.ht1.used > 0
  {
    if Has(hash, s.ht0, e) {
      TotalBound(s.ht0.buckets, Slot(|s.ht0.buckets|, hash(e.key)));
    } else {
      TotalBound(s.ht1.buckets, Slot(|s.ht1.buckets|, hash(e.key)));
    }
  }

  // --- Whole iterations ---

  function CursorAfter<K, V>(s: State<K, V>, v: nat): nat {
    if s.ht0.used + s.ht1.used == 0 then 0 else NextCursor(SmallBits(s), v)
  }

  /** The dictionary at each call and the cursors passed: from 0 until 0 is returned. */
  ghost predicate Iteration<K(!new), V(!new)>(n: nat, hash: K -> nat, states: seq<State<K, V>>, cursors: seq<nat>) {
    && |states| > 0
    && |cursors| == |states| + 1
    && cursors[0] == 0
    && cursors[|states|] == 0
    && (forall i | 0 <= i < |states| :: Scannable(n, hash, states[i]))
    && (forall i | 0 <= i < |states| :: cursors[i + 1] == CursorAfter(states[i], cursors[i]))
  }

  ghost predicate Present<K(!new), V(!new)>(hash: K -> nat, s: State<K, V>, k: K) {
    exists v :: Maps(hash, s, Entry(k, v))
  }

  ghost predicate Emitted<K(!new), V(!new)>(hash: K -> nat, s: State<K, V>, cursor: nat, k: K) {
    ExtraBits(s) >= 0 && exists v :: Visited(hash, s, cursor, Entry(k, v))
  }

  /** The condition of `CompleteIff`, for one call. */
  predicate GoodCall<K, V>(s: State<K, V>, cursor: nat) {
    ExtraBits(s) >= 0 ==> OnesFromBottom(Field(SmallBits(s), ExtraBits(s), cursor))
  }

  /** Some call of the iteration is responsible for any given hash. */
  lemma SomeCallDue<K(!new), V(!new)>(
    n: nat, hash: K -> nat, states: seq<State<K, V>>, cursors: seq<nat>, h: nat) returns (i: nat)
    requires Iteration(n, hash, states, cursors)
    requires forall j | 0 <= j < |states| :: states[j].ht0.used + states[j].ht1.used > 0
    ensures i < |states| && Due(n, SmallBits(states[i]), cursors[i], h)
  {
    hide Rank, Up, Low, High, Pow2, And, Or, Xor;
    RankOfZero(n);
    i := 0;
    while !Due(n, SmallBits(states[i]), cursors[i], h)
      invariant 0 <= i < |states| && Rank(cursors[i], n) <= Rank(h, n)
      decreases |states| - i
    {
      assert cursors[i + 1] == NextCursor(SmallBits(states[i]), cursors[i]);
      i := i + 1;
    }
  }

  /**
   The guarantee of `dictScan`: a key present at every call of an iteration is emitted,
   whatever happened between the calls, provided each call satisfies `GoodCall`.
   */
  lemma ScanCoverage<K(!new), V(!new)>(
    n: nat, hash: K -> nat, states: seq<State<K, V>>, cursors: seq<nat>, k: K)
    requires Iteration(n, hash, states, cursors) && hash(k) < Pow2(n)
    requires forall i | 0 <= i < |states| :: Present(hash, states[i], k)
    requires forall i | 0 <= i < |states| :: GoodCall(states[i], cursors[i])
    ensures exists i :: 0 <= i < |states| && Emitted(hash, states[i], cursors[i], k)
  {
    hide Rank, Up, Low, High, Pow2, And, Or, Xor;
    forall j | 0 <= j < |states|
      ensures states[j].ht0.used + states[j].ht1.used > 0
    {
      var v :| Maps(hash, states[j], Entry(k, v));
      PresentMeansUsed(hash, states[j], Entry(k, v));
    }
    var i := SomeCallDue(n, hash, states, cursors, hash(k));
    var v :| Maps(hash, states[i], Entry(k, v));
    CompleteCallVisits(n, hash, states[i], cursors[i], Entry(k, v));
    assert Emitted(hash, states[i], cursors[i], k);
  }

  /** Adds, deletes, finds, rehash steps and growth between calls never lose a key. */
  lemma GrowingScanCoverage<K(!new), V(!new)>(
    n: nat, hash: K -> nat, states: seq<State<K, V>>, cursors: seq<nat>, k: K)
    requires Iteration(n, hash, states, cursors) && hash(k) < Pow2(n)
    requires forall i | 0 <= i < |states| :: Present(hash, states[i], k)
    requires forall i | 0 <= i < |states| - 1 :: SmallSize(states[i]) <= SmallSize(states[i + 1])
    ensures exists i :: 0 <= i < |states| && Emitted(hash, states[i], cursors[i], k)
  {
    forall i | 0 <= i < |states|
      ensures GoodCall(states[i], cursors[i])
    {
      var v :| Maps(hash, states[i], Entry(k, v));
      PresentMeansUsed(hash, states[i], Entry(k, v));
      Sizes(n, hash, states[i]);
      assert cursors[i] < Pow2(SmallBits(states[i])) by {
        if i > 0 {
          var u :| Maps(hash, states[i - 1], Entry(k, u));
          PresentMeansUsed(hash, states[i - 1], Entry(k, u));
          Sizes(n, hash, states[i - 1]);
          assert cursors[i - 1 + 1] == CursorAfter(states[i - 1], cursors[i - 1]);
        }
      }
      LowSmall(SmallBits(states[i]), cursors[i]);
      SmallFieldComplete(SmallBits(states[i]), ExtraBits(states[i]), cursors[i]);
    }
    ScanCoverage(n, hash, states, cursors, k);
  }

  /** Any sequence of sizes is safe if the two tables never differ by more than a factor of two. */
  lemma HalvingScanCoverage<K(!new), V(!new)>(
    n: nat, hash: K -> nat, states: seq<State<K, V>>, cursors: seq<nat>, k: K)
    requires Iteration(n, hash, states, cursors) && hash(k) < Pow2(n)
    requires forall i | 0 <= i < |states| :: Present(hash, states[i], k)
    requires forall i | 0 <= i < |states| :: LargeSize(states[i]) <= 2 * SmallSize(states[i])
    ensures exists i :: 0 <= i < |states| && Emitted(hash, states[i], cursors[i], k)
  {
    hide Present, Scannable, GoodCall, Emitted, CursorAfter, SmallSize, LargeSize;
    forall i | 0 <= i < |states|
      ensures GoodCall(states[i], cursors[i])
    {
      HalvingIsGood(n, hash, states[i], cursors[i], k);
    }
    ScanCoverage(n, hash, states, cursors, k);
  }

  lemma HalvingIsGood<K(!new), V(!new)>(n: nat, hash: K -> nat, s: State<K, V>, cursor: nat, k: K)
    requires Scannable(n, hash, s) && Present(hash, s, k) && LargeSize(s) <= 2 * SmallSize(s)
    ensures GoodCall(s, cursor)
  {
    hide OnesFromBottom, Field, Log2;
    var v :| Maps(hash, s, Entry(k, v));
    PresentMeansUsed(hash, s, Entry(k, v));
    Sizes(n, hash, s);
    Pow2Order(SmallBits(s) + ExtraBits(s), SmallBits(s) + 1);
    SmallFieldComplete(SmallBits(s), ExtraBits(s), cursor);
  }

  // --- The converse ---

  /** A call moves the cursor past everything in its bucket. */
  lemma BucketBehind(n: nat, k: nat, v: nat, h: nat)
    requires k <= n && Low(k, h) == Low(k, v) && NextCursor(k, v) != 0
    ensures Rank(h, n) < Rank(NextCursor(k, v), n)
  {
    hide Rank, Up, Low, High, Pow2, And, Or, Xor;
    RankSame(h, v, k);
    NotPast(n, k, v, h);
  }

  lemma StepsForward<K(!new), V(!new)>(n: nat, hash: K -> nat, states: seq<State<K, V>>, cursors: seq<nat>, j: nat)
    requires Iteration(n, hash, states, cursors) && j < |states| && cursors[j + 1] != 0
    requires states[j].ht0.used + states[j].ht1.used > 0
    ensures SmallBits(states[j]) <= n && cursors[j + 1] == NextCursor(SmallBits(states[j]), cursors[j])
    ensures Rank(cursors[j], n) < Rank(cursors[j + 1], n)
  {
    hide Rank, Low, High, Pow2, NextCursor, Log2, StateValid;
    Sizes(n, hash, states[j]);
    BucketBehind(n, SmallBits(states[j]), cursors[j], cursors[j]);
  }

  /** The iteration ends when 0 is returned, and not before; the dictionary is never empty. */
  ghost predicate Uninterrupted<K, V>(states: seq<State<K, V>>, cursors: seq<nat>)
    requires |cursors| == |states| + 1
  {
    && (forall j | 0 < j < |states| :: cursors[j] != 0)
    && (forall j | 0 <= j < |states| :: states[j].ht0.used + states[j].ht1.used > 0)
  }

  lemma {:induction false} CursorsIncrease<K(!new), V(!new)>(
    n: nat, hash: K -> nat, states: seq<State<K, V>>, cursors: seq<nat>, i: nat, j: nat)
    requires Iteration(n, hash, states, cursors) && Uninterrupted(states, cursors) && i <= j < |states|
    ensures Rank(cursors[i], n) <= Rank(cursors[j], n)
    decreases j
  {
    if i < j {
      hide Scannable, CursorAfter, Rank;
      CursorsIncrease(n, hash, states, cursors, i, j - 1);
      StepsForward(n, hash, states, cursors, j - 1);
    }
  }

  /** The buckets of earlier calls lie behind the cursor. */
  lemma EarlierMiss<K(!new), V(!new)>(
    n: nat, hash: K -> nat, states: seq<State<K, V>>, cursors: seq<nat>, i: nat, j: nat, h: nat)
    requires Iteration(n, hash, states, cursors) && Uninterrupted(states, cursors) && j < i < |states|
    requires Rank(cursors[i], n) <= Rank(h, n)
    ensures Low(SmallBits(states[j]), h) != Low(SmallBits(states[j]), cursors[j])
  {
    hide Scannable, CursorAfter, Rank, Low, NextCursor, SmallBits;
    StepsForward(n, hash, states, cursors, j);
    CursorsIncrease(n, hash, states, cursors, j + 1, i);
    if Low(SmallBits(states[j]), h) == Low(SmallBits(states[j]), cursors[j]) {
      BucketBehind(n, SmallBits(states[j]), cursors[j], h);
    }
  }

  /** A bucket of a table that is not smaller lies wholly before or wholly behind the returned cursor. */
  lemma NotBelowCursor(n: nat, k: nat, v: nat, k': nat, v': nat, h: nat)
    requires k <= k' <= n && Rank(h, n) < Rank(NextCursor(k, v), n) <= Rank(v', n)
    ensures Low(k', h) != Low(k', v')
  {
    hide Rank, Up, Low, High, Pow2, And, Or, Xor;
    CursorRank(n, k, v);
    var c := Inc(k, Rank(v, k));
    UpUp(n - k', k' - k, c);
    var q := Up(k' - k, c);
    assert Rank(NextCursor(k, v), n) == Up(n - k', q);
    BelowUp(n - k', Rank(h, n), q);
    BelowUp(n - k', Rank(v', n), q);
    RankHigh(h, k', n - k');
    RankHigh(v', k', n - k');
    RankSame(h, v', k');
  }

  lemma LaterMiss<K(!new), V(!new)>(
    n: nat, hash: K -> nat, states: seq<State<K, V>>, cursors: seq<nat>, i: nat, j: nat, h: nat)
    requires Iteration(n, hash, states, cursors) && Uninterrupted(states, cursors) && i < j < |states|
    requires SmallBits(states[i]) <= SmallBits(states[j])
    requires Low(SmallBits(states[i]), h) == Low(SmallBits(states[i]), cursors[i])
    ensures Low(SmallBits(states[j]), h) != Low(SmallBits(states[j]), cursors[j])
  {
    hide Rank, Low, NextCursor, SmallBits, Scannable, CursorAfter;
    StepsForward(n, hash, states, cursors, i);
    BucketBehind(n, SmallBits(states[i]), cursors[i], h);
    CursorsIncrease(n, hash, states, cursors, i + 1, j);
    Sizes(n, hash, states[j]);
    NotBelowCursor(n, SmallBits(states[i]), cursors[i], SmallBits(states[j]), cursors[j], h);
  }

  /**
   The condition of `ScanCoverage` is needed: if some call does not satisfy it, and the scanned
   table is not smaller at later calls, then there is a hash such that no call of the
   iteration emits a key with that hash which is in the larger table at that call.
   */
  lemma BadCallLoses<K(!new), V(!new)>(
    n: nat, hash: K -> nat, states: seq<State<K, V>>, cursors: seq<nat>, i: nat) returns (h: nat)
    requires Iteration(n, hash, states, cursors) && Uninterrupted(states, cursors) && i < |states|
    requires !GoodCall(states[i], cursors[i])
    requires forall j | i < j < |states| :: SmallBits(states[i]) <= SmallBits(states[j])
    ensures h < Pow2(n)
    ensures forall x, j | hash(x) == h && !HasKey(hash, SmallTable(states[i]), x) && 0 <= j < |states| ::
              !Emitted(hash, states[j], cursors[j], x)
  {
    hide Rank, Up, Low, High, Pow2, And, Or, Xor, StateValid, Log2, OnesFromBottom, Has;
    var k, d, v := SmallBits(states[i]), ExtraBits(states[i]), cursors[i];
    Sizes(n, hash, states[i]);
    CompleteIff(n, k, d, v);
    h :| h < Pow2(n) && Due(n, k, v, h) && !Reached(k, d, v, h);
    DueIsBucket(n, k, v, h);
    forall x, j | hash(x) == h && !HasKey(hash, SmallTable(states[i]), x) && 0 <= j < |states|
      ensures !Emitted(hash, states[j], cursors[j], x)
    {
      if j < i {
        EarlierMiss(n, hash, states, cursors, i, j, h);
      } else if j > i {
        LaterMiss(n, hash, states, cursors, i, j, h);
      } else {
        NotInSmall(hash, states[i], x);
      }
    }
  }

  /** What a call emits is in the cursor's bucket of the smaller table, or of the larger one with those low digits. */
  lemma EmittedInBucket<K(!new), V(!new)>(hash: K -> nat, s: State<K, V>, cursor: nat, x: K)
    requires Emitted(hash, s, cursor, x)
    ensures Low(SmallBits(s), hash(x)) == Low(SmallBits(s), cursor)
  {
    hide Low, Field, SmallBits, Has;
  }

  /** A key is emitted by one call only, unless the scanned table is smaller at a later call. */
  lemma EmittedOnce<K(!new), V(!new)>(
    n: nat, hash: K -> nat, states: seq<State<K, V>>, cursors: seq<nat>, i: nat, j: nat, x: K)
    requires Iteration(n, hash, states, cursors) && Uninterrupted(states, cursors) && i < j < |states|
    requires SmallBits(states[i]) <= SmallBits(states[j]) && Emitted(hash, states[i], cursors[i], x)
    ensures !Emitted(hash, states[j], cursors[j], x)
  {
    hide Low, SmallBits, Emitted, Scannable, CursorAfter;
    EmittedInBucket(hash, states[i], cursors[i], x);
    LaterMiss(n, hash, states, cursors, i, j, hash(x));
    if Emitted(hash, states[j], cursors[j], x) {
      EmittedInBucket(hash, states[j], cursors[j], x);
    }
  }

  lemma NotInSmall<K(!new), V(!new)>(hash: K -> nat, s: State<K, V>, x: K)
    requires !HasKey(hash, SmallTable(s), x)
    ensures forall w :: !Has(hash, SmallTable(s), Entry(x, w))
  {
  }

  // --- A lost key ---

  function IdentityHash(x: nat): nat {
    x
  }

  /** One key, in bucket 4 of 16. */
  function SixteenBuckets(): State<nat, nat> {
    State(Push(IdentityHash, FreshTable(16), Entry(4, 0)), EmptyTable(), -1)
  }

  /** The same just after `dictResize`, which asks for 4 buckets. */
  function ShrinkingToFour(): State<nat, nat> {
    SixteenBuckets().(ht1 := FreshTable(4), rehashidx := 0)
  }

  lemma OneEntryValid<K(!new), V(!new)>(n: nat, hash: K -> nat, b: nat, size: nat, e: Entry<K, V>)
    requires b <= n && size == Pow2(b)
    ensures var s := State(Push(hash, FreshTable(size), e), EmptyTable(), -1);
            && Scannable(n, hash, s)
            && (forall f :: Has(hash, s.ht0, f) <==> f == e)
            && SmallBits(s) == b && ExtraBits(s) == 0
  {
    hide Pow2, Log2, Low, And;
    Pow2Monotone(b, n);
    Log2OfPow2(b);
    FreshTableValid<K, V>(hash, size);
    PushValid(hash, FreshTable<K, V>(size), e);
  }

  lemma SixteenBucketsValid(n: nat)
    requires n >= 4
    ensures Scannable(n, IdentityHash, SixteenBuckets())
    ensures forall e :: Has(IdentityHash, SixteenBuckets().ht0, e) <==> e == Entry(4, 0)
    ensures SmallBits(SixteenBuckets()) == 4 && ExtraBits(SixteenBuckets()) == 0
  {
    hide Scannable, Has, SmallBits, ExtraBits;
    OneEntryValid<nat, nat>(n, IdentityHash, 4, 16, Entry(4, 0));
  }

  lemma ShrinkingToFourValid(n: nat)
    requires n >= 4
    ensures Scannable(n, IdentityHash, ShrinkingToFour())
    ensures forall e :: Has(IdentityHash, ShrinkingToFour().ht0, e) <==> e == Entry(4, 0)
    ensures forall e :: !Has(IdentityHash, ShrinkingToFour().ht1, e)
    ensures SmallBits(ShrinkingToFour()) == 2 && ExtraBits(ShrinkingToFour()) == 2
  {
    SixteenBucketsValid(n);
    Log2OfPow2(2);
    assert Pow2(2) == 4;
    FreshTableValid<nat, nat>(IdentityHash, 4);
  }

  /**
   Without `GoodCall` the guarantee fails: the table shrinks from 16 to 4 buckets between
   the first and the second call, the second call has cursor 8, and key 4 is present at
   every call but never emitted.
   */
  lemma ShrinkingScanLosesKey(n: nat)
    requires n >= 4
    ensures var a, b := SixteenBuckets(), ShrinkingToFour();
            var states, cursors := [a, b, b, b, b], [0, 8, 2, 1, 3, 0];
            && Iteration(n, IdentityHash, states, cursors)
            && (forall i | 0 <= i < |states| :: Present(IdentityHash, states[i], 4))
            && (forall i | 0 <= i < |states| :: !Emitted(IdentityHash, states[i], cursors[i], 4))
  {
    hide *;
    LostKeyCalls(n);
    var a, b := SixteenBuckets(), ShrinkingToFour();
    var states, cursors := [a, b, b, b, b], [0, 8, 2, 1, 3, 0];
    assert Iteration(n, IdentityHash, states, cursors) by {
      IterationOfFive(n, a, b, 8, 2, 1, 3);
    }
  }

  lemma IterationOfFive(n: nat, a: State<nat, nat>, b: State<nat, nat>, c1: nat, c2: nat, c3: nat, c4: nat)
    requires Scannable(n, IdentityHash, a) && Scannable(n, IdentityHash, b)
    requires CursorAfter(a, 0) == c1 && CursorAfter(b, c1) == c2 && CursorAfter(b, c2) == c3
    requires CursorAfter(b, c3) == c4 && CursorAfter(b, c4) == 0
    ensures Iteration(n, IdentityHash, [a, b, b, b, b], [0, c1, c2, c3, c4, 0])
  {
    hide Scannable, CursorAfter;
  }

  lemma LostKeyCalls(n: nat)
    requires n >= 4
    ensures var a, b := SixteenBuckets(), ShrinkingToFour();
            && Scannable(n, IdentityHash, a) && Scannable(n, IdentityHash, b)
            && Present(IdentityHash, a, 4) && Present(IdentityHash, b, 4)
            && CursorAfter(a, 0) == 8 && CursorAfter(b, 8) == 2 && CursorAfter(b, 2) == 1
            && CursorAfter(b, 1) == 3 && CursorAfter(b, 3) == 0
            && !Emitted(IdentityHash, a, 0, 4) && !Emitted(IdentityHash, b, 8, 4)
            && !Emitted(IdentityHash, b, 2, 4) && !Emitted(IdentityHash, b, 1, 4)
            && !Emitted(IdentityHash, b, 3, 4)
  {
    hide Low, High, Rank, NextCursor, Has, Scannable, Emitted;
    SixteenBucketsValid(n);
    ShrinkingToFourValid(n);
    LostKeyCursors();
    assert Maps(IdentityHash, SixteenBuckets(), Entry(4, 0));
    assert Maps(IdentityHash, ShrinkingToFour(), Entry(4, 0));
    LostKeyNotVisited(n, 0);
    LostKeyNotVisited(n, 8);
    LostKeyNotVisited(n, 2);
    LostKeyNotVisited(n, 1);
    LostKeyNotVisited(n, 3);
  }

  lemma LostKeyCursors()
    ensures NextCursor(4, 0) == 8
    ensures NextCursor(2, 8) == 2 && NextCursor(2, 2) == 1 && NextCursor(2, 1) == 3 && NextCursor(2, 3) == 0
  {
    assert Pow2(4) == 16 && Pow2(3) == 8 && Pow2(2) == 4 && Pow2(1) == 2;
    assert Rank(0, 4) == 0;
    assert Rank(1, 4) == 8;
    assert Rank(8, 2) == 0 && Rank(1, 2) == 2 && Rank(2, 2) == 1 && Rank(3, 2) == 3;
  }

  lemma LostKeyNotVisited(n: nat, c: nat)
    requires n >= 4
    ensures c == 0 ==> !Emitted(IdentityHash, SixteenBuckets(), c, 4)
    ensures c in {8, 2, 1, 3} ==> !Emitted(IdentityHash, ShrinkingToFour(), c, 4)
  {
    SixteenBucketsValid(n);
    ShrinkingToFourValid(n);
    assert Low(4, 4) == 4 && Low(4, 0) == 0;
    assert Low(2, 4) == 0 && Low(2, 2) == 2 && Low(2, 1) == 1 && Low(2, 3) == 3;
    assert High(2, 4) == 1 && High(2, 8) == 2;
    assert Field(2, 2, 4) == 1 && Field(2, 2, 8) == 2;
  }
}
