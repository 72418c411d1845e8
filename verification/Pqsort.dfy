/**
 `pqsort`: a Bentley-McIlroy quicksort that only sorts the part of the array a caller
 asks for. Elements equal to the pivot are collected at both ends of the range and
 swapped into the middle; sub-ranges that do not meet the window are left as they are.
 */
module Pqsort {
  // --- Orders and ranges ---

  ghost predicate TotalPreorder<T(!new)>(cmp: (T, T) -> int) {
    && (forall x, y :: cmp(x, y) < 0 <==> cmp(y, x) > 0)
    && (forall x, y, z :: cmp(x, y) <= 0 && cmp(y, z) <= 0 ==> cmp(x, z) <= 0)
  }

  lemma Transitive<T(!new)>(cmp: (T, T) -> int, x: T, y: T, z: T)
    requires TotalPreorder(cmp) && cmp(x, y) <= 0 && cmp(y, z) <= 0
    ensures cmp(x, z) <= 0
  {
  }

  /** `t` is `s` with the elements from `lo` to `hi` in another order. */
  ghost predicate Permuted<T>(s: seq<T>, t: seq<T>, lo: nat, hi: nat) {
    && lo <= hi <= |s| == |t|
    && (forall i | 0 <= i < |s| && !(lo <= i < hi) :: t[i] == s[i])
    && multiset(s) == multiset(t)
  }

  lemma PermutedRefl<T>(s: seq<T>, lo: nat, hi: nat)
    requires lo <= hi <= |s|
    ensures Permuted(s, s, lo, hi)
  {
  }

  lemma PermutedTrans<T>(s: seq<T>, t: seq<T>, u: seq<T>, lo: nat, hi: nat)
    requires Permuted(s, t, lo, hi) && Permuted(t, u, lo, hi)
    ensures Permuted(s, u, lo, hi)
  {
  }

  lemma PermutedWiden<T>(s: seq<T>, t: seq<T>, lo: nat, hi: nat, lo': nat, hi': nat)
    requires Permuted(s, t, lo, hi) && lo' <= lo && hi <= hi' <= |s|
    ensures Permuted(s, t, lo', hi')
  {
  }

  lemma SwapPermutes<T>(s: seq<T>, i: nat, j: nat, lo: nat, hi: nat)
    requires lo <= i < hi <= |s| && lo <= j < hi
    ensures Permuted(s, s[i := s[j]][j := s[i]], lo, hi)
  {
  }

  /** Every element of the permuted range was somewhere in the range before. */
  lemma PermutedFrom<T>(s: seq<T>, t: seq<T>, lo: nat, hi: nat, i: nat) returns (j: nat)
    requires Permuted(s, t, lo, hi) && lo <= i < hi
    ensures lo <= j < hi && s[j] == t[i]
  {
    SliceElements(s, t, lo, hi);
    assert t[i] in t[lo..hi];
    assert t[i] in multiset(t[lo..hi]);
    assert t[i] in s[lo..hi];
    j :| lo <= j < hi && s[j] == t[i];
  }

  lemma SliceElements<T>(s: seq<T>, t: seq<T>, lo: nat, hi: nat)
    requires Permuted(s, t, lo, hi)
    ensures multiset(s[lo..hi]) == multiset(t[lo..hi])
  {
    assert s[..lo] == t[..lo] && s[hi..] == t[hi..];
    MultisetSplit(s, lo, hi);
    MultisetSplit(t, lo, hi);
    Cancel(multiset(s[..lo]), multiset(s[lo..hi]), multiset(t[lo..hi]), multiset(s[hi..]));
  }

  lemma MultisetSplit<T>(s: seq<T>, lo: nat, hi: nat)
    requires lo <= hi <= |s|
    ensures multiset(s) == multiset(s[..lo]) + multiset(s[lo..hi]) + multiset(s[hi..])
  {
    assert s == s[..lo] + s[lo..hi] + s[hi..];
  }

  lemma Cancel<T>(a: multiset<T>, b: multiset<T>, b': multiset<T>, c: multiset<T>)
    requires a + b + c == a + b' + c
    ensures b == b'
  {
    assert b == (a + b + c) - a - c;
    assert b' == (a + b' + c) - a - c;
  }

  /** Nothing before `m` is greater than anything from `m` on. */
  ghost predicate Separated<T>(cmp: (T, T) -> int, s: seq<T>, lo: nat, m: nat, hi: nat)
    requires hi <= |s|
  {
    forall i, j | lo <= i < m && m <= j < hi :: cmp(s[i], s[j]) <= 0
  }

  /** Position `i` holds what a full sort of the range would put there, up to ties. */
  ghost predicate Placed<T>(cmp: (T, T) -> int, s: seq<T>, lo: nat, hi: nat, i: nat)
    requires lo <= i < hi <= |s|
  {
    && (forall j | lo <= j < i :: cmp(s[j], s[i]) <= 0)
    && (forall j | i < j < hi :: cmp(s[i], s[j]) <= 0)
  }

  /** Permuting the upper part keeps the parts separated. */
  lemma SeparatedAfter<T>(cmp: (T, T) -> int, s: seq<T>, t: seq<T>, lo: nat, m: nat, hi: nat)
    requires lo <= m <= hi <= |s| && Separated(cmp, s, lo, m, hi) && Permuted(s, t, m, hi)
    ensures Separated(cmp, t, lo, m, hi)
  {
    forall i, j | lo <= i < m && m <= j < hi
      ensures cmp(t[i], t[j]) <= 0
    {
      var k := PermutedFrom(s, t, m, hi, j);
    }
  }

  /** A position placed among the lower part stays placed when the upper part is permuted. */
  lemma PlacedBelow<T>(cmp: (T, T) -> int, s: seq<T>, t: seq<T>, lo: nat, m: nat, hi: nat, i: nat)
    requires lo <= i < m <= hi <= |s| && Placed(cmp, s, lo, hi, i) && Permuted(s, t, m, hi)
    ensures Placed(cmp, t, lo, hi, i)
  {
    forall j | i < j < hi
      ensures cmp(t[i], t[j]) <= 0
    {
      if j >= m {
        var k := PermutedFrom(s, t, m, hi, j);
      }
    }
  }

  // --- Exchanges ---

  method Swap<T>(a: array<T>, i: nat, j: nat, ghost lo: nat, ghost hi: nat)
    requires lo <= i < hi <= a.Length && lo <= j < hi
    modifies a
    ensures a[..] == old(a[..])[i := old(a[j])][j := old(a[i])]
    ensures Permuted(old(a[..]), a[..], lo, hi)
  {
    ghost var s := a[..];
    SwapPermutes(s, i, j, lo, hi);
    var t := a[i];
    a[i] := a[j];
    a[j] := t;
    assert a[..] == s[i := s[j]][j := s[i]];
  }

  /** Where element `i` comes from when the `n` elements at `x` and at `y` are exchanged. */
  function Origin(x: nat, y: nat, n: nat, i: nat): nat
    requires x + n <= y
  {
    if x <= i < x + n then i + (y - x) else if y <= i < y + n then i - (y - x) else i
  }

  ghost predicate BlocksSwapped<T>(s: seq<T>, t: seq<T>, x: nat, y: nat, n: nat) {
    && x + n <= y
    && y + n <= |s| == |t|
    && forall i: nat | i < |s| :: t[i] == s[Origin(x, y, n, i)]
  }

  lemma NoBlocksSwapped<T>(s: seq<T>, x: nat, y: nat)
    requires x <= y <= |s|
    ensures BlocksSwapped(s, s, x, y, 0)
  {
  }

  lemma BlocksSwappedStep<T>(s: seq<T>, t: seq<T>, x: nat, y: nat, k: nat)
    requires BlocksSwapped(s, t, x, y, k) && x + k < y && y + k < |s|
    ensures BlocksSwapped(s, t[x + k := t[y + k]][y + k := t[x + k]], x, y, k + 1)
  {
    var t' := t[x + k := t[y + k]][y + k := t[x + k]];
    forall i: nat | i < |s|
      ensures t'[i] == s[Origin(x, y, k + 1, i)]
    {
      assert t[i] == s[Origin(x, y, k, i)];
    }
  }

  /** `vecswap`: exchange two blocks of `n` elements. */
  method VecSwap<T>(a: array<T>, x: nat, y: nat, n: nat, ghost lo: nat, ghost hi: nat)
    requires lo <= x && x + n <= y && y + n <= hi <= a.Length
    modifies a
    ensures Permuted(old(a[..]), a[..], lo, hi)
    ensures BlocksSwapped(old(a[..]), a[..], x, y, n)
  {
    hide Permuted, BlocksSwapped;
    PermutedRefl(a[..], lo, hi);
    NoBlocksSwapped(a[..], x, y);
    var k := 0;
    while k < n
      invariant 0 <= k <= n
      invariant Permuted(old(a[..]), a[..], lo, hi)
      invariant BlocksSwapped(old(a[..]), a[..], x, y, k)
    {
      ghost var s := a[..];
      BlocksSwappedStep(old(a[..]), s, x, y, k);
      Swap(a, x + k, y + k, lo, hi);
      PermutedTrans(old(a[..]), s, a[..], lo, hi);
      k := k + 1;
    }
  }

  // --- Short ranges ---

  ghost predicate Sorted<T>(cmp: (T, T) -> int, s: seq<T>, lo: nat, hi: nat)
    requires hi <= |s|
  {
    forall i, j | lo <= i < j < hi :: cmp(s[i], s[j]) <= 0
  }

  /** The range is sorted but for the element at `p`, which is not greater than those after it. */
  ghost predicate SortedBut<T>(cmp: (T, T) -> int, s: seq<T>, lo: nat, hi: nat, p: nat)
    requires hi <= |s|
  {
    forall i, j | lo <= i < j < hi && j != p :: cmp(s[i], s[j]) <= 0
  }

  lemma ShortSorted<T>(cmp: (T, T) -> int, s: seq<T>, lo: nat)
    ensures lo <= |s| ==> Sorted(cmp, s, lo, lo)
    ensures lo + 1 <= |s| ==> Sorted(cmp, s, lo, lo + 1)
  {
  }

  lemma SortedButLast<T>(cmp: (T, T) -> int, s: seq<T>, lo: nat, p: nat)
    requires p < |s| && Sorted(cmp, s, lo, p)
    ensures SortedBut(cmp, s, lo, p + 1, p)
  {
  }

  lemma SwapDown<T(!new)>(cmp: (T, T) -> int, s: seq<T>, lo: nat, hi: nat, p: nat)
    requires TotalPreorder(cmp) && lo < p < hi <= |s| && SortedBut(cmp, s, lo, hi, p)
    requires cmp(s[p - 1], s[p]) > 0
    ensures SortedBut(cmp, s[p := s[p - 1]][p - 1 := s[p]], lo, hi, p - 1)
  {
  }

  lemma InPlace<T(!new)>(cmp: (T, T) -> int, s: seq<T>, lo: nat, hi: nat, p: nat)
    requires TotalPreorder(cmp) && lo <= p < hi <= |s| && SortedBut(cmp, s, lo, hi, p)
    requires p == lo || cmp(s[p - 1], s[p]) <= 0
    ensures Sorted(cmp, s, lo, hi)
  {
    forall i | lo <= i < p
      ensures cmp(s[i], s[p]) <= 0
    {
      if i < p - 1 {
        Transitive(cmp, s[i], s[p - 1], s[p]);
      }
    }
  }

  method SinkStep<T(!new)>(
    a: array<T>, ghost cmp: (T, T) -> int, ghost lo: nat, ghost pm: nat, ghost hi: nat, pl: nat, ghost s0: seq<T>)
    requires TotalPreorder(cmp) && lo < pl <= pm < hi <= a.Length && cmp(a[pl - 1], a[pl]) > 0
    requires SortedBut(cmp, a[..], lo, pm + 1, pl) && Permuted(s0, a[..], lo, hi)
    modifies a
    ensures SortedBut(cmp, a[..], lo, pm + 1, pl - 1) && Permuted(s0, a[..], lo, hi)
  {
    hide Permuted, TotalPreorder, SortedBut;
    ghost var s := a[..];
    SwapDown(cmp, s, lo, pm + 1, pl);
    Swap(a, pl, pl - 1, lo, hi);
    PermutedTrans(s0, s, a[..], lo, hi);
  }

  /** The inner loop of the insertion sort: the element at `pm` sinks to its place. */
  method Sink<T(!new)>(a: array<T>, cmp: (T, T) -> int, lo: nat, pm: nat, ghost hi: nat)
    requires TotalPreorder(cmp) && lo <= pm < hi <= a.Length && Sorted(cmp, a[..], lo, pm)
    modifies a
    ensures Permuted(old(a[..]), a[..], lo, hi)
    ensures Sorted(cmp, a[..], lo, pm + 1)
  {
    hide Permuted, TotalPreorder, Sorted, SortedBut;
    ghost var s0 := a[..];
    PermutedRefl(s0, lo, hi);
    SortedButLast(cmp, s0, lo, pm);
    var pl := pm;
    while pl > lo && cmp(a[pl - 1], a[pl]) > 0
      invariant lo <= pl <= pm
      invariant Permuted(s0, a[..], lo, hi)
      invariant SortedBut(cmp, a[..], lo, pm + 1, pl)
    {
      SinkStep(a, cmp, lo, pm, hi, pl, s0);
      pl := pl - 1;
    }
    InPlace(cmp, a[..], lo, pm + 1, pl);
  }

  /** The insertion sort used below seven elements. */
  method InsertionSort<T(!new)>(a: array<T>, cmp: (T, T) -> int, lo: nat, hi: nat)
    requires TotalPreorder(cmp) && lo <= hi <= a.Length
    modifies a
    ensures Permuted(old(a[..]), a[..], lo, hi)
    ensures Sorted(cmp, a[..], lo, hi)
  {
    hide Permuted, TotalPreorder, Sorted;
    ghost var s0 := a[..];
    PermutedRefl(s0, lo, hi);
    ShortSorted(cmp, s0, lo);
    if lo == hi {
      return;
    }
    var pm := lo + 1;
    while pm < hi
      invariant lo < pm <= hi
      invariant Permuted(s0, a[..], lo, hi)
      invariant Sorted(cmp, a[..], lo, pm)
    {
      ghost var s := a[..];
      Sink(a, cmp, lo, pm, hi);
      PermutedTrans(s0, s, a[..], lo, hi);
      pm := pm + 1;
    }
  }

  // --- Partitioning ---

  predicate Between<T>(cmp: (T, T) -> int, x: T, m: T, y: T) {
    (cmp(x, m) <= 0 && cmp(m, y) <= 0) || (cmp(y, m) <= 0 && cmp(m, x) <= 0)
  }

  /** `med3`: the position, of three, whose element lies between the other two. */
  method Med3<T(!new)>(a: array<T>, cmp: (T, T) -> int, x: nat, y: nat, z: nat) returns (m: nat)
    requires TotalPreorder(cmp) && x < a.Length && y < a.Length && z < a.Length
    ensures || (m == x && Between(cmp, a[y], a[x], a[z]))
            || (m == y && Between(cmp, a[x], a[y], a[z]))
            || (m == z && Between(cmp, a[x], a[z], a[y]))
  {
    m := if cmp(a[x], a[y]) < 0 then
           if cmp(a[y], a[z]) < 0 then y else if cmp(a[x], a[z]) < 0 then z else x
         else
           if cmp(a[y], a[z]) > 0 then y else if cmp(a[x], a[z]) < 0 then x else z;
  }

  /** The choice of the pivot: the middle, a median of three, or a median of medians. */
  method ChoosePivot<T(!new)>(a: array<T>, cmp: (T, T) -> int, lo: nat, hi: nat) returns (pm: nat)
    requires TotalPreorder(cmp) && lo + 7 <= hi <= a.Length
    ensures lo <= pm < hi
  {
    var n := hi - lo;
    pm := lo + n / 2;
    if n > 7 {
      var pl, pn := lo, lo + (n - 1);
      if n > 40 {
        var d := n / 8;
        pl := Med3(a, cmp, pl, pl + d, pl + 2 * d);
        pm := Med3(a, cmp, pm - d, pm, pm + d);
        pn := Med3(a, cmp, pn - 2 * d, pn - d, pn);
      }
      pm := Med3(a, cmp, pl, pm, pn);
    }
  }

  /**
   During partitioning: elements equal to the pivot at both ends, smaller ones before
   `pb`, greater ones after `pc`, and what has not been looked at between them.
   */
  ghost predicate Partitioning<T>(
    cmp: (T, T) -> int, s: seq<T>, p: T, lo: nat, hi: nat, pa: nat, pb: nat, pc: int, pd: int)
  {
    && lo < pa <= pb <= pc + 1
    && pc <= pd < hi <= |s|
    && s[lo] == p
    && (forall i | lo <= i < pa :: cmp(s[i], p) == 0)
    && (forall i | pa <= i < pb :: cmp(s[i], p) < 0)
    && (forall i | pc < i <= pd :: cmp(s[i], p) > 0)
    && (forall i | pd < i < hi :: cmp(s[i], p) == 0)
  }

  lemma SmallerUp<T>(
    cmp: (T, T) -> int, s: seq<T>, p: T, lo: nat, hi: nat, pa: nat, pb: nat, pc: int, pd: int)
    requires Partitioning(cmp, s, p, lo, hi, pa, pb, pc, pd) && pb <= pc && cmp(s[pb], p) < 0
    ensures Partitioning(cmp, s, p, lo, hi, pa, pb + 1, pc, pd)
  {
  }

  lemma EqualUp<T>(
    cmp: (T, T) -> int, s: seq<T>, p: T, lo: nat, hi: nat, pa: nat, pb: nat, pc: int, pd: int)
    requires Partitioning(cmp, s, p, lo, hi, pa, pb, pc, pd) && pb <= pc && cmp(s[pb], p) == 0
    ensures Partitioning(cmp, s[pa := s[pb]][pb := s[pa]], p, lo, hi, pa + 1, pb + 1, pc, pd)
  {
  }

  lemma GreaterDown<T>(
    cmp: (T, T) -> int, s: seq<T>, p: T, lo: nat, hi: nat, pa: nat, pb: nat, pc: int, pd: int)
    requires Partitioning(cmp, s, p, lo, hi, pa, pb, pc, pd) && pb <= pc && cmp(s[pc], p) > 0
    ensures Partitioning(cmp, s, p, lo, hi, pa, pb, pc - 1, pd)
  {
  }

  lemma EqualDown<T>(
    cmp: (T, T) -> int, s: seq<T>, p: T, lo: nat, hi: nat, pa: nat, pb: nat, pc: int, pd: int)
    requires Partitioning(cmp, s, p, lo, hi, pa, pb, pc, pd) && pb <= pc && cmp(s[pc], p) == 0
    ensures Partitioning(cmp, s[pc := s[pd]][pd := s[pc]], p, lo, hi, pa, pb, pc - 1, pd - 1)
  {
  }

  lemma Bounds<T>(
    cmp: (T, T) -> int, s: seq<T>, p: T, lo: nat, hi: nat, pa: nat, pb: nat, pc: int, pd: int)
    requires Partitioning(cmp, s, p, lo, hi, pa, pb, pc, pd)
    ensures lo < pa <= pb <= pc + 1 && pc <= pd < hi <= |s| && s[lo] == p
  {
  }

  /** The first inner loop: pass over elements not greater than the pivot. */
  method ScanUp<T(!new)>(
    a: array<T>, cmp: (T, T) -> int, ghost p: T, lo: nat, ghost hi: nat, pa0: nat, pb0: nat, pc: int, ghost pd: int)
    returns (pa: nat, pb: nat)
    requires Partitioning(cmp, a[..], p, lo, hi, pa0, pb0, pc, pd)
    modifies a
    ensures Partitioning(cmp, a[..], p, lo, hi, pa, pb, pc, pd)
    ensures Permuted(old(a[..]), a[..], lo, hi)
    ensures pb0 <= pb <= pc + 1 && pc < a.Length && (pb <= pc ==> cmp(a[pb], p) > 0)
  {
    hide Permuted, Partitioning;
    Bounds(cmp, a[..], p, lo, hi, pa0, pb0, pc, pd);
    PermutedRefl(a[..], lo, hi);
    pa, pb := pa0, pb0;
    while pb <= pc && cmp(a[pb], a[lo]) <= 0
      invariant Partitioning(cmp, a[..], p, lo, hi, pa, pb, pc, pd)
      invariant lo < pa <= pb <= pc + 1 && pc < hi <= a.Length && a[lo] == p && pb0 <= pb
      invariant Permuted(old(a[..]), a[..], lo, hi)
      decreases pc - pb
    {
      ghost var s := a[..];
      if cmp(a[pb], a[lo]) == 0 {
        EqualUp(cmp, s, p, lo, hi, pa, pb, pc, pd);
        Swap(a, pa, pb, lo, hi);
        PermutedTrans(old(a[..]), s, a[..], lo, hi);
        pa := pa + 1;
      } else {
        SmallerUp(cmp, s, p, lo, hi, pa, pb, pc, pd);
      }
      pb := pb + 1;
    }
  }

  /** The second inner loop: pass over elements not smaller than the pivot. */
  method ScanDown<T(!new)>(
    a: array<T>, cmp: (T, T) -> int, ghost p: T, lo: nat, ghost hi: nat, ghost pa: nat, pb: nat, pc0: int, pd0: int)
    returns (pc: int, pd: int)
    requires Partitioning(cmp, a[..], p, lo, hi, pa, pb, pc0, pd0)
    requires pb <= pc0 ==> cmp(a[pb], p) > 0
    modifies a
    ensures Partitioning(cmp, a[..], p, lo, hi, pa, pb, pc, pd)
    ensures Permuted(old(a[..]), a[..], lo, hi)
    ensures pb <= pc + 1 && pc <= pc0 && pc < a.Length && (pb <= pc ==> cmp(a[pc], p) < 0 && cmp(a[pb], p) > 0)
  {
    Bounds(cmp, a[..], p, lo, hi, pa, pb, pc0, pd0);
    hide Permuted, Partitioning;
    PermutedRefl(a[..], lo, hi);
    pc, pd := pc0, pd0;
    while pb <= pc && cmp(a[pc], a[lo]) >= 0
      invariant Partitioning(cmp, a[..], p, lo, hi, pa, pb, pc, pd)
      invariant lo < pb <= pc + 1 && pc <= pc0 && pc <= pd < hi <= a.Length && a[lo] == p
      invariant Permuted(old(a[..]), a[..], lo, hi)
      invariant pb <= pc ==> cmp(a[pb], p) > 0
      decreases pc - pb
    {
      ghost var s := a[..];
      if cmp(a[pc], a[lo]) == 0 {
        EqualDown(cmp, s, p, lo, hi, pa, pb, pc, pd);
        Swap(a, pc, pd, lo, hi);
        PermutedTrans(old(a[..]), s, a[..], lo, hi);
        pd := pd - 1;
      } else {
        GreaterDown(cmp, s, p, lo, hi, pa, pb, pc, pd);
      }
      pc := pc - 1;
    }
  }

  /** The range in three parts: smaller than the pivot, equal to it, greater. */
  ghost predicate ThreeWay<T>(cmp: (T, T) -> int, s: seq<T>, p: T, lo: nat, m1: nat, m2: nat, hi: nat) {
    && lo <= m1 < m2 <= hi <= |s|
    && (forall i | lo <= i < m1 :: cmp(s[i], p) < 0)
    && (forall i | m1 <= i < m2 :: cmp(s[i], p) == 0)
    && (forall i | m2 <= i < hi :: cmp(s[i], p) > 0)
  }

  lemma LowerSwapped<T>(
    cmp: (T, T) -> int, s: seq<T>, t: seq<T>, p: T, lo: nat, hi: nat, pa: nat, pb: nat, pc: int, pd: int, r: nat)
    requires Partitioning(cmp, s, p, lo, hi, pa, pb, pc, pd) && pb == pc + 1
    requires r == if pa - lo < pb - pa then pa - lo else pb - pa
    requires BlocksSwapped(s, t, lo, pb - r, r)
    ensures forall i | lo <= i < lo + (pb - pa) :: cmp(t[i], p) < 0
    ensures forall i | lo + (pb - pa) <= i < pb :: cmp(t[i], p) == 0
    ensures forall i | pb <= i <= pd :: cmp(t[i], p) > 0
    ensures forall i | pd < i < hi :: cmp(t[i], p) == 0
  {
    forall i: nat | i < |t|
      ensures t[i] == s[Origin(lo, pb - r, r, i)]
    {
    }
  }

  lemma UpperSwapped<T>(
    cmp: (T, T) -> int, s: seq<T>, t: seq<T>, p: T, lo: nat, m1: nat, pb: nat, pd: nat, hi: nat, r: nat)
    requires lo <= m1 < pb && pb - 1 <= pd < hi <= |s|
    requires forall i | lo <= i < m1 :: cmp(s[i], p) < 0
    requires forall i | m1 <= i < pb :: cmp(s[i], p) == 0
    requires forall i | pb <= i <= pd :: cmp(s[i], p) > 0
    requires forall i | pd < i < hi :: cmp(s[i], p) == 0
    requires r == if pd - (pb - 1) < hi - pd - 1 then pd - (pb - 1) else hi - pd - 1
    requires BlocksSwapped(s, t, pb, hi - r, r)
    ensures ThreeWay(cmp, t, p, lo, m1, hi - (pd - (pb - 1)), hi)
  {
    forall i: nat | i < |t|
      ensures t[i] == s[Origin(pb, hi - r, r, i)]
    {
    }
  }

  /** The two `vecswap`s: the elements equal to the pivot move from the ends to the middle. */
  method EqualToMiddle<T(!new)>(
    a: array<T>, cmp: (T, T) -> int, ghost p: T, lo: nat, hi: nat, pa: nat, pb: nat, pc: int, pd: int)
    returns (m1: nat, m2: nat)
    requires Partitioning(cmp, a[..], p, lo, hi, pa, pb, pc, pd) && pb == pc + 1
    modifies a
    ensures Permuted(old(a[..]), a[..], lo, hi)
    ensures ThreeWay(cmp, a[..], p, lo, m1, m2, hi)
    ensures m1 == lo + (pb - pa) && m2 == hi - (pd - pc)
  {
    hide Permuted, Partitioning, BlocksSwapped, ThreeWay;
    ghost var s0 := a[..];
    Bounds(cmp, s0, p, lo, hi, pa, pb, pc, pd);
    var r := if pa - lo < pb - pa then pa - lo else pb - pa;
    VecSwap(a, lo, pb - r, r, lo, hi);
    ghost var s := a[..];
    LowerSwapped(cmp, s0, s, p, lo, hi, pa, pb, pc, pd, r);
    m1, m2 := lo + (pb - pa), hi - (pd - pc);
    r := if pd - pc < hi - pd - 1 then pd - pc else hi - pd - 1;
    VecSwap(a, pb, hi - r, r, lo, hi);
    UpperSwapped(cmp, s, a[..], p, lo, m1, pb, pd, hi, r);
    PermutedTrans(s0, s, a[..], lo, hi);
  }

  lemma StartPartitioning<T(!new)>(cmp: (T, T) -> int, s: seq<T>, lo: nat, hi: nat)
    requires TotalPreorder(cmp) && lo + 1 < hi <= |s|
    ensures Partitioning(cmp, s, s[lo], lo, hi, lo + 1, lo + 1, hi - 1, hi - 1)
  {
    var p := s[lo];
    assert cmp(p, p) < 0 <==> cmp(p, p) > 0;
  }

  lemma ExchangeKeeps<T>(
    cmp: (T, T) -> int, s: seq<T>, p: T, lo: nat, hi: nat, pa: nat, pb: nat, pc: int, pd: int)
    requires Partitioning(cmp, s, p, lo, hi, pa, pb, pc, pd) && pb < pc && cmp(s[pc], p) < 0 && cmp(s[pb], p) > 0
    ensures Partitioning(cmp, s[pb := s[pc]][pc := s[pb]], p, lo, hi, pa, pb + 1, pc - 1, pd)
  {
  }

  /** One round of the partition loop: scan from both ends, and exchange the elements that stopped the scans. */
  method PartitionRound<T(!new)>(
    a: array<T>, cmp: (T, T) -> int, ghost p: T, lo: nat, hi: nat, pa0: nat, pb0: nat, pc0: int, pd0: int)
    returns (done: bool, pa: nat, pb: nat, pc: int, pd: int)
    requires Partitioning(cmp, a[..], p, lo, hi, pa0, pb0, pc0, pd0) && pb0 <= pc0 + 1
    modifies a
    ensures Partitioning(cmp, a[..], p, lo, hi, pa, pb, pc, pd) && Permuted(old(a[..]), a[..], lo, hi)
    ensures pb <= pc + 1 && (done ==> pb == pc + 1) && (!done ==> pc - pb < pc0 - pb0)
  {
    hide Permuted, Partitioning;
    ghost var s0 := a[..];
    pa, pb := ScanUp(a, cmp, p, lo, hi, pa0, pb0, pc0, pd0);
    ghost var s := a[..];
    pc, pd := ScanDown(a, cmp, p, lo, hi, pa, pb, pc0, pd0);
    PermutedTrans(s0, s, a[..], lo, hi);
    if pb > pc {
      return true, pa, pb, pc, pd;
    }
    s := a[..];
    Bounds(cmp, s, p, lo, hi, pa, pb, pc, pd);
    ExchangeKeeps(cmp, s, p, lo, hi, pa, pb, pc, pd);
    Swap(a, pb, pc, lo, hi);
    PermutedTrans(s0, s, a[..], lo, hi);
    return false, pa, pb + 1, pc - 1, pd;
  }

  method Partition<T(!new)>(a: array<T>, cmp: (T, T) -> int, lo: nat, hi: nat)
    returns (m1: nat, m2: nat, ghost p: T)
    requires TotalPreorder(cmp) && lo + 7 <= hi <= a.Length
    modifies a
    ensures Permuted(old(a[..]), a[..], lo, hi)
    ensures ThreeWay(cmp, a[..], p, lo, m1, m2, hi)
  {
    hide Permuted, Partitioning, ThreeWay, TotalPreorder;
    ghost var s0 := a[..];
    var pm := ChoosePivot(a, cmp, lo, hi);
    Swap(a, lo, pm, lo, hi);
    p := a[lo];
    StartPartitioning(cmp, a[..], lo, hi);
    var pa: nat, pb: nat, pc: int, pd: int := lo + 1, lo + 1, hi - 1, hi - 1;
    var done := false;
    while !done
      invariant Partitioning(cmp, a[..], p, lo, hi, pa, pb, pc, pd) && Permuted(s0, a[..], lo, hi)
      invariant pb <= pc + 1 && (done ==> pb == pc + 1)
      decreases if done then 0 else 1, pc - pb + 1
    {
      ghost var s := a[..];
      done, pa, pb, pc, pd := PartitionRound(a, cmp, p, lo, hi, pa, pb, pc, pd);
      PermutedTrans(s0, s, a[..], lo, hi);
    }
    ghost var s := a[..];
    m1, m2 := EqualToMiddle(a, cmp, p, lo, hi, pa, pb, pc, pd);
    PermutedTrans(s0, s, a[..], lo, hi);
  }

  // --- The window ---

  /** Positions between `l` and `r`, in either order. */
  predicate InWindow(l: nat, r: nat, i: nat) {
    l <= i <= r || r <= i <= l
  }

  /** The test on byte addresses that skips the elements from `lo` to `hi`; `es` is the element size. */
  predicate Skips(es: nat, l: nat, r: nat, lo: nat, hi: nat) {
    var lrange, rrange := l * es, (r + 1) * es - 1;
    var first, last := lo * es, hi * es - 1;
    (lrange < first && rrange < first) || (lrange > last && rrange > last)
  }

  lemma ByteOrder(es: nat, x: nat, y: nat)
    requires es > 0
    ensures x * es < y * es <==> x < y
    ensures (x + 1) * es - 1 < y * es <==> x < y
    ensures x * es > y * es - 1 <==> x >= y
    ensures (x + 1) * es - 1 > y * es - 1 <==> x >= y
  {
    if x < y {
      assert (y - x) * es >= es;
      assert y * es == x * es + (y - x) * es;
    } else {
      assert (x - y) * es >= 0;
      assert x * es == y * es + (x - y) * es;
    }
    assert (x + 1) * es == x * es + es;
  }

  /** A range is skipped exactly when no window position lies in it. */
  lemma SkipsIff(es: nat, l: nat, r: nat, lo: nat, hi: nat)
    requires es > 0 && lo < hi
    ensures Skips(es, l, r, lo, hi) <==> forall i | lo <= i < hi :: !InWindow(l, r, i)
  {
    ByteOrder(es, l, lo);
    ByteOrder(es, r, lo);
    ByteOrder(es, l, hi);
    ByteOrder(es, r, hi);
    if !Skips(es, l, r, lo, hi) {
      var i := if l < lo then lo else if l >= hi then hi - 1 else l;
      assert InWindow(l, r, i);
    }
  }

  ghost predicate WindowPlaced<T>(cmp: (T, T) -> int, s: seq<T>, lo: nat, hi: nat, l: nat, r: nat)
    requires hi <= |s|
  {
    forall i | lo <= i < hi && InWindow(l, r, i) :: Placed(cmp, s, lo, hi, i)
  }

  /** Everything before `m` is finished: separated from the rest, and placed inside the window. */
  ghost predicate LowerDone<T>(cmp: (T, T) -> int, s: seq<T>, lo: nat, m: nat, hi: nat, l: nat, r: nat)
    requires lo <= m <= hi <= |s|
  {
    && Separated(cmp, s, lo, m, hi)
    && forall i | lo <= i < m && InWindow(l, r, i) :: Placed(cmp, s, lo, hi, i)
  }

  lemma LowerDoneAfter<T>(cmp: (T, T) -> int, s: seq<T>, t: seq<T>, lo: nat, m: nat, hi: nat, l: nat, r: nat)
    requires lo <= m <= hi <= |s| && LowerDone(cmp, s, lo, m, hi, l, r) && Permuted(s, t, m, hi)
    ensures LowerDone(cmp, t, lo, m, hi, l, r)
  {
    hide Placed, Separated;
    SeparatedAfter(cmp, s, t, lo, m, hi);
    forall i | lo <= i < m && InWindow(l, r, i)
      ensures Placed(cmp, t, lo, hi, i)
    {
      PlacedBelow(cmp, s, t, lo, m, hi, i);
    }
  }

  lemma ThreeWayAfter<T>(cmp: (T, T) -> int, s: seq<T>, t: seq<T>, p: T, lo: nat, m1: nat, m2: nat, hi: nat)
    requires ThreeWay(cmp, s, p, lo, m1, m2, hi) && Permuted(s, t, lo, m1)
    ensures ThreeWay(cmp, t, p, lo, m1, m2, hi)
  {
    forall i | lo <= i < m1
      ensures cmp(t[i], p) < 0
    {
      var k := PermutedFrom(s, t, lo, m1, i);
    }
  }

  /** In a three-way partition, an element is not greater than any element of a later part. */
  lemma AcrossParts<T(!new)>(cmp: (T, T) -> int, s: seq<T>, p: T, lo: nat, m1: nat, m2: nat, hi: nat, i: nat, j: nat)
    requires TotalPreorder(cmp) && ThreeWay(cmp, s, p, lo, m1, m2, hi)
    requires lo <= i < hi && lo <= j < hi && (i < m1 <= j || i < m2 <= j || (m1 <= i < m2 && m1 <= j < m2))
    ensures cmp(s[i], s[j]) <= 0
  {
    assert cmp(s[i], p) <= 0;
    assert cmp(s[j], p) >= 0;
    assert cmp(p, s[j]) <= 0;
    Transitive(cmp, s[i], p, s[j]);
  }

  /** With the smaller part done, everything up to the greater part is. */
  lemma LowerDoneStep<T(!new)>(
    cmp: (T, T) -> int, s: seq<T>, p: T, lo0: nat, lo: nat, m1: nat, m2: nat, hi: nat, l: nat, r: nat)
    requires TotalPreorder(cmp) && lo0 <= lo && ThreeWay(cmp, s, p, lo, m1, m2, hi)
    requires LowerDone(cmp, s, lo0, lo, hi, l, r) && WindowPlaced(cmp, s, lo, m1, l, r)
    ensures LowerDone(cmp, s, lo0, m2, hi, l, r)
  {
    forall i, j | lo0 <= i < m2 && m2 <= j < hi
      ensures cmp(s[i], s[j]) <= 0
    {
      if i >= lo {
        AcrossParts(cmp, s, p, lo, m1, m2, hi, i, j);
      }
    }
    forall i | lo <= i < m2 && InWindow(l, r, i)
      ensures Placed(cmp, s, lo0, hi, i)
    {
      PlacedInPart(cmp, s, p, lo0, lo, m1, m2, hi, i);
    }
  }

  lemma PlacedInPart<T(!new)>(
    cmp: (T, T) -> int, s: seq<T>, p: T, lo0: nat, lo: nat, m1: nat, m2: nat, hi: nat, i: nat)
    requires TotalPreorder(cmp) && lo0 <= lo && ThreeWay(cmp, s, p, lo, m1, m2, hi)
    requires Separated(cmp, s, lo0, lo, hi)
    requires lo <= i < m2 && (i < m1 ==> Placed(cmp, s, lo, m1, i))
    ensures Placed(cmp, s, lo0, hi, i)
  {
    forall j | lo0 <= j < i
      ensures cmp(s[j], s[i]) <= 0
    {
      if j >= lo && !(i < m1) {
        AcrossParts(cmp, s, p, lo, m1, m2, hi, j, i);
      }
    }
    forall j | i < j < hi
      ensures cmp(s[i], s[j]) <= 0
    {
      if !(j < m1) {
        AcrossParts(cmp, s, p, lo, m1, m2, hi, i, j);
      }
    }
  }

  lemma SortedRest<T>(cmp: (T, T) -> int, s: seq<T>, lo: nat, m: nat, hi: nat, l: nat, r: nat)
    requires lo <= m <= hi <= |s| && LowerDone(cmp, s, lo, m, hi, l, r) && Sorted(cmp, s, m, hi)
    ensures WindowPlaced(cmp, s, lo, hi, l, r)
  {
  }

  lemma SkippedRest<T>(cmp: (T, T) -> int, s: seq<T>, lo: nat, m: nat, hi: nat, l: nat, r: nat)
    requires lo <= m <= hi <= |s| && LowerDone(cmp, s, lo, m, hi, l, r)
    requires forall i | m <= i < hi :: !InWindow(l, r, i)
    ensures WindowPlaced(cmp, s, lo, hi, l, r)
  {
  }

  /** `_pqsort` on the elements from `lo0` to `hi`. */
  method SortRange<T(!new)>(a: array<T>, cmp: (T, T) -> int, es: nat, lo0: nat, hi: nat, l: nat, r: nat)
    requires TotalPreorder(cmp) && es > 0 && lo0 <= hi <= a.Length
    modifies a
    ensures Permuted(old(a[..]), a[..], lo0, hi)
    ensures WindowPlaced(cmp, a[..], lo0, hi, l, r)
    decreases hi - lo0
  {
    ghost var s0 := a[..];
    PermutedRefl(s0, lo0, hi);
    NothingDone(cmp, s0, lo0, hi, l, r);
    hide Permuted, TotalPreorder, LowerDone, WindowPlaced, Sorted, Skips, InWindow;
    var lo := lo0;
    while true
      invariant lo0 <= lo <= hi
      invariant Permuted(s0, a[..], lo0, hi)
      invariant LowerDone(cmp, a[..], lo0, lo, hi, l, r)
      decreases hi - lo
    {
      ghost var s := a[..];
      if hi - lo < 7 {
        InsertionSort(a, cmp, lo, hi);
        LowerDoneAfter(cmp, s, a[..], lo0, lo, hi, l, r);
        SortedRest(cmp, a[..], lo0, lo, hi, l, r);
        PermutedWiden(s, a[..], lo, hi, lo0, hi);
        PermutedTrans(s0, s, a[..], lo0, hi);
        return;
      }
      var m2 := SortLower(a, cmp, es, lo0, lo, hi, l, r);
      PermutedWiden(s, a[..], lo, hi, lo0, hi);
      PermutedTrans(s0, s, a[..], lo0, hi);
      lo := m2;
      if hi - lo > 1 {
        SkipsIff(es, l, r, lo, hi);
        if Skips(es, l, r, lo, hi) {
          SkippedRest(cmp, a[..], lo0, lo, hi, l, r);
          return;
        }
      } else {
        OneSorted(cmp, a[..], lo, hi);
        SortedRest(cmp, a[..], lo0, lo, hi, l, r);
        return;
      }
    }
  }

  lemma NothingDone<T>(cmp: (T, T) -> int, s: seq<T>, lo: nat, hi: nat, l: nat, r: nat)
    requires lo <= hi <= |s|
    ensures LowerDone(cmp, s, lo, lo, hi, l, r)
  {
  }

  lemma OneSorted<T>(cmp: (T, T) -> int, s: seq<T>, lo: nat, hi: nat)
    requires lo <= hi <= lo + 1 && hi <= |s|
    ensures Sorted(cmp, s, lo, hi)
  {
  }

  lemma OnePlaced<T>(cmp: (T, T) -> int, s: seq<T>, lo: nat, hi: nat, l: nat, r: nat)
    requires lo <= hi <= lo + 1 && hi <= |s|
    ensures WindowPlaced(cmp, s, lo, hi, l, r)
  {
  }

  lemma NonePlaced<T>(cmp: (T, T) -> int, s: seq<T>, lo: nat, hi: nat, l: nat, r: nat)
    requires lo <= hi <= |s| && forall i | lo <= i < hi :: !InWindow(l, r, i)
    ensures WindowPlaced(cmp, s, lo, hi, l, r)
  {
  }

  /** One round: partition, sort the smaller part if the window meets it, and return where the greater part starts. */
  method SortLower<T(!new)>(a: array<T>, cmp: (T, T) -> int, es: nat, lo0: nat, lo: nat, hi: nat, l: nat, r: nat)
    returns (m2: nat)
    requires TotalPreorder(cmp) && es > 0 && lo0 <= lo && lo + 7 <= hi <= a.Length
    requires LowerDone(cmp, a[..], lo0, lo, hi, l, r)
    modifies a
    ensures lo < m2 <= hi
    ensures Permuted(old(a[..]), a[..], lo, hi)
    ensures LowerDone(cmp, a[..], lo0, m2, hi, l, r)
    decreases hi - lo0, 0
  {
    ghost var s0 := a[..];
    var m1;
    ghost var p;
    m1, m2, p := Partition(a, cmp, lo, hi);
    ghost var s := a[..];
    assert lo <= m1 < m2 <= hi;
    hide Permuted, TotalPreorder, LowerDone, WindowPlaced, Skips, InWindow, ThreeWay;
    LowerDoneAfter(cmp, s0, s, lo0, lo, hi, l, r);
    if m1 - lo > 1 {
      SkipsIff(es, l, r, lo, m1);
      if !Skips(es, l, r, lo, m1) {
        SortRange(a, cmp, es, lo, m1, l, r);
        ThreeWayAfter(cmp, s, a[..], p, lo, m1, m2, hi);
        PermutedWiden(s, a[..], lo, m1, lo, hi);
        LowerDoneAfter(cmp, s, a[..], lo0, lo, hi, l, r);
        PermutedTrans(s0, s, a[..], lo, hi);
      } else {
        NonePlaced(cmp, a[..], lo, m1, l, r);
      }
    } else {
      OnePlaced(cmp, a[..], lo, m1, l, r);
    }
    LowerDoneStep(cmp, a[..], p, lo0, lo, m1, m2, hi, l, r);
  }

  /**
   `pqsort`: a permutation that puts at every position between `l` and `r` what a full
   sort would put there; nothing before it is greater and nothing after it is smaller.
   */
  method PartialSort<T(!new)>(a: array<T>, cmp: (T, T) -> int, es: nat, l: nat, r: nat)
    requires TotalPreorder(cmp) && es > 0
    modifies a
    ensures multiset(a[..]) == multiset(old(a[..]))
    ensures forall i, j | 0 <= j < i < a.Length && (l <= i <= r || r <= i <= l) :: cmp(a[j], a[i]) <= 0
    ensures forall i, j | 0 <= i < j < a.Length && (l <= i <= r || r <= i <= l) :: cmp(a[i], a[j]) <= 0
  {
    hide TotalPreorder;
    SortRange(a, cmp, es, 0, a.Length, l, r);
    ghost var s := a[..];
    forall i, j | 0 <= i < a.Length && 0 <= j < a.Length && (l <= i <= r || r <= i <= l)
      ensures j < i ==> cmp(a[j], a[i]) <= 0
      ensures i < j ==> cmp(a[i], a[j]) <= 0
    {
      assert InWindow(l, r, i) && Placed(cmp, s, 0, |s|, i);
      assert s[i] == a[i] && s[j] == a[j];
    }
  }

  // --- What a full sort would put there ---

  ghost function CountIf<T>(s: seq<T>, p: T -> bool): nat {
    if s == [] then 0 else (if p(s[0]) then 1 else 0) + CountIf(s[1..], p)
  }

  lemma {:induction false} CountAppend<T>(s: seq<T>, t: seq<T>, p: T -> bool)
    ensures CountIf(s + t, p) == CountIf(s, p) + CountIf(t, p)
  {
    if s == [] {
      assert s + t == t;
    } else {
      assert (s + t)[1..] == s[1..] + t;
      CountAppend(s[1..], t, p);
    }
  }

  lemma {:induction false} CountBounds<T>(s: seq<T>, p: T -> bool)
    ensures CountIf(s, p) <= |s|
    ensures (forall i | 0 <= i < |s| :: p(s[i])) ==> CountIf(s, p) == |s|
    ensures (forall i | 0 <= i < |s| :: !p(s[i])) ==> CountIf(s, p) == 0
  {
    if s != [] {
      CountBounds(s[1..], p);
    }
  }

  lemma MultisetWithout<T>(t: seq<T>, j: nat)
    requires j < |t|
    ensures multiset(t[..j] + t[j + 1..]) == multiset(t) - multiset{t[j]}
  {
    assert t == t[..j] + ([t[j]] + t[j + 1..]);
  }

  lemma CountWithout<T>(t: seq<T>, j: nat, p: T -> bool)
    requires j < |t|
    ensures CountIf(t, p) == (if p(t[j]) then 1 else 0) + CountIf(t[..j] + t[j + 1..], p)
  {
    CountSplit(t, j, p);
    CountAppend(t[..j], t[j + 1..], p);
    assert t[j..][1..] == t[j + 1..];
  }

  lemma {:induction false} CountPermuted<T>(s: seq<T>, t: seq<T>, p: T -> bool)
    requires multiset(s) == multiset(t)
    ensures CountIf(s, p) == CountIf(t, p)
  {
    assert |s| == |multiset(s)| == |multiset(t)| == |t|;
    hide CountIf;
    if s == [] {
      assert t == [];
    } else {
      assert s[0] in multiset(t);
      var j :| 0 <= j < |t| && t[j] == s[0];
      assert s[..0] + s[1..] == s[1..];
      MultisetWithout(s, 0);
      MultisetWithout(t, j);
      CountWithout(s, 0, p);
      CountWithout(t, j, p);
      CountPermuted(s[1..], t[..j] + t[j + 1..], p);
    }
  }

  lemma CountSplit<T>(s: seq<T>, i: nat, p: T -> bool)
    requires i <= |s|
    ensures CountIf(s, p) == CountIf(s[..i], p) + CountIf(s[i..], p)
  {
    assert s == s[..i] + s[i..];
    CountAppend(s[..i], s[i..], p);
  }

  /** A placed element ties with the element any sorted version of the array has at that position. */
  lemma PlacedIsFullSort<T(!new)>(cmp: (T, T) -> int, s: seq<T>, t: seq<T>, i: nat)
    requires TotalPreorder(cmp) && multiset(s) == multiset(t) && i < |s| == |t|
    requires Sorted(cmp, s, 0, |s|) && Placed(cmp, t, 0, |t|, i)
    ensures cmp(s[i], t[i]) == 0
  {
    hide TotalPreorder, Sorted, Placed, CountIf;
    var x := t[i];
    CountPermuted(s, t, Below(cmp, x));
    CountPermuted(s, t, Above(cmp, x));
    FewBelow(cmp, t, i);
    FewAbove(cmp, t, i);
    if cmp(s[i], x) < 0 {
      ManyBelow(cmp, s, i, x);
    } else if cmp(s[i], x) > 0 {
      ManyAbove(cmp, s, i, x);
    }
  }

  lemma NotBelowAfter<T(!new)>(cmp: (T, T) -> int, t: seq<T>, i: nat, j: nat)
    requires TotalPreorder(cmp) && i <= j < |t| && Placed(cmp, t, 0, |t|, i)
    ensures cmp(t[j], t[i]) >= 0
  {
    if i < j {
      assert cmp(t[i], t[j]) <= 0;
    }
  }

  lemma NotAboveBefore<T(!new)>(cmp: (T, T) -> int, t: seq<T>, i: nat, j: nat)
    requires TotalPreorder(cmp) && j <= i < |t| && Placed(cmp, t, 0, |t|, i)
    ensures cmp(t[j], t[i]) <= 0
  {
    if i == j {
      assert cmp(t[i], t[i]) < 0 <==> cmp(t[i], t[i]) > 0;
    }
  }

  lemma BelowTrans<T(!new)>(cmp: (T, T) -> int, a: T, b: T, x: T)
    requires TotalPreorder(cmp) && (a == b || cmp(a, b) <= 0) && cmp(b, x) < 0
    ensures cmp(a, x) < 0
  {
    if cmp(a, x) >= 0 {
      assert cmp(x, a) <= 0;
      if a != b {
        Transitive(cmp, x, a, b);
      }
      assert false;
    }
  }

  lemma AboveTrans<T(!new)>(cmp: (T, T) -> int, a: T, b: T, x: T)
    requires TotalPreorder(cmp) && (a == b || cmp(b, a) <= 0) && cmp(b, x) > 0
    ensures cmp(a, x) > 0
  {
    if cmp(a, x) <= 0 {
      if a != b {
        Transitive(cmp, b, a, x);
      }
      assert false;
    }
  }

  function Below<T>(cmp: (T, T) -> int, x: T): T -> bool {
    y => cmp(y, x) < 0
  }

  function Above<T>(cmp: (T, T) -> int, x: T): T -> bool {
    y => cmp(y, x) > 0
  }

  lemma ManyBelow<T(!new)>(cmp: (T, T) -> int, s: seq<T>, i: nat, x: T)
    requires TotalPreorder(cmp) && i < |s| && Sorted(cmp, s, 0, |s|) && cmp(s[i], x) < 0
    ensures CountIf(s, Below(cmp, x)) >= i + 1
  {
    hide TotalPreorder, CountIf;
    forall j | 0 <= j <= i
      ensures Below(cmp, x)(s[j])
    {
      BelowTrans(cmp, s[j], s[i], x);
    }
    CountSplit(s, i + 1, Below(cmp, x));
    CountBounds(s[..i + 1], Below(cmp, x));
  }

  lemma FewBelow<T(!new)>(cmp: (T, T) -> int, t: seq<T>, i: nat)
    requires TotalPreorder(cmp) && i < |t| && Placed(cmp, t, 0, |t|, i)
    ensures CountIf(t, Below(cmp, t[i])) <= i
  {
    hide TotalPreorder, CountIf, Placed;
    forall j | i <= j < |t|
      ensures !Below(cmp, t[i])(t[j])
    {
      NotBelowAfter(cmp, t, i, j);
    }
    CountSplit(t, i, Below(cmp, t[i]));
    CountBounds(t[..i], Below(cmp, t[i]));
    CountBounds(t[i..], Below(cmp, t[i]));
  }

  lemma ManyAbove<T(!new)>(cmp: (T, T) -> int, s: seq<T>, i: nat, x: T)
    requires TotalPreorder(cmp) && i < |s| && Sorted(cmp, s, 0, |s|) && cmp(s[i], x) > 0
    ensures CountIf(s, Above(cmp, x)) >= |s| - i
  {
    hide TotalPreorder, CountIf;
    forall j | i <= j < |s|
      ensures Above(cmp, x)(s[j])
    {
      AboveTrans(cmp, s[j], s[i], x);
    }
    CountSplit(s, i, Above(cmp, x));
    CountBounds(s[i..], Above(cmp, x));
  }

  lemma FewAbove<T(!new)>(cmp: (T, T) -> int, t: seq<T>, i: nat)
    requires TotalPreorder(cmp) && i < |t| && Placed(cmp, t, 0, |t|, i)
    ensures CountIf(t, Above(cmp, t[i])) <= |t| - i - 1
  {
    hide TotalPreorder, CountIf, Placed;
    forall j | 0 <= j <= i
      ensures !Above(cmp, t[i])(t[j])
    {
      NotAboveBefore(cmp, t, i, j);
    }
    CountSplit(t, i + 1, Above(cmp, t[i]));
    CountBounds(t[..i + 1], Above(cmp, t[i]));
    CountBounds(t[i + 1..], Above(cmp, t[i]));
  }
}
