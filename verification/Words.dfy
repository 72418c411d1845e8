/**
 C's `unsigned long`: a natural number below 2^n together with the bitwise
 operators, which act on its binary digits. The cursor of `dictScan` lives here:
 reversing the digits of a word turns "same low-order digits" (same bucket) into
 "same leading digits" (same block of consecutive numbers).

 The number of digits `n` of a word is a parameter, as `8 * sizeof(v)` is in the
 source. Everything is defined digit by digit, so that no proof multiplies or
 divides by anything but 2.
 */
module Words {
  function Pow2(n: nat): (p: nat)
    ensures p > 0
  {
    if n == 0 then 1 else 2 * Pow2(n - 1)
  }

  lemma {:induction false} Pow2Monotone(a: nat, b: nat)
    requires a <= b
    ensures Pow2(a) <= Pow2(b)
  {
    if a < b {
      Pow2Monotone(a, b - 1);
    }
  }

  function Digit(b: bool): nat {
    if b then 1 else 0
  }

  // --- Cutting a number at digit `k` ---

  /** The low `k` digits of `v`: its remainder modulo 2^k. */
  function Low(k: nat, v: nat): (r: nat)
    ensures r < Pow2(k)
    decreases k
  {
    if k == 0 then 0 else v % 2 + 2 * Low(k - 1, v / 2)
  }

  /** The digits of `v` from `k` upward: its quotient by 2^k. */
  function High(k: nat, v: nat): nat
    decreases k
  {
    if k == 0 then v else High(k - 1, v / 2)
  }

  /** `v` moved `k` digits up: its product with 2^k. */
  function Up(k: nat, v: nat): nat
    decreases k
  {
    if k == 0 then v else 2 * Up(k - 1, v)
  }

  lemma {:induction false} CutUp(k: nat, q: nat, r: nat)
    requires r < Pow2(k)
    ensures Low(k, Up(k, q) + r) == r && High(k, Up(k, q) + r) == q
    decreases k
  {
    if k > 0 {
      CutUp(k - 1, q, r / 2);
      assert (Up(k, q) + r) / 2 == Up(k - 1, q) + r / 2;
    }
  }

  lemma {:induction false} LowSmall(k: nat, v: nat)
    requires v < Pow2(k)
    ensures Low(k, v) == v && High(k, v) == 0
    decreases k
  {
    if k > 0 {
      LowSmall(k - 1, v / 2);
    }
  }

  lemma {:induction false} UpPow2(k: nat, j: nat)
    ensures Up(k, Pow2(j)) == Pow2(k + j)
    decreases k
  {
    if k > 0 {
      UpPow2(k - 1, j);
    }
  }

  lemma {:induction false} UpMinus(k: nat, a: nat, b: nat)
    requires b <= a
    ensures Up(k, a - b) == Up(k, a) - Up(k, b)
    decreases k
  {
    if k > 0 {
      UpMinus(k - 1, a, b);
    }
  }

  lemma {:induction false} UpMonotone(k: nat, a: nat, b: nat)
    ensures a <= b <==> Up(k, a) <= Up(k, b)
    decreases k
  {
    if k > 0 {
      UpMonotone(k - 1, a, b);
    }
  }

  lemma {:induction false} UpUp(j: nat, k: nat, v: nat)
    ensures Up(j, Up(k, v)) == Up(j + k, v)
    decreases j
  {
    if j > 0 {
      UpUp(j - 1, k, v);
    }
  }

  lemma {:induction false} HighHigh(j: nat, k: nat, v: nat)
    ensures High(j, High(k, v)) == High(j + k, v)
    decreases k
  {
    if k > 0 {
      HighHigh(j, k - 1, v / 2);
    }
  }

  /** The low digits of the low digits. */
  lemma {:induction false} LowLow(j: nat, k: nat, v: nat)
    requires j <= k
    ensures Low(j, Low(k, v)) == Low(j, v)
    decreases k
  {
    if j > 0 {
      LowLow(j - 1, k - 1, v / 2);
    }
  }

  /** The low `k + d` digits are the low `k` digits and, above them, the next `d` digits. */
  lemma {:induction false} LowSplit(k: nat, d: nat, v: nat)
    ensures Low(k + d, v) == Low(k, v) + Up(k, Low(d, High(k, v)))
    decreases k
  {
    if k > 0 {
      LowSplit(k - 1, d, v / 2);
    }
  }

  /** Being below `q * 2^k` only depends on the digits from `k` upward. */
  lemma {:induction false} BelowUp(k: nat, v: nat, q: nat)
    ensures v < Up(k, q) <==> High(k, v) < q
    decreases k
  {
    if k > 0 {
      BelowUp(k - 1, v / 2, q);
    }
  }

  lemma {:induction false} HighMonotone(k: nat, a: nat, b: nat)
    requires a <= b
    ensures High(k, a) <= High(k, b)
    decreases k
  {
    if k > 0 {
      HighMonotone(k - 1, a / 2, b / 2);
    }
  }

  // --- The bitwise operators ---

  predicate Bit(v: nat, i: nat)
    decreases i
  {
    if i == 0 then v % 2 == 1 else Bit(v / 2, i - 1)
  }

  function And(a: nat, b: nat): nat {
    if a == 0 || b == 0 then 0
    else Digit(a % 2 == 1 && b % 2 == 1) + 2 * And(a / 2, b / 2)
  }

  function Or(a: nat, b: nat): nat
    decreases a + b
  {
    if a == 0 && b == 0 then 0
    else Digit(a % 2 == 1 || b % 2 == 1) + 2 * Or(a / 2, b / 2)
  }

  function Xor(a: nat, b: nat): nat
    decreases a + b
  {
    if a == 0 && b == 0 then 0
    else Digit(a % 2 != b % 2) + 2 * Xor(a / 2, b / 2)
  }

  function Not(n: nat, a: nat): (r: nat)
    requires a < Pow2(n)
    ensures r < Pow2(n)
  {
    Pow2(n) - 1 - a
  }

  function Shl(n: nat, v: nat, s: nat): (r: nat)
    ensures r < Pow2(n)
  {
    Low(n, Up(s, v))
  }

  function Shr(v: nat, s: nat): nat {
    High(s, v)
  }

  /** Adding one wraps around at 2^n. */
  function Inc(n: nat, v: nat): (r: nat)
    requires v < Pow2(n)
    ensures r < Pow2(n)
  {
    if v + 1 == Pow2(n) then 0 else v + 1
  }

  // --- Each operator works digit by digit ---

  lemma {:induction false} BitAnd(a: nat, b: nat, i: nat)
    ensures Bit(And(a, b), i) == (Bit(a, i) && Bit(b, i))
    decreases i
  {
    if a == 0 || b == 0 {
      BitZero(i);
    } else if i > 0 {
      BitAnd(a / 2, b / 2, i - 1);
    }
  }

  lemma {:induction false} BitOr(a: nat, b: nat, i: nat)
    ensures Bit(Or(a, b), i) == (Bit(a, i) || Bit(b, i))
    decreases i
  {
    if a == 0 && b == 0 {
      BitZero(i);
    } else if i > 0 {
      BitOr(a / 2, b / 2, i - 1);
    }
  }

  lemma {:induction false} BitXor(a: nat, b: nat, i: nat)
    ensures Bit(Xor(a, b), i) == (Bit(a, i) != Bit(b, i))
    decreases i
  {
    if a == 0 && b == 0 {
      BitZero(i);
    } else if i > 0 {
      BitXor(a / 2, b / 2, i - 1);
    }
  }

  lemma {:induction false} BitZero(i: nat)
    ensures !Bit(0, i)
  {
    if i > 0 {
      BitZero(i - 1);
    }
  }

  lemma {:induction false} BitComplement(n: nat, a: nat, i: nat)
    requires a < Pow2(n) && i < n
    ensures Bit(Pow2(n) - 1 - a, i) == !Bit(a, i)
    decreases i
  {
    if i > 0 {
      BitComplement(n - 1, a / 2, i - 1);
      assert (Pow2(n) - 1 - a) / 2 == Pow2(n - 1) - 1 - a / 2;
    }
  }

  lemma {:induction false} BitHigh(v: nat, s: nat, i: nat)
    ensures Bit(High(s, v), i) == Bit(v, i + s)
    decreases s
  {
    if s > 0 {
      BitHigh(v / 2, s - 1, i);
    }
  }

  lemma {:induction false} BitLow(n: nat, v: nat, i: nat)
    requires i < n
    ensures Bit(Low(n, v), i) == Bit(v, i)
    decreases n
  {
    if i > 0 {
      BitLow(n - 1, v / 2, i - 1);
    }
  }

  lemma {:induction false} BitUp(v: nat, s: nat, i: nat)
    ensures Bit(Up(s, v), i) == (i >= s && Bit(v, i - s))
    decreases s
  {
    if s > 0 && i > 0 {
      BitUp(v, s - 1, i - 1);
    }
  }

  lemma BitShl(n: nat, v: nat, s: nat, i: nat)
    requires i < n
    ensures Bit(Shl(n, v, s), i) == (i >= s && Bit(v, i - s))
  {
    BitLow(n, Up(s, v), i);
    BitUp(v, s, i);
  }

  /** Numbers of `n` digits with the same digits are the same number. */
  lemma {:induction false} SameBits(n: nat, a: nat, b: nat)
    requires a < Pow2(n) && b < Pow2(n)
    requires forall i: nat | i < n :: Bit(a, i) == Bit(b, i)
    ensures a == b
    decreases n
  {
    if n > 0 {
      assert Bit(a, 0) == Bit(b, 0);
      forall i: nat | i < n - 1
        ensures Bit(a / 2, i) == Bit(b / 2, i)
      {
        assert Bit(a, i + 1) == Bit(b, i + 1);
      }
      SameBits(n - 1, a / 2, b / 2);
    }
  }

  // --- Masks of the form 2^k - 1 ---

  lemma HalfOnes(k: nat)
    requires k > 0
    ensures (Pow2(k) - 1) / 2 == Pow2(k - 1) - 1 && (Pow2(k) - 1) % 2 == 1
  {
  }

  lemma HalfRange(k: nat, n: nat)
    requires 0 < k <= n
    ensures 0 <= Pow2(n) - Pow2(k) && 0 <= Pow2(n - 1) - Pow2(k - 1)
    ensures (Pow2(n) - Pow2(k)) / 2 == Pow2(n - 1) - Pow2(k - 1) && (Pow2(n) - Pow2(k)) % 2 == 0
  {
    Pow2Monotone(k - 1, n - 1);
  }

  lemma AndStep(a: nat, b: nat)
    ensures And(a, b) == Digit(a % 2 == 1 && b % 2 == 1) + 2 * And(a / 2, b / 2)
  {
  }

  lemma OrStep(a: nat, b: nat)
    ensures Or(a, b) == Digit(a % 2 == 1 || b % 2 == 1) + 2 * Or(a / 2, b / 2)
  {
  }

  lemma XorStep(a: nat, b: nat)
    ensures Xor(a, b) == Digit(a % 2 != b % 2) + 2 * Xor(a / 2, b / 2)
  {
  }

  lemma {:induction false} AndOnes(k: nat, a: nat)
    requires a < Pow2(k)
    ensures And(a, Pow2(k) - 1) == a
    decreases k
  {
    if k > 0 {
      HalfOnes(k);
      AndStep(a, Pow2(k) - 1);
      AndOnes(k - 1, a / 2);
    }
  }

  lemma {:induction false} OrOnes(k: nat, a: nat)
    requires a < Pow2(k)
    ensures Or(a, Pow2(k) - 1) == Pow2(k) - 1
    decreases k
  {
    if k > 0 {
      HalfOnes(k);
      OrStep(a, Pow2(k) - 1);
      OrOnes(k - 1, a / 2);
    }
  }

  lemma {:induction false} OrZero(a: nat)
    ensures Or(a, 0) == a && Or(0, a) == a
  {
    if a > 0 {
      OrZero(a / 2);
    }
  }

  lemma {:induction false} XorZero(a: nat)
    ensures Xor(0, a) == a
  {
    if a > 0 {
      XorZero(a / 2);
    }
  }

  /** `v & m` with `m == 2^k - 1` keeps the low `k` digits: the bucket index of `dict.c`. */
  lemma {:induction false} AndMask(k: nat, v: nat)
    ensures And(v, Pow2(k) - 1) == Low(k, v)
    decreases k
  {
    if k > 0 {
      AndMask(k - 1, v / 2);
      HalfOnes(k);
      AndStep(v, Pow2(k) - 1);
    }
  }

  lemma {:induction false} LowOfZero(k: nat)
    ensures Low(k, 0) == 0
  {
    if k > 0 {
      LowOfZero(k - 1);
    }
  }

  /** `v | m` with `m == 2^k - 1` is the last number of the block of `v`. */
  lemma {:induction false} OrMask(k: nat, v: nat)
    ensures Or(v, Pow2(k) - 1) == Up(k, High(k, v)) + Pow2(k) - 1
    decreases k
  {
    if k == 0 {
      OrZero(v);
    } else {
      OrMask(k - 1, v / 2);
      HalfOnes(k);
      OrStep(v, Pow2(k) - 1);
    }
  }

  /** `v | ~m`, on words of `n` digits. */
  lemma {:induction false} OrHigh(n: nat, k: nat, v: nat)
    requires k <= n && v < Pow2(n)
    ensures Pow2(k) <= Pow2(n)
    ensures Or(v, Pow2(n) - Pow2(k)) == Low(k, v) + Pow2(n) - Pow2(k)
    decreases k
  {
    hide Or;
    Pow2Monotone(k, n);
    if k == 0 {
      OrOnes(n, v);
    } else {
      OrHigh(n - 1, k - 1, v / 2);
      HalfRange(k, n);
      OrStep(v, Pow2(n) - Pow2(k));
    }
  }

  /** `v & ~m`, on words of `n` digits. */
  lemma {:induction false} AndHigh(n: nat, k: nat, v: nat)
    requires k <= n && v < Pow2(n)
    ensures Pow2(k) <= Pow2(n)
    ensures And(v, Pow2(n) - Pow2(k)) == Up(k, High(k, v))
    decreases k
  {
    hide And;
    Pow2Monotone(k, n);
    if k == 0 {
      AndOnes(n, v);
    } else {
      AndHigh(n - 1, k - 1, v / 2);
      HalfRange(k, n);
      AndStep(v, Pow2(n) - Pow2(k));
    }
  }

  lemma {:induction false} UpOfZero(k: nat)
    ensures Up(k, 0) == 0
  {
    if k > 0 {
      UpOfZero(k - 1);
    }
  }

  lemma {:induction false} OrDisjoint(k: nat, c: nat, r: nat)
    requires r < Pow2(k)
    ensures Or(Up(k, c), r) == Up(k, c) + r
    decreases k
  {
    if k == 0 {
      OrZero(c);
    } else {
      OrDisjoint(k - 1, c, r / 2);
    }
  }

  /** `m0 ^ m1`: the digits that only the larger mask covers. */
  lemma {:induction false} XorMasks(k0: nat, k1: nat)
    requires k0 <= k1
    ensures Pow2(k0) <= Pow2(k1)
    ensures Xor(Pow2(k0) - 1, Pow2(k1) - 1) == Pow2(k1) - Pow2(k0)
    decreases k0
  {
    hide Xor;
    Pow2Monotone(k0, k1);
    if k0 == 0 {
      XorZero(Pow2(k1) - 1);
    } else {
      XorMasks(k0 - 1, k1 - 1);
      HalfOnes(k0);
      HalfOnes(k1);
      XorStep(Pow2(k0) - 1, Pow2(k1) - 1);
    }
  }

  /** `v & (m0 ^ m1)`. */
  lemma {:induction false} AndRange(k: nat, d: nat, v: nat)
    ensures Pow2(k) <= Pow2(k + d)
    ensures And(v, Pow2(k + d) - Pow2(k)) == Up(k, Low(d, High(k, v)))
    decreases k
  {
    hide And;
    Pow2Monotone(k, k + d);
    if k == 0 {
      AndMask(d, v);
    } else {
      AndRange(k - 1, d, v / 2);
      HalfRange(k, k + d);
      AndStep(v, Pow2(k + d) - Pow2(k));
    }
  }

  lemma {:induction false} AndBound(a: nat, b: nat)
    ensures And(a, b) <= a && And(a, b) <= b
  {
    if a > 0 && b > 0 {
      AndBound(a / 2, b / 2);
    }
  }

  lemma {:induction false} OrBound(n: nat, a: nat, b: nat)
    requires a < Pow2(n) && b < Pow2(n)
    ensures Or(a, b) < Pow2(n)
    decreases n
  {
    if n > 0 {
      OrBound(n - 1, a / 2, b / 2);
    }
  }

  lemma {:induction false} XorBound(n: nat, a: nat, b: nat)
    requires a < Pow2(n) && b < Pow2(n)
    ensures Xor(a, b) < Pow2(n)
    decreases n
  {
    if n > 0 {
      XorBound(n - 1, a / 2, b / 2);
    }
  }

  // --- Reversing the digits ---

  /** The low `n` digits of `v` read in the opposite order: what `rev` is for. */
  function Rank(v: nat, n: nat): (r: nat)
    ensures r < Pow2(n)
    decreases n
  {
    if n == 0 then 0
    else (if v % 2 == 1 then Pow2(n - 1) else 0) + Rank(v / 2, n - 1)
  }

  lemma {:induction false} RankBit(v: nat, n: nat, i: nat)
    requires i < n
    ensures Bit(Rank(v, n), i) == Bit(v, n - 1 - i)
    decreases n
  {
    var low := Rank(v / 2, n - 1);
    LeadingBit(n - 1, v % 2 == 1, low, i);
    if i < n - 1 {
      RankBit(v / 2, n - 1, i);
    }
  }

  lemma {:induction false} LeadingBit(n: nat, t: bool, low: nat, i: nat)
    requires low < Pow2(n) && i <= n
    ensures Bit((if t then Pow2(n) else 0) + low, i) == if i == n then t else Bit(low, i)
    decreases n
  {
    if i > 0 {
      LeadingBit(n - 1, t, low / 2, i - 1);
      var lead := if t then Pow2(n) else 0;
      assert (lead + low) / 2 == (if t then Pow2(n - 1) else 0) + low / 2;
    }
  }

  lemma RankInvolution(v: nat, n: nat)
    requires v < Pow2(n)
    ensures Rank(Rank(v, n), n) == v
  {
    forall i: nat | i < n
      ensures Bit(Rank(Rank(v, n), n), i) == Bit(v, i)
    {
      RankBit(Rank(v, n), n, i);
      RankBit(v, n, n - 1 - i);
    }
    SameBits(n, Rank(Rank(v, n), n), v);
  }

  /** The low `k` digits of `v` become the leading `k` digits of its reversal. */
  lemma {:induction false} RankSplit(v: nat, k: nat, j: nat)
    ensures Rank(v, k + j) == Up(j, Rank(v, k)) + Rank(High(k, v), j)
    decreases k
  {
    if k == 0 {
      UpOfZero(j);
    } else {
      RankSplit(v / 2, k - 1, j);
      UpPow2(j, k - 1);
      UpOfZero(j);
      UpMinus(j, Rank(v, k), Rank(v / 2, k - 1));
    }
  }

  lemma RankHigh(v: nat, k: nat, j: nat)
    ensures High(j, Rank(v, k + j)) == Rank(v, k)
    ensures Low(j, Rank(v, k + j)) == Rank(High(k, v), j)
  {
    RankSplit(v, k, j);
    CutUp(j, Rank(v, k), Rank(High(k, v), j));
  }

  /** Numbers have the same `n`-digit reversal exactly when their low `n` digits agree. */
  lemma {:induction false} RankSame(a: nat, b: nat, n: nat)
    ensures Rank(a, n) == Rank(b, n) <==> Low(n, a) == Low(n, b)
    decreases n
  {
    if n > 0 {
      RankSame(a / 2, b / 2, n - 1);
    }
  }

  lemma {:induction false} RankOnes(n: nat)
    ensures Rank(Pow2(n) - 1, n) == Pow2(n) - 1
  {
    if n > 0 {
      RankOnes(n - 1);
      assert (Pow2(n) - 1) / 2 == Pow2(n - 1) - 1;
    }
  }

  // --- The loop of `rev` ---

  /** Position `i` moved to the neighbouring block of 2^e digits: digit `e` of `i` is flipped. */
  function Neighbour(e: nat, i: nat): nat
    decreases e
  {
    if e == 0 then (if i % 2 == 0 then i + 1 else i - 1)
    else i % 2 + 2 * Neighbour(e - 1, i / 2)
  }

  lemma {:induction false} NeighbourMoves(e: nat, i: nat)
    ensures if Bit(i, e) then Pow2(e) <= i && Neighbour(e, i) == i - Pow2(e)
            else Neighbour(e, i) == i + Pow2(e)
    decreases e
  {
    if e > 0 {
      NeighbourMoves(e - 1, i / 2);
    }
  }

  lemma {:induction false} NeighbourBound(n: nat, e: nat, i: nat)
    requires e < n && i < Pow2(n)
    ensures Neighbour(e, i) < Pow2(n)
    decreases e
  {
    if e > 0 {
      NeighbourBound(n - 1, e - 1, i / 2);
    }
  }

  /** Position `i` of 2^n positions, with blocks of 2^e positions put in reverse order. */
  function Flip(e: nat, n: nat, i: nat): (j: nat)
    requires e <= n && i < Pow2(n)
    ensures j < Pow2(n)
    decreases e
  {
    if e == 0 then Pow2(n) - 1 - i else i % 2 + 2 * Flip(e - 1, n - 1, i / 2)
  }

  lemma {:induction false} FlipWhole(n: nat, i: nat)
    requires i < Pow2(n)
    ensures Flip(n, n, i) == i
    decreases n
  {
    if n > 0 {
      FlipWhole(n - 1, i / 2);
    }
  }

  /** Exchanging neighbouring blocks of 2^e refines the block order from 2^(e+1) to 2^e. */
  lemma {:induction false} FlipStep(e: nat, n: nat, i: nat)
    requires e < n && i < Pow2(n)
    ensures Neighbour(e, i) < Pow2(n)
    ensures Flip(e + 1, n, Neighbour(e, i)) == Flip(e, n, i)
    decreases e
  {
    NeighbourBound(n, e, i);
    if e == 0 {
      FlipPairs(n, i);
    } else {
      FlipStep(e - 1, n - 1, i / 2);
      assert Neighbour(e, i) / 2 == Neighbour(e - 1, i / 2) && Neighbour(e, i) % 2 == i % 2;
      hide Neighbour;
    }
  }

  lemma FlipPairs(n: nat, i: nat)
    requires 0 < n && i < Pow2(n)
    ensures Neighbour(0, i) < Pow2(n) && Flip(1, n, Neighbour(0, i)) == Flip(0, n, i)
  {
    var j := Neighbour(0, i);
    PairArithmetic(Pow2(n - 1), i, j);
    hide Neighbour;
    assert Flip(0, n - 1, j / 2) == Pow2(n - 1) - 1 - j / 2;
  }

  lemma PairArithmetic(p: nat, i: nat, j: nat)
    requires i < 2 * p && j == if i % 2 == 0 then i + 1 else i - 1
    ensures j < 2 * p && j / 2 < p && j % 2 + 2 * (p - 1 - j / 2) == 2 * p - 1 - i
  {
  }

  /** `mask ^= mask << s` selects the lower blocks of half the size. */
  lemma {:induction false} LowerBlockStep(e: nat, i: nat)
    ensures !Bit(i, e) == (!Bit(i, e + 1) != (i >= Pow2(e) && !Bit(i - Pow2(e), e + 1)))
    decreases e
  {
    if e > 0 {
      LowerBlockStep(e - 1, i / 2);
      if i >= Pow2(e) {
        assert (i - Pow2(e)) / 2 == i / 2 - Pow2(e - 1);
      }
    }
  }

  function NextMask(n: nat, mask: nat, s: nat): nat {
    Xor(mask, Shl(n, mask, s))
  }

  /** One round: every digit moves `s` places up or down, as the mask says. */
  function Exchange(n: nat, v: nat, mask: nat, s: nat): nat
    requires mask < Pow2(n)
  {
    Or(And(Shr(v, s), mask), And(Shl(n, v, s), Not(n, mask)))
  }

  lemma ExchangeBit(n: nat, v: nat, mask: nat, s: nat, i: nat)
    requires mask < Pow2(n) && i < n
    ensures Bit(Exchange(n, v, mask, s), i)
         == if Bit(mask, i) then Bit(v, i + s) else i >= s && Bit(v, i - s)
  {
    BitOr(And(Shr(v, s), mask), And(Shl(n, v, s), Not(n, mask)), i);
    BitAnd(Shr(v, s), mask, i);
    BitAnd(Shl(n, v, s), Not(n, mask), i);
    BitHigh(v, s, i);
    BitShl(n, v, s, i);
    BitComplement(n, mask, i);
  }

  lemma ExchangeBound(n: nat, v: nat, mask: nat, s: nat)
    requires mask < Pow2(n)
    ensures Exchange(n, v, mask, s) < Pow2(n)
  {
    AndBound(Shr(v, s), mask);
    AndBound(Shl(n, v, s), Not(n, mask));
    OrBound(n, And(Shr(v, s), mask), And(Shl(n, v, s), Not(n, mask)));
  }

  lemma NextMaskBit(n: nat, mask: nat, e: nat, i: nat)
    requires i < n
    requires forall j: nat | j < n :: Bit(mask, j) == !Bit(j, e + 1)
    ensures Bit(NextMask(n, mask, Pow2(e)), i) == !Bit(i, e)
  {
    LowerBlockStep(e, i);
    BitXor(mask, Shl(n, mask, Pow2(e)), i);
    BitShl(n, mask, Pow2(e), i);
  }

  /** `v` is `x` with its blocks of 2^e digits in reverse order, and `mask` selects every other block. */
  ghost predicate InBlocks(w: nat, x: nat, e: nat, v: nat, mask: nat) {
    && e <= w
    && v < Pow2(Pow2(w))
    && mask < Pow2(Pow2(w))
    && BlocksReversed(w, x, e, v)
    && EveryOtherBlock(w, e, mask)
  }

  ghost predicate BlocksReversed(w: nat, x: nat, e: nat, v: nat)
    requires e <= w
  {
    forall i: nat | i < Pow2(w) :: Bit(v, i) == Bit(x, Flip(e, w, i))
  }

  ghost predicate EveryOtherBlock(w: nat, e: nat, mask: nat) {
    forall i: nat | i < Pow2(w) :: Bit(mask, i) == !Bit(i, e)
  }

  lemma ExchangedBit(w: nat, x: nat, v: nat, mask: nat, e: nat, i: nat)
    requires mask < Pow2(Pow2(w)) && i < Pow2(w) && e < w
    requires BlocksReversed(w, x, e + 1, v)
    requires Bit(mask, i) == !Bit(i, e)
    ensures Bit(Exchange(Pow2(w), v, mask, Pow2(e)), i) == Bit(x, Flip(e, w, i))
  {
    ExchangeBit(Pow2(w), v, mask, Pow2(e), i);
    NeighbourMoves(e, i);
    FlipStep(e, w, i);
    assert Bit(v, Neighbour(e, i)) == Bit(x, Flip(e, w, i));
  }

  lemma ExchangeBlocks(w: nat, x: nat, e: nat, v: nat, mask: nat)
    requires InBlocks(w, x, e + 1, v, mask)
    ensures NextMask(Pow2(w), mask, Pow2(e)) < Pow2(Pow2(w))
    ensures var mask' := NextMask(Pow2(w), mask, Pow2(e));
            InBlocks(w, x, e, Exchange(Pow2(w), v, mask', Pow2(e)), mask')
  {
    var n := Pow2(w);
    XorBound(n, mask, Shl(n, mask, Pow2(e)));
    var mask' := NextMask(n, mask, Pow2(e));
    ExchangeBound(n, v, mask', Pow2(e));
    forall i: nat | i < n
      ensures Bit(mask', i) == !Bit(i, e)
      ensures Bit(Exchange(n, v, mask', Pow2(e)), i) == Bit(x, Flip(e, w, i))
    {
      NextMaskBit(n, mask, e, i);
      ExchangedBit(w, x, v, mask', e, i);
    }
  }

  lemma WholeWord(w: nat, x: nat)
    requires x < Pow2(Pow2(w))
    ensures InBlocks(w, x, w, x, Not(Pow2(w), 0))
  {
    forall i: nat | i < Pow2(w)
      ensures Bit(Not(Pow2(w), 0), i) == !Bit(i, w)
      ensures Flip(w, w, i) == i
    {
      BitComplement(Pow2(w), 0, i);
      BitZero(i);
      BitBeyond(w, i);
      FlipWhole(w, i);
    }
  }

  lemma {:induction false} BitBeyond(n: nat, v: nat)
    requires v < Pow2(n)
    ensures !Bit(v, n)
    decreases n
  {
    if n > 0 {
      BitBeyond(n - 1, v / 2);
    }
  }

  lemma SingleBlocksReversed(w: nat, x: nat, v: nat, mask: nat)
    requires InBlocks(w, x, 0, v, mask)
    ensures v == Rank(x, Pow2(w))
  {
    var n := Pow2(w);
    forall i: nat | i < n
      ensures Bit(v, i) == Bit(Rank(x, n), i)
    {
      RankBit(x, n, i);
      assert Flip(0, w, i) == n - 1 - i;
    }
    SameBits(n, v, Rank(x, n));
  }

  /**
   `rev` on words of 2^w digits: reverse the digits by exchanging halves, then
   quarters, and so on down to single digits.
   */
  method Rev(w: nat, x: nat) returns (v: nat)
    requires x < Pow2(Pow2(w))
    ensures v == Rank(x, Pow2(w))
  {
    hide InBlocks, Rank, Pow2, NextMask, Exchange, Not;
    var n := Pow2(w);
    v := x;
    var s := n;
    var mask := Not(n, 0);
    WholeWord(w, x);
    ghost var e := w;
    HalvePow2(w);
    s := s / 2;
    while s > 0
      invariant InBlocks(w, x, e, v, mask)
      invariant s == if e == 0 then 0 else Pow2(e - 1)
    {
      e := e - 1;
      ExchangeBlocks(w, x, e, v, mask);
      mask := NextMask(n, mask, s);
      v := Exchange(n, v, mask, s);
      HalvePow2(e);
      s := s / 2;
    }
    SingleBlocksReversed(w, x, v, mask);
  }

  lemma HalvePow2(e: nat)
    ensures Pow2(e) / 2 == if e == 0 then 0 else Pow2(e - 1)
  {
  }
}
